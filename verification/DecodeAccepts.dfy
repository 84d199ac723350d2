/**
 * Which packets the decoders accept: for every command exactly those of the sizes that the protocol header gives it,
 * with its fields in range, and any list that a client may send is handed on element by element.
 */
module DecodeAccepts {
  import opened Bags
  import opened Machine
  import opened Protocol
  import opened Decode
  import opened DecodeLists
  import opened DecodeObjects

  // --- lists ---------------------------------------------------------------------------------

  /** The command that sets a list; vertex elements are an object. */
  function CommandFor(k: ListKind): nat {
    match k
    case Viewports => SET_VIEWPORT_STATE
    case ColorBuffers => SET_FRAMEBUFFER_STATE
    case VertexBuffers => SET_VERTEX_BUFFERS
    case SamplerViews => SET_SAMPLER_VIEWS
    case Scissors => SET_SCISSOR_STATE
    case SamplerStates => BIND_SAMPLER_STATES
    case StreamoutTargets => SET_STREAMOUT_TARGETS
    case ShaderBuffers => SET_SHADER_BUFFERS
    case ShaderImages => SET_SHADER_IMAGES
    case AtomicBuffers => SET_ATOMIC_BUFFERS
    case ResourcePlanes => PIPE_RESOURCE_SET_TYPE
    case VertexElements => CREATE_OBJECT
  }

  /** A list that a client may send: whole elements, a known shader stage, and slots below the limit. */
  ghost predicate Sendable(k: ListKind, head: seq<Word>, items: seq<seq<Word>>) {
    var n := |items|;
    && |head| == Base(k) - 1 && (forall i :: 0 <= i < n ==> |items[i]| == Stride(k))
    && (Staged(k) ==> head[0] as nat < SHADER_TYPES)
    && (k.ColorBuffers? ==> head[0] as nat == n)
    && (k.ResourcePlanes? || k.AtomicBuffers? ==> n > 0)
    && (k.VertexElements? ==> forall i :: 0 <= i < n ==> items[i][2] as nat < MAX_ATTRIBS)
    && (Limit(k).Some? && !(n == 0 && EmptyIsFine(k)) ==>
          n <= Limit(k).value && (SlotWord(k).Some? ==> head[SlotWord(k).value - 1] as nat + n <= Limit(k).value))
  }

  ghost function PrintList(header: Word, head: seq<Word>, items: seq<seq<Word>>): seq<Word> {
    [header] + head + Flatten(items)
  }

  lemma {:induction false} FlattenSize(k: ListKind, items: seq<seq<Word>>)
    requires forall i :: 0 <= i < |items| ==> |items[i]| == Stride(k)
    ensures |Flatten(items)| == |items| * Stride(k)
  {
    if items != [] {
      FlattenSize(k, items[..|items| - 1]);
    }
  }

  lemma PlaceIs(k: ListKind, n: nat)
    ensures Place(k, n) == Base(k) + n * Stride(k)
  {
  }

  /** Reading the elements of a packet gives back the elements it was printed from. */
  lemma {:induction false} ItemsRead(k: ListKind, words: seq<Word>, items: seq<seq<Word>>)
    requires forall i :: 0 <= i < |items| ==> |items[i]| == Stride(k)
    requires Place(k, |items|) <= |words| && Base(k) <= Place(k, |items|)
    requires words[Base(k)..Place(k, |items|)] == Flatten(items)
    ensures Items(k, words, |items|) == items
    decreases |items|
  {
    hide Place, Base, Stride;
    if items != [] {
      var m := |items| - 1;
      var a, b, c := Base(k), Place(k, m), Place(k, m + 1);
      NextPlace(k, m);
      FlattenSize(k, items[..m]);
      PlaceIs(k, m);
      FlattenLast(items);
      Pieces(words, a, b, c, Flatten(items[..m]), items[m]);
      ItemsRead(k, words, items[..m]);
      ItemsLast(k, words, m);
    } else {
      NoItems(k, words);
    }
  }

  lemma FlattenLast(items: seq<seq<Word>>)
    requires items != []
    ensures Flatten(items) == Flatten(items[..|items| - 1]) + items[|items| - 1]
  {
  }

  lemma Pieces(words: seq<Word>, a: nat, b: nat, c: nat, x: seq<Word>, y: seq<Word>)
    requires a <= b <= c <= |words| && words[a..c] == x + y && |x| == b - a
    ensures words[a..b] == x && words[b..c] == y
  {
    assert words[a..b] == words[a..c][..b - a] && words[b..c] == words[a..c][b - a..];
  }

  lemma ItemsLast(k: ListKind, words: seq<Word>, m: nat)
    requires Place(k, m + 1) <= |words|
    ensures Place(k, m) <= Place(k, m + 1)
    ensures Items(k, words, m + 1) == Items(k, words, m) + [words[Place(k, m)..Place(k, m + 1)]]
  {
    NextPlace(k, m);
  }

  lemma NoItems(k: ListKind, words: seq<Word>)
    requires Place(k, 0) <= |words|
    ensures Items(k, words, 0) == []
  {
  }

  /** The words of a printed list, by position. */
  lemma PrintedList(k: ListKind, header: Word, head: seq<Word>, items: seq<seq<Word>>, rest: seq<Word>)
    requires |head| == Base(k) - 1 && forall i :: 0 <= i < |items| ==> |items[i]| == Stride(k)
    ensures var w := PrintList(header, head, items) + rest;
      && |PrintList(header, head, items)| == PacketSize(k, |items|) + 1 == Place(k, |items|)
      && w[1..Base(k)] == head && w[Base(k)..Place(k, |items|)] == Flatten(items)
      && (forall i :: 0 <= i < |head| ==> w[i + 1] == head[i])
  {
    FlattenSize(k, items);
    SizeInverts(k, |items|);
    PlaceIs(k, |items|);
    hide Flatten, Place, PacketSize, Stride;
    var w := PrintList(header, head, items) + rest;
    assert w == [header] + head + (Flatten(items) + rest);
  }

  lemma SentPasses(k: ListKind, words: seq<Word>, head: seq<Word>, items: seq<seq<Word>>)
    requires Sendable(k, head, items) && PacketSize(k, |items|) < |words|
    requires forall i :: 0 <= i < |head| ==> words[i + 1] == head[i]
    ensures ListChecks(k, words, PacketSize(k, |items|))
  {
    hide Items;
    SizeInverts(k, |items|);
    WholeSizes(k, |items|);
    if k.ColorBuffers? {
      WordBound(head[0]);
    }
  }

  lemma WholeSizes(k: ListKind, n: nat)
    ensures PacketSize(k, n) + 1 - Base(k) == n * Stride(k) && (n * Stride(k)) % Stride(k) == 0
    ensures k.ResourcePlanes? || k.AtomicBuffers? ==> n > 0 ==> PacketSize(k, n) >= MinLength(k)
    ensures !k.ResourcePlanes? && !k.AtomicBuffers? ==> PacketSize(k, n) >= MinLength(k)
  {
  }

  /** Every list that a client may send is accepted and handed on as it is; an empty one may be skipped. */
  lemma SentIsHandedOn(video: bool, memory: bool, k: ListKind, header: Word, head: seq<Word>, items: seq<seq<Word>>,
                       rest: seq<Word>)
    requires !k.VertexElements? && Sendable(k, head, items)
    ensures var words := PrintList(header, head, items) + rest;
      && |PrintList(header, head, items)| == PacketSize(k, |items|) + 1
      && Decide(video, memory, CommandFor(k), words, PacketSize(k, |items|)) ==
           if EmptyIsFine(k) && items == [] then Skip else Do(Listed(k, head, items))
  {
    hide PrintList, Items, Place, Flatten, Limit, SlotWord, Stride, Count, PacketSize, ListChecks;
    var words := PrintList(header, head, items) + rest;
    PrintedList(k, header, head, items, rest);
    SentPasses(k, words, head, items);
    SizeInverts(k, |items|);
    SentShape(k, head, items);
    NextPlace(k, |items|);
    ItemsRead(k, words, items);
    assert ListKindOf(CommandFor(k)) == Some(k) && CommandFor(k) < CREATE_VIDEO_CODEC;
  }

  lemma SentShape(k: ListKind, head: seq<Word>, items: seq<seq<Word>>)
    requires Sendable(k, head, items)
    ensures |head| == Base(k) - 1 && (forall i :: 0 <= i < |items| ==> |items[i]| == Stride(k)) && ItemsOk(k, items)
  {
  }

  /** And nothing else is: what is handed on is a list that a client may send. */
  lemma HandedOnIsSendable(k: ListKind, words: seq<Word>, len: nat)
    requires len < |words| && SetList(k, words, len).Do?
    ensures var c := SetList(k, words, len).call; Sendable(k, c.head, c.items)
  {
    hide Items, Place, Flatten, Count;
    ListExact(k, words, len);
    var n := Count(k, len);
    CountFits(k, len, n);
    ItemSizes(k, words, n);
    HeadWords(k, words, len);
    if k.AtomicBuffers? {
      assert EmptyIsFine(k);
    }
  }

  lemma HeadWords(k: ListKind, words: seq<Word>, len: nat)
    requires len < |words| && Base(k) <= len + 1
    ensures |HeadOf(k, words, len)| == Base(k) - 1
    ensures forall i :: 0 <= i < Base(k) - 1 ==> HeadOf(k, words, len)[i] == words[i + 1]
  {
  }

  lemma {:induction false} ItemSizes(k: ListKind, words: seq<Word>, n: nat)
    requires Place(k, n) <= |words|
    ensures |Items(k, words, n)| == n && forall i :: 0 <= i < n ==> |Items(k, words, n)[i]| == Stride(k)
  {
    hide Place, Stride;
    if n > 0 {
      NextPlace(k, n - 1);
      ItemSizes(k, words, n - 1);
      ItemsLast(k, words, n - 1);
    } else {
      NoItems(k, words);
    }
  }

  /** Vertex elements likewise, if their memory can be had. */
  lemma ElementsAreCreated(video: bool, memory: bool, header: Word, handle: Word, items: seq<seq<Word>>,
                           rest: seq<Word>)
    requires Sendable(VertexElements, [handle], items) && PacketSize(VertexElements, |items|) <= 0xffff
    requires HeaderReads(header, VERTEX_ELEMENTS, PacketSize(VertexElements, |items|))
    ensures var words := PrintList(header, [handle], items) + rest;
      && |words| > LengthOf(header) && words[0] == header
      && Decide(video, memory, CREATE_OBJECT, words, LengthOf(header)) ==
           if handle == 0 then Refuse(EINVAL)
           else if items != [] && !memory then Refuse(ENOMEM)
           else Do(Created(handle, VertexElementsObject(items)))
  {
    hide Items, Place, Flatten, Stride, Count, PacketSize, ListChecks, LengthOf, CommandOf, ObjectKind, DecodeShader;
    var words := PrintList(header, [handle], items) + rest;
    PrintedList(VertexElements, header, [handle], items, rest);
    SentPasses(VertexElements, words, [handle], items);
    SizeInverts(VertexElements, |items|);
    SentShape(VertexElements, [handle], items);
    ItemsRead(VertexElements, words, items);
    assert words[1] == handle;
    SizeOfElements(|items|);
  }

  lemma SizeOfElements(n: nat)
    ensures PacketSize(VertexElements, n) >= 1
  {
  }

  // --- the other commands --------------------------------------------------------------------

  /** Sizes of the commands whose packets have one size, as the protocol header lists them. */
  predicate FixedSize(cmd: nat, len: nat) {
    match len
    case 1 =>
      || cmd == BIND_OBJECT || cmd == DESTROY_OBJECT || cmd == SET_STENCIL_REF || cmd == SET_SAMPLE_MASK
      || cmd == BEGIN_QUERY || cmd == END_QUERY || cmd == SET_SUB_CTX || cmd == CREATE_SUB_CTX
      || cmd == DESTROY_SUB_CTX || cmd == SET_MIN_SAMPLES || cmd == MEMORY_BARRIER || cmd == TEXTURE_BARRIER
      || cmd == GET_MEMORY_INFO
    case 2 => cmd == GET_QUERY_RESULT || cmd == BIND_SHADER || cmd == SET_FRAMEBUFFER_STATE_NO_ATTACH
    case 3 => cmd == SET_RENDER_CONDITION
    case 4 => cmd == SET_BLEND_COLOR
    case 5 => cmd == SET_UNIFORM_BUFFER
    case 6 => cmd == SET_TESS_STATE || cmd == GET_QUERY_RESULT_QBO || cmd == LINK_SHADER
    case 8 => cmd == CLEAR || cmd == LAUNCH_GRID
    case 11 => cmd == PIPE_RESOURCE_CREATE
    case 12 => cmd == CLEAR_TEXTURE
    case 13 => cmd == RESOURCE_COPY_REGION
    case 14 => cmd == COPY_TRANSFER3D
    case 21 => cmd == BLIT
    case 32 => cmd == SET_CLIP_STATE || cmd == SET_POLYGON_STIPPLE
    case _ => false
  }

  /** Sizes of the commands with several. */
  predicate FlexibleSize(cmd: nat, len: nat) {
    || (cmd == SET_INDEX_BUFFER && (len == 1 || len == 3))
    || (cmd == DRAW_VBO && (len == 12 || len == 14 || len == 20))
    || (cmd == TRANSFER3D && len >= 13) || (cmd == SET_TWEAKS && len >= 2)
    || (cmd == CREATE_VIDEO_CODEC && len >= 7) || (cmd == CREATE_VIDEO_BUFFER && len >= 5)
    || ((cmd == DESTROY_VIDEO_CODEC || cmd == DESTROY_VIDEO_BUFFER) && len >= 1)
    || ((cmd == BEGIN_FRAME || cmd == END_FRAME) && len >= 2)
    || ((cmd == DECODE_BITSTREAM || cmd == ENCODE_BITSTREAM) && len >= 5)
  }

  /** The fields that a decoder itself checks. */
  predicate FieldsInRange(cmd: nat, words: seq<Word>, len: nat)
    requires len < |words|
  {
    && (cmd == BIND_OBJECT ==>
          var kind := ObjectKind(words[0]);
          kind == BLEND || kind == RASTERIZER || kind == DSA || kind == VERTEX_ELEMENTS)
    && (cmd == SET_UNIFORM_BUFFER && len == 5 ==> words[1] as nat < 6 && words[2] as nat < 32)
    && (cmd == TRANSFER3D && len >= 13 ==> words[13] as nat == 1 || words[13] as nat == 2)
  }

  lemma SizesAre(cmd: nat, len: nat)
    ensures ArgWords(cmd, len).Some? <==> FixedSize(cmd, len) || FlexibleSize(cmd, len)
    ensures FixedSize(cmd, len) || cmd == SET_INDEX_BUFFER || cmd == DRAW_VBO ==>
      ArgWords(cmd, len).Some? ==> ArgWords(cmd, len).value == len
    ensures cmd == SET_UNIFORM_BUFFER && ArgWords(cmd, len).Some? ==> ArgWords(cmd, len).value == len == 5
    ensures cmd == TRANSFER3D && ArgWords(cmd, len).Some? ==> ArgWords(cmd, len).value == 13 <= len
  {
  }

  /** A command that is neither a list, nor data, nor an object, is handed on iff its size and fields are right. */
  lemma PassedIff(cmd: nat, words: seq<Word>, len: nat)
    requires len < |words|
    ensures PassArgs(cmd, words, len) == Refuse(EINVAL) || PassArgs(cmd, words, len).Do?
    ensures PassArgs(cmd, words, len).Do? <==>
      (FixedSize(cmd, len) || FlexibleSize(cmd, len)) && FieldsInRange(cmd, words, len)
  {
    hide ArgWords, FixedSize, FlexibleSize, ObjectKind;
    SizesAre(cmd, len);
    var n := ArgWords(cmd, len);
    if n.Some? {
      var args := words[1..n.value + 1];
      assert cmd == SET_UNIFORM_BUFFER ==> args[0] == words[1] && args[1] == words[2];
      assert cmd == TRANSFER3D ==> args[12] == words[13];
    }
  }

  /** Object packets that are handed on unpacked have the protocol's sizes. */
  predicate ObjectSize(kind: nat, len: nat) {
    || (len == 6 && (kind == SAMPLER_VIEW || kind == MSAA_SURFACE)) || (len == 5 && kind == SURFACE)
    || (len == 4 && (kind == QUERY || kind == STREAMOUT_TARGET))
  }

  lemma OtherObjectIff(kind: nat, words: seq<Word>, len: nat, memory: bool)
    requires 1 <= len < |words| && SAMPLER_VIEW <= kind && kind != SAMPLER_STATE
    ensures DecodeObject(kind, words, len, memory) ==
      if ObjectSize(kind, len) then Made(OtherObject(kind, words[2..len + 1])) else Refused(EINVAL)
  {
  }

  /** A data command is handed on iff it has a word of data, or for a constant buffer none, and its fields allow it. */
  lemma DataIff(cmd: nat, words: seq<Word>, len: nat, memory: bool)
    requires len < |words| && DataStart(cmd).Some?
    ensures SendData(cmd, words, len, memory).Do? <==>
      || (cmd == RESOURCE_INLINE_WRITE && len >= 12)
      || (cmd == SET_CONSTANT_BUFFER && len >= 2 && words[1] as nat < 6)
      || (cmd == SET_DEBUG_FLAGS && len >= 2 && memory)
      || (cmd == SEND_STRING_MARKER && len >= 2 && words[1] as nat <= 4 * (len - 1))
    ensures !SendData(cmd, words, len, memory).Do? ==>
      SendData(cmd, words, len, memory) ==
        if cmd == SET_DEBUG_FLAGS && len >= 2 then Refuse(ENOMEM) else Refuse(EINVAL)
  {
  }

  /** Which of these a command is; the video commands are refused by a build without video. */
  lemma TableIs(video: bool, memory: bool, cmd: nat, words: seq<Word>, len: nat)
    requires len < |words| && cmd < MAX_COMMANDS
    ensures var a := Decide(video, memory, cmd, words, len);
      && (cmd >= CREATE_VIDEO_CODEC && !video ==> a == Refuse(EINVAL))
      && (cmd == NOP || cmd == END_TRANSFERS || (cmd == DECODE_MACROBLOCK && video) ==> a == Skip)
      && (cmd == CREATE_OBJECT ==> a == CreateObject(words, len, memory))
      && (forall k: ListKind :: cmd == CommandFor(k) && !k.VertexElements? ==> a == SetList(k, words, len))
      && (cmd in {RESOURCE_INLINE_WRITE, SET_CONSTANT_BUFFER, SET_DEBUG_FLAGS, SEND_STRING_MARKER} ==>
            DataStart(cmd).Some? && a == SendData(cmd, words, len, memory))
      && ((forall k: ListKind :: cmd != CommandFor(k)) && (video || cmd < CREATE_VIDEO_CODEC)
          && cmd !in {NOP, END_TRANSFERS, DECODE_MACROBLOCK}
          && cmd !in {RESOURCE_INLINE_WRITE, SET_CONSTANT_BUFFER, SET_DEBUG_FLAGS, SEND_STRING_MARKER}
          ==> a == PassArgs(cmd, words, len))
  {
    hide CreateObject, SetList, SendData, PassArgs;
    assert ListKindOf(cmd).Some? ==> cmd == CommandFor(ListKindOf(cmd).value);
    assert cmd == CREATE_OBJECT ==> cmd == CommandFor(VertexElements);
  }
}
