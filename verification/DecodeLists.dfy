/** The decoders of commands that carry a list: which lengths they accept, and which words make up each element. */
module DecodeLists {
  import opened Bags
  import opened Machine
  import opened Protocol
  import opened Decode

  const SHADER_TYPES: nat := 6
  const MAX_ATTRIBS: nat := 32

  datatype ListKind =
    | Viewports
    | VertexBuffers
    | SamplerViews
    | SamplerStates
    | ShaderBuffers
    | AtomicBuffers
    | ShaderImages
    | StreamoutTargets
    | Scissors
    | ColorBuffers
    | ResourcePlanes
    | VertexElements

  /** Words before the first element, the header included. */
  function Base(k: ListKind): nat {
    match k
    case VertexBuffers => 1
    case Viewports | AtomicBuffers | StreamoutTargets | Scissors | VertexElements => 2
    case SamplerViews | SamplerStates | ShaderBuffers | ShaderImages | ColorBuffers => 3
    case ResourcePlanes => 9
  }

  /** Words per element. */
  function Stride(k: ListKind): (r: nat)
    ensures r > 0
  {
    match k
    case Viewports => 6
    case ShaderImages => 5
    case VertexElements => 4
    case VertexBuffers | ShaderBuffers | AtomicBuffers => 3
    case Scissors | ResourcePlanes => 2
    case SamplerViews | SamplerStates | StreamoutTargets | ColorBuffers => 1
  }

  function MinLength(k: ListKind): nat {
    match k
    case VertexBuffers => 0
    case Viewports | StreamoutTargets | Scissors | VertexElements => 1
    case SamplerViews | SamplerStates | ShaderBuffers | AtomicBuffers | ShaderImages | ColorBuffers => 2
    case ResourcePlanes => 10
  }

  /** Kinds that refuse a length which leaves part of an element over. */
  predicate WholeOnly(k: ListKind) {
    k.Viewports? || k.VertexBuffers? || k.Scissors? || k.ResourcePlanes? || k.VertexElements?
  }

  function Limit(k: ListKind): Option<nat> {
    match k
    case Viewports | StreamoutTargets | Scissors => Some(16)
    case VertexBuffers | ShaderBuffers | AtomicBuffers | ShaderImages => Some(32)
    case SamplerViews => Some(128)
    case ColorBuffers => Some(8)
    case ResourcePlanes => Some(4)
    case SamplerStates | VertexElements => None
  }

  /** The word with the first slot, for the kinds that check it against the limit. */
  function SlotWord(k: ListKind): Option<nat> {
    match k
    case Viewports | AtomicBuffers => Some(1)
    case SamplerViews | ShaderBuffers | ShaderImages => Some(2)
    case _ => None
  }

  predicate Staged(k: ListKind) {
    k.SamplerViews? || k.SamplerStates? || k.ShaderBuffers? || k.ShaderImages?
  }

  /** Kinds that accept an empty list without looking at the slot. */
  predicate EmptyIsFine(k: ListKind) {
    k.ShaderBuffers? || k.AtomicBuffers? || k.ShaderImages?
  }

  function Count(k: ListKind, len: nat): nat {
    if len + 1 < Base(k) then 0 else (len + 1 - Base(k)) / Stride(k)
  }

  /** The word at which element `i` starts. */
  function Place(k: ListKind, i: nat): nat {
    Base(k) + i * Stride(k)
  }

  lemma NextPlace(k: ListKind, i: nat)
    ensures Place(k, i + 1) == Place(k, i) + Stride(k)
    ensures Base(k) <= Place(k, i)
  {
  }

  lemma FirstPlace(k: ListKind)
    ensures Place(k, 0) == Base(k)
  {
  }

  /** The whole elements of a packet lie inside it, and what is over is less than one element. */
  lemma CountFits(k: ListKind, len: nat, n: nat)
    requires len >= MinLength(k) && n <= Count(k, len)
    ensures Place(k, n) <= len + 1
    ensures n == Count(k, len) ==> len + 1 - Place(k, n) < Stride(k)
    ensures n == Count(k, len) && (len + 1 - Base(k)) % Stride(k) == 0 ==> Place(k, n) == len + 1
  {
    var m, d := len + 1 - Base(k), Stride(k);
    assert m == m / d * d + m % d;
    assert n * d <= m / d * d by {
      assert (m / d - n) * d >= 0;
      assert (m / d - n) * d == m / d * d - n * d;
    }
  }

  /** The checks on a list command, for all but the elements themselves. */
  predicate ListChecks(k: ListKind, words: seq<Word>, len: nat)
    requires len < |words|
  {
    && len >= MinLength(k)
    && (WholeOnly(k) ==> (len + 1 - Base(k)) % Stride(k) == 0)
    && (Staged(k) ==> words[1] as nat < SHADER_TYPES)
    && (k.ColorBuffers? ==> (2 + words[1] as nat) % U32 == len)
    && ((EmptyIsFine(k) && Count(k, len) == 0)
        || (Limit(k).Some? ==>
              && Count(k, len) <= Limit(k).value
              && (SlotWord(k).Some? ==> words[SlotWord(k).value] as nat <= Limit(k).value - Count(k, len))))
  }

  function Items(k: ListKind, words: seq<Word>, n: nat): (r: seq<seq<Word>>)
    requires Place(k, n) <= |words|
    ensures |r| == n
  {
    if n == 0 then []
    else
      NextPlace(k, n - 1);
      Items(k, words, n - 1) + [words[Place(k, n - 1)..Place(k, n)]]
  }

  ghost function Flatten(items: seq<seq<Word>>): seq<Word> {
    if items == [] then [] else Flatten(items[..|items| - 1]) + items[|items| - 1]
  }

  /** The elements are the packet's words, in order, each used exactly once. */
  lemma {:induction false} ItemsCover(k: ListKind, words: seq<Word>, n: nat)
    requires Place(k, n) <= |words|
    ensures Base(k) <= Place(k, n) && Flatten(Items(k, words, n)) == words[Base(k)..Place(k, n)]
  {
    FirstPlace(k);
    hide Place, Stride, Base;
    NextPlace(k, n);
    if n > 0 {
      NextPlace(k, n - 1);
      ItemsCover(k, words, n - 1);
      var all := Items(k, words, n);
      assert all[..n - 1] == Items(k, words, n - 1);
      assert words[Base(k)..Place(k, n - 1)] + words[Place(k, n - 1)..Place(k, n)] == words[Base(k)..Place(k, n)];
    }
  }

  predicate ItemsOk(k: ListKind, items: seq<seq<Word>>) {
    k.VertexElements? ==> forall i :: 0 <= i < |items| ==> |items[i]| == 4 && items[i][2] as nat < MAX_ATTRIBS
  }

  /** What a list command decodes to, or nothing when it is refused. */
  function DecodeList(k: ListKind, words: seq<Word>, len: nat): (r: Option<seq<seq<Word>>>)
    requires len < |words|
  {
    if !ListChecks(k, words, len) then None
    else
      CountFits(k, len, Count(k, len));
      var items := Items(k, words, Count(k, len));
      if ItemsOk(k, items) then Some(items) else None
  }

  /** The decoders' loop over the elements. */
  method ReadList(k: ListKind, words: seq<Word>, len: nat) returns (r: Option<seq<seq<Word>>>)
    requires len < |words|
    ensures r == DecodeList(k, words, len)
  {
    if !ListChecks(k, words, len) {
      return None;
    }
    var n := Count(k, len);
    CountFits(k, len, n);
    FirstPlace(k);
    var items: seq<seq<Word>> := [];
    hide Place, Stride, Base;
    var i := 0;
    while i < n
      invariant 0 <= i <= n && Place(k, i) <= |words| && items == Items(k, words, i) && ItemsOk(k, items)
    {
      PlacesUpTo(k, i + 1, n);
      NextPlace(k, i);
      var item := words[Place(k, i)..Place(k, i + 1)];
      if k.VertexElements? {
        StrideOfElements();
        if item[2] as nat >= MAX_ATTRIBS {
          RefusedItem(k, words, i, n);
          return None;
        }
      }
      items := items + [item];
      i := i + 1;
    }
    return Some(items);
  }

  lemma StrideOfElements()
    ensures Stride(VertexElements) == 4
  {
  }

  lemma {:induction false} PlacesUpTo(k: ListKind, i: nat, n: nat)
    requires i <= n
    ensures Place(k, i) <= Place(k, n)
    decreases n
  {
    if i < n {
      PlacesUpTo(k, i, n - 1);
      NextPlace(k, n - 1);
    }
  }

  lemma {:induction false} ItemAt(k: ListKind, words: seq<Word>, n: nat, i: nat)
    requires i < n && Place(k, n) <= |words|
    ensures Place(k, i) <= Place(k, i + 1) <= |words| && Items(k, words, n)[i] == words[Place(k, i)..Place(k, i + 1)]
    decreases n
  {
    NextPlace(k, n - 1);
    if i < n - 1 {
      ItemAt(k, words, n - 1, i);
    }
  }

  lemma RefusedItem(k: ListKind, words: seq<Word>, i: nat, n: nat)
    requires k.VertexElements? && i < n && Place(k, n) <= |words| && Place(k, i) <= Place(k, i + 1) <= |words|
    requires Place(k, i) + 2 < Place(k, i + 1) && words[Place(k, i)..Place(k, i + 1)][2] as nat >= MAX_ATTRIBS
    ensures !ItemsOk(k, Items(k, words, n))
  {
    ItemAt(k, words, n, i);
  }

  lemma WordBound(w: Word)
    ensures 0 <= w as int < U32
  {
  }

  lemma TwoMore(n: nat, len: nat)
    requires n < U32 && len >= 2 && (2 + n) % U32 == len
    ensures len == n + 2
  {
  }

  lemma ColorCount(words: seq<Word>, len: nat)
    requires len < |words| && len >= 2 && (2 + words[1] as nat) % U32 == len
    ensures words[1] as nat == Count(ColorBuffers, len)
  {
    WordBound(words[1]);
    TwoMore(words[1] as nat, len);
  }

  lemma PlaneCount(len: nat)
    requires len >= 10
    ensures Count(ResourcePlanes, len) > 0
  {
  }

  /** What the checks promise about the number of elements. */
  lemma ChecksBound(k: ListKind, words: seq<Word>, len: nat)
    requires len < |words| && ListChecks(k, words, len)
    ensures Limit(k).Some? ==> Count(k, len) <= Limit(k).value
    ensures SlotWord(k).Some? && Limit(k).Some? && Count(k, len) > 0 ==>
      words[SlotWord(k).value] as nat + Count(k, len) <= Limit(k).value
    ensures (k.ColorBuffers? ==> words[1] as nat == Count(k, len)) && (k.ResourcePlanes? ==> Count(k, len) > 0)
  {
    hide Count, Limit, SlotWord, Base, Stride;
    if k.ColorBuffers? {
      ColorCount(words, len);
    }
    if k.ResourcePlanes? {
      PlaneCount(len);
    }
  }

  /**
   * An accepted list has all whole elements of its packet, each once and in order, and no word of another packet; a
   * kind that insists on whole elements leaves no word over, and checked slots stay below the limit.
   */
  lemma ListExact(k: ListKind, words: seq<Word>, len: nat)
    requires len < |words| && DecodeList(k, words, len).Some?
    ensures var items := DecodeList(k, words, len).value;
      && |items| == Count(k, len) && Base(k) <= Place(k, |items|) <= len + 1
      && Flatten(items) == words[Base(k)..Place(k, |items|)]
      && len + 1 - Place(k, |items|) < Stride(k)
      && (WholeOnly(k) ==> Place(k, |items|) == len + 1)
      && (SlotWord(k).Some? && Limit(k).Some? && |items| > 0 ==>
            words[SlotWord(k).value] as nat + |items| <= Limit(k).value)
      && (Limit(k).Some? ==> |items| <= Limit(k).value)
      && (k.ColorBuffers? ==> words[1] as nat == |items|) && (k.ResourcePlanes? ==> |items| > 0)
  {
    hide Items, Place, Base, Stride, Limit, SlotWord, Count, Flatten;
    ChecksBound(k, words, len);
    CountFits(k, len, Count(k, len));
    ItemsCover(k, words, Count(k, len));
  }

  lemma {:induction false} ItemsLocal(k: ListKind, a: seq<Word>, b: seq<Word>, n: nat, size: nat)
    requires size <= |a| && size <= |b| && a[..size] == b[..size] && Place(k, n) <= size
    ensures Items(k, a, n) == Items(k, b, n)
  {
    hide Place;
    if n > 0 {
      NextPlace(k, n - 1);
      ItemsLocal(k, a, b, n - 1, size);
      var i, j := Place(k, n - 1), Place(k, n);
      assert a[i..j] == a[..size][i..j] && b[i..j] == b[..size][i..j];
    }
  }

  lemma ChecksLocal(k: ListKind, a: seq<Word>, b: seq<Word>, len: nat)
    requires len < |a| && len < |b| && a[..len + 1] == b[..len + 1]
    ensures ListChecks(k, a, len) == ListChecks(k, b, len)
  {
    hide Count;
    assert forall i :: 0 <= i <= len ==> a[i] == a[..len + 1][i] && b[i] == b[..len + 1][i];
  }

  lemma ListLocal(k: ListKind, a: seq<Word>, b: seq<Word>, len: nat)
    requires len < |a| && len < |b| && a[..len + 1] == b[..len + 1]
    ensures DecodeList(k, a, len) == DecodeList(k, b, len)
  {
    hide Count, Place, Items, ItemsOk, Limit, SlotWord, Base, Stride;
    ChecksLocal(k, a, b, len);
    if ListChecks(k, a, len) {
      CountFits(k, len, Count(k, len));
      ItemsLocal(k, a, b, Count(k, len), len + 1);
    }
  }

  /** The length that the protocol header gives a packet with `n` elements. */
  function PacketSize(k: ListKind, n: nat): nat {
    match k
    case Viewports => 6 * n + 1
    case VertexBuffers => n * 3
    case SamplerViews => n + 2
    case ShaderBuffers => 3 * n + 2
    case AtomicBuffers => 3 * n + 1
    case ShaderImages => 5 * n + 2
    case StreamoutTargets => n + 1
    case Scissors => 1 + 2 * n
    case SamplerStates => n + 2
    case ColorBuffers => n + 2
    case ResourcePlanes => 8 + n * 2
    case VertexElements => n * 4 + 1
  }

  /**
   * A packet of the protocol's size for `n` elements is read as `n` elements with no word over, and the kinds that
   * insist on whole elements accept no other length.
   */
  lemma ProtocolSizes(k: ListKind, n: nat, words: seq<Word>, len: nat)
    requires len < |words|
    ensures Count(k, PacketSize(k, n)) == n && Place(k, n) == PacketSize(k, n) + 1
    ensures WholeOnly(k) && DecodeList(k, words, len).Some? ==> len == PacketSize(k, |DecodeList(k, words, len).value|)
  {
    hide Count, Place, PacketSize, DecodeList, WholeOnly, Base, Stride, Limit, SlotWord, Flatten;
    SizeInverts(k, n);
    if WholeOnly(k) && DecodeList(k, words, len).Some? {
      ListExact(k, words, len);
      SizeInverts(k, |DecodeList(k, words, len).value|);
    }
  }

  lemma SizeInverts(k: ListKind, n: nat)
    ensures Count(k, PacketSize(k, n)) == n && Place(k, n) == PacketSize(k, n) + 1
  {
  }
}
