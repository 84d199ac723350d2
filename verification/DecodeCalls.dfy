/**
 * What the renderer is handed, against the packet it comes from: no word is lost, moved or made up, and a shader's
 * packet, which is unpacked field by field, can be printed and decoded again.
 */
module DecodeCalls {
  import opened Bags
  import opened Machine
  import opened Protocol
  import opened Decode
  import opened DecodeLists
  import opened DecodeObjects

  // --- calls that carry their words as they are ----------------------------------------------

  /** The calls whose words are handed on unpacked. */
  predicate Plain(c: Call) {
    !c.Created? || c.made.OtherObject? || c.made.VertexElementsObject?
  }

  ghost function Payload(c: Call): seq<Word>
    requires Plain(c)
  {
    match c
    case Listed(_, head, items) => head + Flatten(items)
    case Passed(_, _, args) => args
    case Data(_, head, data, _) => head + data
    case Created(handle, made) =>
      [handle] + (if made.OtherObject? then made.fields else Flatten(made.elements))
  }

  lemma ListPayload(k: ListKind, words: seq<Word>, len: nat)
    requires len < |words| && DecodeList(k, words, len).Some?
    ensures var items := DecodeList(k, words, len).value;
      && 1 <= Base(k) <= Place(k, |items|) <= len + 1
      && words[1..Base(k)] + Flatten(items) == words[1..Place(k, |items|)]
  {
    hide DecodeList, Place, Flatten, Stride, Limit, SlotWord, WholeOnly, Count;
    ListExact(k, words, len);
    var p := Place(k, |DecodeList(k, words, len).value|);
    assert words[1..Base(k)] + words[Base(k)..p] == words[1..p];
  }

  lemma ListCarries(k: ListKind, words: seq<Word>, len: nat)
    requires len < |words| && SetList(k, words, len).Do?
    ensures var c := SetList(k, words, len).call;
      c.Listed? && c.kind == k && |c.head| == Base(k) - 1 && Payload(c) <= words[1..len + 1]
  {
    hide DecodeList, Flatten, Place;
    ListPayload(k, words, len);
    var p := Place(k, |DecodeList(k, words, len).value|);
    assert words[1..p] == words[1..len + 1][..p - 1];
  }

  lemma DataCarries(cmd: nat, words: seq<Word>, len: nat, memory: bool)
    requires len < |words| && DataStart(cmd).Some? && SendData(cmd, words, len, memory).Do?
    ensures var c := SendData(cmd, words, len, memory).call;
      c.Data? && c.cmd == cmd && Payload(c) == words[1..len + 1]
  {
    DataExact(cmd, words, len, memory);
    var c, start := SendData(cmd, words, len, memory).call, DataStart(cmd).value;
    assert c.head == words[1..start] by {
      assert words[1..1] == [];
    }
    assert words[1..start] + words[start..len + 1] == words[1..len + 1];
  }

  lemma ObjectCarries(words: seq<Word>, len: nat, memory: bool)
    requires len < |words| && CreateObject(words, len, memory).Do? && Plain(CreateObject(words, len, memory).call)
    ensures var c := CreateObject(words, len, memory).call;
      c.Created? && c.handle == words[1] && Payload(c) <= words[1..len + 1]
  {
    hide DecodeShader, DecodeList, UnpackBlend, UnpackDsa, UnpackRasterizer, UnpackSampler, UnpackTarget, ListChecks;
    hide Flatten, Place;
    var c := CreateObject(words, len, memory).call;
    if c.made.OtherObject? {
      assert [words[1]] + words[2..len + 1] == words[1..len + 1];
    } else {
      ListPayload(VertexElements, words, len);
      var p := Place(VertexElements, |c.made.elements|);
      assert words[1..2] == [words[1]];
      assert words[1..p] == words[1..len + 1][..p - 1];
    }
  }

  /** Whatever a decoder hands on unpacked is, in order, the packet's own words from the first after the header. */
  lemma CarriesPacket(video: bool, memory: bool, cmd: nat, words: seq<Word>, len: nat)
    requires len < |words| && Decide(video, memory, cmd, words, len).Do?
    requires Plain(Decide(video, memory, cmd, words, len).call)
    ensures var c := Decide(video, memory, cmd, words, len).call;
      && Payload(c) <= words[1..len + 1]
      && (c.Listed? ==> ListKindOf(cmd) == Some(c.kind) && |c.head| == Base(c.kind) - 1)
      && (c.Passed? ==> c.cmd == cmd && c.header == words[0])
      && (c.Data? ==> c.cmd == cmd && Payload(c) == words[1..len + 1])
      && (c.Created? ==> cmd == CREATE_OBJECT && c.handle == words[1])
  {
    hide CreateObject, SetList, SendData, PassArgs, Payload;
    if cmd == CREATE_OBJECT {
      ObjectCarries(words, len, memory);
    } else if ListKindOf(cmd).Some? {
      ListCarries(ListKindOf(cmd).value, words, len);
    } else if DataStart(cmd).Some? {
      DataCarries(cmd, words, len, memory);
    } else {
      ArgsCarry(cmd, words, len);
    }
  }

  lemma ArgsCarry(cmd: nat, words: seq<Word>, len: nat)
    requires len < |words| && PassArgs(cmd, words, len).Do?
    ensures var c := PassArgs(cmd, words, len).call;
      c.Passed? && c.cmd == cmd && c.header == words[0] && Payload(c) <= words[1..len + 1]
  {
    hide ArgsOk, ArgWords;
    ArgsExact(cmd, words, len);
    var c := PassArgs(cmd, words, len).call;
    assert words[1..|c.args| + 1] == words[1..len + 1][..|c.args|];
  }

  // --- shaders -------------------------------------------------------------------------------

  function PackOutput(o: StreamOutput): Word {
    (o.registerIndex as Word) | ((o.startComponent as Word) << 8) | ((o.numComponents as Word) << 10)
    | ((o.outputBuffer as Word) << 13) | ((o.dstOffset as Word) << 16)
  }

  /** Every field of a stream output survives packing. */
  lemma OutputRoundTrip(o: StreamOutput)
    ensures var w := PackOutput(o);
      && (w & 0xff) as bv8 == o.registerIndex && ((w >> 8) & 0x3) as bv2 == o.startComponent
      && ((w >> 10) & 0x7) as bv3 == o.numComponents && ((w >> 13) & 0x7) as bv3 == o.outputBuffer
      && ((w >> 16) & 0xffff) as bv16 == o.dstOffset && ((o.stream as Word) & 0x3) as bv2 == o.stream
  {
  }

  function PackOutputs(os: seq<StreamOutput>): (r: seq<Word>)
    ensures |r| == 2 * |os|
  {
    if os == [] then []
    else
      var n := |os| - 1;
      PackOutputs(os[..n]) + [PackOutput(os[n]), os[n].stream as Word]
  }

  predicate IsCompute(s: Shader) {
    s.shaderType as nat == SHADER_COMPUTE
  }

  /** A shader as a client may describe it: the fields that follow from others are what they must be. */
  ghost predicate PrintableShader(s: Shader, text: seq<Word>) {
    var n := |s.outputs|;
    && n <= MAX_SO_OUTPUTS && |s.strides| == 4 && (n == 0 ==> s.strides == [0, 0, 0, 0])
    && (if IsCompute(s) then n == 0 else s.localMemory == 0)
    && s.textOffset == (if n > 0 then 10 + 2 * n else 6) && s.remaining == |text| && s.textOffset + |text| <= 0x1_0000
    && forall i :: 0 <= i < n ==>
         (s.outputs[i].needTemp <==>
            || s.outputs[i].numComponents < 4
            || exists j :: 0 <= j < i && s.outputs[j].registerIndex == s.outputs[i].registerIndex)
  }

  ghost function ShaderLength(s: Shader, text: seq<Word>): nat {
    (if |s.outputs| > 0 then 9 + 2 * |s.outputs| else 5) + |text|
  }

  /** The word that holds the number of outputs, or the local memory of a compute shader. */
  ghost predicate CountWord(s: Shader, w: Word) {
    if IsCompute(s) then w == s.localMemory else w as nat == |s.outputs|
  }

  /** The create packet of a shader, under a header that gives its kind and length. */
  ghost function PrintShader(header: Word, handle: Word, count: Word, s: Shader, text: seq<Word>): seq<Word> {
    [header, handle, s.shaderType, s.offlen, s.numTokens, count]
    + (if |s.outputs| > 0 then s.strides + PackOutputs(s.outputs) else [])
    + text
  }

  /** The first words, the strides and the outputs, by position. */
  ghost predicate Shape(w: seq<Word>, a: seq<Word>, s: Shader) {
    && |a| == 6 <= |w| && w[..6] == a
    && (|s.outputs| > 0 ==>
          && 10 + 2 * |s.outputs| <= |w| && w[6..10] == s.strides
          && w[10..10 + 2 * |s.outputs|] == PackOutputs(s.outputs))
  }

  /** The parts of a packet. */
  lemma Parts(a: seq<Word>, b: seq<Word>, c: seq<Word>, d: seq<Word>)
    requires |a| == 6 && |b| == 4
    ensures var w := a + (b + c) + d; w[..6] == a && w[6..10] == b && w[10..10 + |c|] == c && w[10 + |c|..] == d
  {
  }

  lemma PrintedShape(header: Word, handle: Word, count: Word, s: Shader, text: seq<Word>, rest: seq<Word>)
    requires PrintableShader(s, text)
    ensures var p := PrintShader(header, handle, count, s, text);
      && |p| == ShaderLength(s, text) + 1 && (p + rest)[s.textOffset..ShaderLength(s, text) + 1] == text
      && Shape(p + rest, [header, handle, s.shaderType, s.offlen, s.numTokens, count], s)
  {
    hide PackOutputs, IsCompute;
    var a := [header, handle, s.shaderType, s.offlen, s.numTokens, count];
    var w := PrintShader(header, handle, count, s, text) + rest;
    if |s.outputs| > 0 {
      var c := PackOutputs(s.outputs);
      Parts(a, s.strides, c, text + rest);
      assert w == a + (s.strides + c) + (text + rest);
      assert w[10 + |c|..][..|text|] == text;
    } else {
      assert w == a + (text + rest);
    }
  }

  lemma OneOutput(words: seq<Word>, os: seq<StreamOutput>, i: nat)
    requires i < |os| && 9 + 2 * |os| < |words| && words[10..10 + 2 * |os|] == PackOutputs(os)
    ensures Output(words, i, os[i].needTemp) == os[i]
  {
    hide PackOutputs, PackOutput;
    OutputRoundTrip(os[i]);
    OutputWords(words, os, i);
  }

  lemma OutputWords(words: seq<Word>, os: seq<StreamOutput>, i: nat)
    requires i < |os| && 9 + 2 * |os| < |words| && words[10..10 + 2 * |os|] == PackOutputs(os)
    ensures words[10 + 2 * i] == PackOutput(os[i]) && words[11 + 2 * i] == os[i].stream as Word
  {
    hide PackOutput, PackOutputs;
    PackedAt(os, i);
    WordAt(words, 10, PackOutputs(os), 2 * i);
    WordAt(words, 10, PackOutputs(os), 2 * i + 1);
  }

  lemma WordAt(words: seq<Word>, lo: nat, p: seq<Word>, k: nat)
    requires lo + |p| <= |words| && words[lo..lo + |p|] == p && k < |p|
    ensures words[lo + k] == p[k]
  {
  }

  lemma {:induction false} PackedAt(os: seq<StreamOutput>, i: nat)
    requires i < |os|
    ensures PackOutputs(os)[2 * i] == PackOutput(os[i]) && PackOutputs(os)[2 * i + 1] == os[i].stream as Word
    decreases |os|
  {
    hide PackOutput;
    if i < |os| - 1 {
      PackedAt(os[..|os| - 1], i);
    }
  }

  lemma PrintedOutputs(words: seq<Word>, os: seq<StreamOutput>)
    requires |os| > 0 && 9 + 2 * |os| < |words| && words[10..10 + 2 * |os|] == PackOutputs(os)
    requires forall i :: 0 <= i < |os| ==>
      (os[i].needTemp <==>
         os[i].numComponents < 4 || exists j :: 0 <= j < i && os[j].registerIndex == os[i].registerIndex)
    ensures Outputs(words, |os|) == os
  {
    var got := Outputs(words, |os|);
    forall i | 0 <= i < |os|
      ensures got[i] == os[i].(needTemp := got[i].needTemp)
      ensures got[i].needTemp <==>
        got[i].numComponents < 4 || exists j :: 0 <= j < i && got[j].registerIndex == got[i].registerIndex
    {
      OneOutput(words, os, i);
      OutputMark(words, |os|, i);
    }
    SameMarks(got, os);
  }

  /** Outputs that agree but for their marks agree in these too, as both follow from the rest. */
  lemma SameMarks(a: seq<StreamOutput>, b: seq<StreamOutput>)
    requires |a| == |b| && forall i :: 0 <= i < |a| ==> a[i] == b[i].(needTemp := a[i].needTemp)
    requires forall i :: 0 <= i < |a| ==> (a[i].needTemp <==>
      a[i].numComponents < 4 || exists j :: 0 <= j < i && a[j].registerIndex == a[i].registerIndex)
    requires forall i :: 0 <= i < |b| ==> (b[i].needTemp <==>
      b[i].numComponents < 4 || exists j :: 0 <= j < i && b[j].registerIndex == b[i].registerIndex)
    ensures a == b
  {
    forall i | 0 <= i < |a| ensures a[i] == b[i] {
      assert forall j :: 0 <= j < |a| ==> a[j].registerIndex == b[j].registerIndex;
    }
  }

  lemma NoOutputs(words: seq<Word>)
    ensures Outputs(words, 0) == []
  {
  }

  /** The fields taken from a packet of that shape. */
  lemma ShapeReads(w: seq<Word>, a: seq<Word>, s: Shader, text: seq<Word>)
    requires PrintableShader(s, text) && |w| > ShaderLength(s, text) && Shape(w, a, s)
    requires a[2] == s.shaderType && a[3] == s.offlen && a[4] == s.numTokens
    ensures ShaderOf(w, ShaderLength(s, text), |s.outputs|, s.localMemory) == s
  {
    hide Outputs, PackOutputs, IsCompute;
    assert w[2] == w[..6][2] && w[3] == w[..6][3] && w[4] == w[..6][4];
    if |s.outputs| > 0 {
      PrintedOutputs(w, s.outputs);
    } else {
      NoOutputs(w);
    }
  }

  /** Any shader, with any stream outputs and text, is what its printed packet decodes to, whatever follows it. */
  lemma ShaderRoundTrip(header: Word, handle: Word, count: Word, s: Shader, text: seq<Word>, rest: seq<Word>)
    requires PrintableShader(s, text) && CountWord(s, count)
    ensures var words := PrintShader(header, handle, count, s, text) + rest;
      && |words| > ShaderLength(s, text) && DecodeShader(words, ShaderLength(s, text)) == Some(s)
      && words[s.textOffset..ShaderLength(s, text) + 1] == text
  {
    hide PrintShader, Outputs, PackOutputs, ShaderOf;
    var words, len := PrintShader(header, handle, count, s, text) + rest, ShaderLength(s, text);
    var a := [header, handle, s.shaderType, s.offlen, s.numTokens, count];
    PrintedShape(header, handle, count, s, text, rest);
    ShapeReads(words, a, s, text);
    assert words[2] == words[..6][2] && words[5] == words[..6][5];
    ShaderFits(|s.outputs|, len);
  }

  /** The whole create packet, under any header that gives its kind and length. */
  lemma ShaderPacketDecodes(video: bool, memory: bool, header: Word, handle: Word, count: Word, s: Shader,
                            text: seq<Word>, rest: seq<Word>)
    requires PrintableShader(s, text) && CountWord(s, count) && HeaderReads(header, SHADER, ShaderLength(s, text))
    ensures var p := PrintShader(header, handle, count, s, text);
      var words := p + rest;
      && |p| > 0 && LengthOf(words[0]) + 1 == |p| && CommandOf(words[0]) == CREATE_OBJECT
      && Decide(video, memory, CREATE_OBJECT, words, LengthOf(words[0])) ==
           if handle == 0 then Refuse(EINVAL) else Do(Created(handle, ShaderObject(s, text)))
  {
    hide PrintShader, DecodeShader, ObjectKind, LengthOf, CommandOf, PrintableShader, CountWord, PackOutputs;
    PrintedShape(header, handle, count, s, text, rest);
    ShaderRoundTrip(header, handle, count, s, text, rest);
    var words := PrintShader(header, handle, count, s, text) + rest;
    assert words[0] == words[..6][0] && words[1] == words[..6][1];
  }
}
