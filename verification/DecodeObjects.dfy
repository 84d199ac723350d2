/**
 * The decode table: what each command's decoder accepts, and which words of its packet it hands on to the renderer.
 *
 * What the renderer then does with a call is a parameter; it sees the words handed on and nothing else.
 */
module DecodeObjects {
  import opened Bags
  import opened Machine
  import opened Protocol
  import opened Decode
  import opened DecodeLists

  const SHADER_COMPUTE: nat := 5
  const MAX_SO_OUTPUTS: nat := 64
  const MAX_CONSTANT_BUFFERS: nat := 32

  datatype StreamOutput = StreamOutput(registerIndex: bv8, startComponent: bv2, numComponents: bv3, outputBuffer: bv3,
                                       dstOffset: bv16, stream: bv2, needTemp: bool)

  /** What shader creation passes on; `textOffset` is the word the text starts at, `remaining` the words left for it. */
  datatype Shader = Shader(strides: seq<Word>, outputs: seq<StreamOutput>, localMemory: Word, textOffset: nat,
                           offlen: Word, numTokens: Word, shaderType: Word, remaining: nat)

  datatype Object =
    | BlendObject(blend: Blend)
    | DsaObject(dsa: DepthStencilAlpha)
    | RasterizerObject(rasterizer: Rasterizer)
    | SamplerObject(sampler: Sampler)
    | ShaderObject(shader: Shader, text: seq<Word>)
    | VertexElementsObject(elements: seq<seq<Word>>)
    | OtherObject(kind: nat, fields: seq<Word>)

  /** A call into the renderer: the command and the words it is given. */
  datatype Call =
    | Created(handle: Word, made: Object)
    | Listed(kind: ListKind, head: seq<Word>, items: seq<seq<Word>>)
    | Passed(cmd: nat, header: Word, args: seq<Word>)
    | Data(cmd: nat, head: seq<Word>, data: seq<Word>, bytes: nat)

  // --- shaders -------------------------------------------------------------------------------

  /** Words of a shader packet before the text, in 32-bit arithmetic. */
  function ShaderHeaderSize(outputs: nat): nat {
    if outputs == 0 then 5 else (5 + (2 * outputs) % U32 + 4) % U32
  }

  function RegisterOf(words: seq<Word>, i: nat): bv8
    requires 10 + 2 * i < |words|
  {
    (words[10 + 2 * i] & 0xff) as bv8
  }

  /** An output needs a temporary when it has fewer than four components or its register was used before. */
  predicate NeedsTemp(words: seq<Word>, i: nat)
    requires 11 + 2 * i < |words|
  {
    || (((words[10 + 2 * i] >> 10) & 0x7) as bv3) < 4
    || exists j :: 0 <= j < i && RegisterOf(words, j) == RegisterOf(words, i)
  }

  function Output(words: seq<Word>, i: nat, needTemp: bool): StreamOutput
    requires 11 + 2 * i < |words|
  {
    var w := words[10 + 2 * i];
    StreamOutput(RegisterOf(words, i), ((w >> 8) & 0x3) as bv2, ((w >> 10) & 0x7) as bv3, ((w >> 13) & 0x7) as bv3,
                 ((w >> 16) & 0xffff) as bv16, (words[11 + 2 * i] & 0x3) as bv2, needTemp)
  }

  function Outputs(words: seq<Word>, n: nat): (r: seq<StreamOutput>)
    requires n > 0 ==> 9 + 2 * n < |words|
    ensures |r| == n && forall i :: 0 <= i < n ==> r[i] == Output(words, i, NeedsTemp(words, i))
  {
    if n == 0 then [] else Outputs(words, n - 1) + [Output(words, n - 1, NeedsTemp(words, n - 1))]
  }

  /** Reads the outputs, then marks every output whose register an earlier one uses. */
  method ReadOutputs(words: seq<Word>, n: nat) returns (outputs: seq<StreamOutput>)
    requires n > 0 && 9 + 2 * n < |words|
    ensures outputs == Outputs(words, n)
  {
    outputs := [];
    var i := 0;
    while i < n
      invariant 0 <= i <= n && |outputs| == i
      invariant forall k :: 0 <= k < i ==>
        outputs[k] == Output(words, k, (((words[10 + 2 * k] >> 10) & 0x7) as bv3) < 4)
    {
      var o := Output(words, i, false);
      outputs := outputs + [o.(needTemp := o.numComponents < 4)];
      i := i + 1;
    }
    i := 0;
    while i < n - 1
      invariant 0 <= i <= n - 1 && |outputs| == n
      invariant forall k :: 0 <= k < n ==> outputs[k] == Output(words, k, MarkedBelow(words, k, i))
    {
      var j := i + 1;
      while j < n
        invariant i + 1 <= j <= n && |outputs| == n
        invariant forall k :: 0 <= k < n ==>
          outputs[k] == Output(words, k, MarkedBelow(words, k, if i < k < j then i + 1 else i))
      {
        MarkedStep(words, j, i);
        outputs := outputs[j := outputs[j].(needTemp := outputs[j].needTemp
          || outputs[i].registerIndex == outputs[j].registerIndex)];
        j := j + 1;
      }
      MarkedSame(words, n, i);
      i := i + 1;
    }
    forall k | 0 <= k < n ensures MarkedBelow(words, k, n - 1) == NeedsTemp(words, k) {
    }
  }

  /** An output marked by its own component count or by one of the first `m` outputs before it. */
  ghost predicate MarkedBelow(words: seq<Word>, k: nat, m: nat)
    requires 11 + 2 * k < |words|
  {
    || (((words[10 + 2 * k] >> 10) & 0x7) as bv3) < 4
    || exists j :: 0 <= j < k && j < m && RegisterOf(words, j) == RegisterOf(words, k)
  }

  lemma MarkedStep(words: seq<Word>, k: nat, m: nat)
    requires 11 + 2 * k < |words| && m < k
    ensures MarkedBelow(words, k, m + 1) <==> MarkedBelow(words, k, m) || RegisterOf(words, m) == RegisterOf(words, k)
  {
  }

  lemma MarkedSame(words: seq<Word>, n: nat, m: nat)
    requires n > 0 && 9 + 2 * n < |words|
    ensures forall k :: 0 <= k < n && k <= m ==> MarkedBelow(words, k, m) == MarkedBelow(words, k, m + 1)
  {
  }

  lemma ShaderFits(n: nat, len: nat)
    requires n <= MAX_SO_OUTPUTS && len >= ShaderHeaderSize(n)
    ensures ShaderHeaderSize(n) == (if n > 0 then 9 + 2 * n else 5)
  {
  }

  /** The packet's own fields, given the number of outputs. */
  function ShaderOf(words: seq<Word>, len: nat, n: nat, localMemory: Word): Shader
    requires 5 < |words| && (n > 0 ==> 9 + 2 * n < |words|)
  {
    var textOffset := if n > 0 then 6 + 4 + 2 * n else 6;
    Shader(if n > 0 then words[6..10] else [0, 0, 0, 0], Outputs(words, n), localMemory, textOffset, words[3], words[4],
           words[2],
           (len + U32 - textOffset + 1) % U32)
  }

  function DecodeShader(words: seq<Word>, len: nat): (r: Option<Shader>)
    requires len < |words|
  {
    hide Outputs;
    if len < ShaderHeaderSize(0) then None
    else if words[2] as nat == SHADER_COMPUTE then Some(ShaderOf(words, len, 0, words[5]))
    else
      var n := words[5] as nat;
      if len < ShaderHeaderSize(n) then None
      else if n > MAX_SO_OUTPUTS then None
      else
        ShaderFits(n, len);
        Some(ShaderOf(words, len, n, 0))
  }

  /** The text starts inside the packet or just past its end. */
  lemma TextInside(words: seq<Word>, len: nat)
    requires len < |words| && DecodeShader(words, len).Some?
    ensures DecodeShader(words, len).value.textOffset <= len + 1
  {
    hide Outputs;
    if words[2] as nat != SHADER_COMPUTE {
      ShaderFits(words[5] as nat, len);
    }
  }

  /** The mark in terms of the decoded outputs alone. */
  lemma OutputMark(words: seq<Word>, n: nat, i: nat)
    requires n > 0 && 9 + 2 * n < |words| && i < n
    ensures var o := Outputs(words, n);
      o[i].needTemp <==> o[i].numComponents < 4 || exists j :: 0 <= j < i && o[j].registerIndex == o[i].registerIndex
  {
    var o := Outputs(words, n);
    assert forall j :: 0 <= j < n ==> o[j].registerIndex == RegisterOf(words, j);
    if exists j :: 0 <= j < i && RegisterOf(words, j) == RegisterOf(words, i) {
      var j :| 0 <= j < i && RegisterOf(words, j) == RegisterOf(words, i);
      assert o[j].registerIndex == o[i].registerIndex;
    }
  }

  /**
   * The count handed on with the shader text is exact and never negative: the text starts inside the packet or just
   * past its end, and the words from there to the packet's end are as many as counted.
   */
  lemma ShaderExact(words: seq<Word>, len: nat)
    requires len < |words| && len <= 0xffff && DecodeShader(words, len).Some?
    ensures var s := DecodeShader(words, len).value;
      && 6 <= s.textOffset <= len + 1 && s.remaining == len + 1 - s.textOffset
      && s.textOffset == (if |s.outputs| > 0 then 10 + 2 * |s.outputs| else 6) && |s.outputs| <= MAX_SO_OUTPUTS
      && forall i :: 0 <= i < |s.outputs| ==>
           (s.outputs[i].needTemp <==>
              || s.outputs[i].numComponents < 4
              || exists j :: 0 <= j < i && s.outputs[j].registerIndex == s.outputs[i].registerIndex)
  {
    var s := DecodeShader(words, len).value;
    var n := |s.outputs|;
    if n > 0 {
      ShaderFits(n, len);
      forall i | 0 <= i < n {
        OutputMark(words, n, i);
      }
    }
  }

  // --- objects -------------------------------------------------------------------------------

  function Targets(words: seq<Word>, n: nat): (r: seq<TargetBlend>)
    requires 4 + n <= |words|
    ensures |r| == n && forall i :: 0 <= i < n ==> r[i] == UnpackTarget(words[4 + i])
  {
    if n == 0 then [] else Targets(words, n - 1) + [UnpackTarget(words[4 + n - 1])]
  }

  datatype Decoded = Refused(ret: int) | Made(made: Object)

  /** Sizes of the objects whose fields are handed on as they are. */
  function OtherSize(kind: nat): Option<nat> {
    if kind == SAMPLER_VIEW then Some(6)
    else if kind == SURFACE then Some(5)
    else if kind == QUERY then Some(4)
    else if kind == STREAMOUT_TARGET then Some(4)
    else if kind == MSAA_SURFACE then Some(6)
    else None
  }

  /** Decodes the object of a create packet. */
  function DecodeObject(kind: nat, words: seq<Word>, len: nat, memory: bool): (r: Decoded)
    requires 1 <= len < |words|
  {
    if kind == BLEND then
      if len != BLEND_SIZE then Refused(EINVAL)
      else if !memory then Refused(ENOMEM)
      else Made(BlendObject(UnpackBlend(words[2], words[3], Targets(words, MAX_COLOR_BUFS))))
    else if kind == DSA then
      if len != DSA_SIZE then Refused(EINVAL)
      else if !memory then Refused(ENOMEM)
      else Made(DsaObject(UnpackDsa(words[2], words[3], words[4], words[5])))
    else if kind == RASTERIZER then
      if len != RASTERIZER_SIZE then Refused(EINVAL)
      else if !memory then Refused(ENOMEM)
      else Made(RasterizerObject(UnpackRasterizer(words[2], words[3], words[4], words[5], words[6], words[7], words[8],
                                                  words[9])))
    else if kind == SAMPLER_STATE then
      if len != SAMPLER_STATE_SIZE then Refused(EINVAL)
      else
        var s := UnpackSampler(words[2], words[3], words[4], words[5], words[6..10]);
        if s.minMipFilter == 3 then Refused(EINVAL) else Made(SamplerObject(s))
    else if kind == SHADER then
      var s := DecodeShader(words, len);
      if s.None? then Refused(EINVAL)
      else
        TextInside(words, len);
        Made(ShaderObject(s.value, words[s.value.textOffset..len + 1]))
    else if kind == VERTEX_ELEMENTS then
      if !ListChecks(VertexElements, words, len) then Refused(EINVAL)
      else if Count(VertexElements, len) > 0 && !memory then Refused(ENOMEM)
      else
        var items := DecodeList(VertexElements, words, len);
        if items.None? then Refused(EINVAL) else Made(VertexElementsObject(items.value))
    else if OtherSize(kind) == Some(len) then Made(OtherObject(kind, words[2..len + 1]))
    else Refused(EINVAL)
  }

  function ObjectKind(header: Word): (r: nat)
    ensures r <= 0xff
  {
    (((header >> 8) & 0xff) as bv8) as nat
  }

  // --- the decode table ----------------------------------------------------------------------

  /** What a decoder decides: an error, nothing to do, or a call. */
  datatype Action = Refuse(ret: int) | Skip | Do(call: Call)

  function CreateObject(words: seq<Word>, len: nat, memory: bool): (r: Action)
    requires len < |words|
  {
    if len < 1 then Refuse(EINVAL)
    else if words[1] == 0 then Refuse(EINVAL)
    else
      match DecodeObject(ObjectKind(words[0]), words, len, memory)
      case Refused(ret) => Refuse(ret)
      case Made(made) => Do(Created(words[1], made))
  }

  function ListKindOf(cmd: nat): Option<ListKind> {
    if cmd == SET_VIEWPORT_STATE then Some(Viewports)
    else if cmd == SET_FRAMEBUFFER_STATE then Some(ColorBuffers)
    else if cmd == SET_VERTEX_BUFFERS then Some(VertexBuffers)
    else if cmd == SET_SAMPLER_VIEWS then Some(SamplerViews)
    else if cmd == SET_SCISSOR_STATE then Some(Scissors)
    else if cmd == BIND_SAMPLER_STATES then Some(SamplerStates)
    else if cmd == SET_STREAMOUT_TARGETS then Some(StreamoutTargets)
    else if cmd == SET_SHADER_BUFFERS then Some(ShaderBuffers)
    else if cmd == SET_SHADER_IMAGES then Some(ShaderImages)
    else if cmd == SET_ATOMIC_BUFFERS then Some(AtomicBuffers)
    else if cmd == PIPE_RESOURCE_SET_TYPE then Some(ResourcePlanes)
    else None
  }

  function HeadOf(k: ListKind, words: seq<Word>, len: nat): seq<Word>
    requires len < |words|
  {
    if Base(k) <= len + 1 then words[1..Base(k)] else []
  }

  function SetList(k: ListKind, words: seq<Word>, len: nat): (r: Action)
    requires len < |words|
  {
    var items := DecodeList(k, words, len);
    if items.None? then Refuse(EINVAL)
    else if EmptyIsFine(k) && items.value == [] then Skip
    else Do(Listed(k, HeadOf(k, words, len), items.value))
  }

  /** The word at which the data of a data command starts. */
  function DataStart(cmd: nat): Option<nat> {
    if cmd == RESOURCE_INLINE_WRITE then Some(12)
    else if cmd == SET_CONSTANT_BUFFER then Some(3)
    else if cmd == SET_DEBUG_FLAGS then Some(1)
    else if cmd == SEND_STRING_MARKER then Some(2)
    else None
  }

  function SendData(cmd: nat, words: seq<Word>, len: nat, memory: bool): (r: Action)
    requires len < |words| && DataStart(cmd).Some?
  {
    var start := DataStart(cmd).value;
    if cmd == RESOURCE_INLINE_WRITE then
      if len < 12 then Refuse(EINVAL) else Do(Data(cmd, words[1..start], words[start..len + 1], (len - 11) * 4))
    else if cmd == SET_CONSTANT_BUFFER then
      if len < 2 || words[1] as nat >= SHADER_TYPES then Refuse(EINVAL)
      else Do(Data(cmd, words[1..start], words[start..len + 1], (len - 2) * 4))
    else if cmd == SET_DEBUG_FLAGS then
      if len < 2 then Refuse(EINVAL)
      else if !memory then Refuse(ENOMEM)
      else Do(Data(cmd, [], words[start..len + 1], len * 4))
    else
      if len < 2 || words[1] as nat > (len - 1) * 4 then Refuse(EINVAL)
      else Do(Data(cmd, words[1..start], words[start..len + 1], words[1] as nat))
  }

  function Exactly(len: nat, size: nat): Option<nat> {
    if len == size then Some(size) else None
  }

  function AtLeast(len: nat, size: nat): Option<nat> {
    if len >= size then Some(size) else None
  }

  /** How many words after the header every other decoder reads, if it accepts the length. */
  function ArgWords(cmd: nat, len: nat): (r: Option<nat>)
    ensures r.Some? ==> 1 <= r.value <= len
  {
    if cmd in {BIND_OBJECT, DESTROY_OBJECT, SET_STENCIL_REF, BEGIN_QUERY, END_QUERY, SET_SAMPLE_MASK, SET_SUB_CTX,
               CREATE_SUB_CTX, DESTROY_SUB_CTX, SET_MIN_SAMPLES, MEMORY_BARRIER, TEXTURE_BARRIER, GET_MEMORY_INFO}
    then Exactly(len, 1)
    else if cmd in {GET_QUERY_RESULT, BIND_SHADER, SET_FRAMEBUFFER_STATE_NO_ATTACH} then Exactly(len, 2)
    else if cmd == SET_RENDER_CONDITION then Exactly(len, 3)
    else if cmd == SET_BLEND_COLOR then Exactly(len, 4)
    else if cmd == SET_UNIFORM_BUFFER then Exactly(len, 5)
    else if cmd in {SET_TESS_STATE, GET_QUERY_RESULT_QBO, LINK_SHADER} then Exactly(len, 6)
    else if cmd in {CLEAR, LAUNCH_GRID} then Exactly(len, 8)
    else if cmd == PIPE_RESOURCE_CREATE then Exactly(len, 11)
    else if cmd == CLEAR_TEXTURE then Exactly(len, 12)
    else if cmd == RESOURCE_COPY_REGION then Exactly(len, 13)
    else if cmd == COPY_TRANSFER3D then Exactly(len, 14)
    else if cmd == BLIT then Exactly(len, 21)
    else if cmd in {SET_POLYGON_STIPPLE, SET_CLIP_STATE} then Exactly(len, 32)
    else if cmd == SET_INDEX_BUFFER then if len == 1 || len == 3 then Some(len) else None
    else if cmd == DRAW_VBO then if len == 12 || len == 14 || len == 20 then Some(len) else None
    else if cmd == TRANSFER3D then AtLeast(len, 13)
    else if cmd == SET_TWEAKS then AtLeast(len, 2)
    else if cmd in {DESTROY_VIDEO_CODEC, DESTROY_VIDEO_BUFFER} then AtLeast(len, 1)
    else if cmd in {BEGIN_FRAME, END_FRAME} then AtLeast(len, 2)
    else if cmd in {DECODE_BITSTREAM, ENCODE_BITSTREAM} then AtLeast(len, 5)
    else if cmd == CREATE_VIDEO_CODEC then if len >= 8 then Some(8) else Exactly(len, 7)
    else if cmd == CREATE_VIDEO_BUFFER then if len >= 7 then Some(7) else if len >= 5 then Some(len) else None
    else None
  }

  /** Checks on the words themselves. */
  predicate ArgsOk(cmd: nat, header: Word, args: seq<Word>) {
    && (cmd == BIND_OBJECT ==> ObjectKind(header) in {BLEND, RASTERIZER, DSA, VERTEX_ELEMENTS})
    && (cmd == SET_UNIFORM_BUFFER ==>
          |args| == 5 && args[0] as nat < SHADER_TYPES && args[1] as nat < MAX_CONSTANT_BUFFERS)
    && (cmd == TRANSFER3D ==> |args| == 13 && args[12] as nat in {1, 2})
  }

  function PassArgs(cmd: nat, words: seq<Word>, len: nat): (r: Action)
    requires len < |words|
  {
    var n := ArgWords(cmd, len);
    if n.None? || !ArgsOk(cmd, words[0], words[1..n.value + 1]) then Refuse(EINVAL)
    else Do(Passed(cmd, words[0], words[1..n.value + 1]))
  }

  /** The table entry of a command; `video` is the build option and `memory` whether allocation succeeds. */
  function Decide(video: bool, memory: bool, cmd: nat, words: seq<Word>, len: nat): (r: Action)
    requires len < |words|
  {
    if cmd >= CREATE_VIDEO_CODEC && !video then Refuse(EINVAL)
    else if cmd == NOP || cmd == END_TRANSFERS || cmd == DECODE_MACROBLOCK then Skip
    else if cmd == CREATE_OBJECT then CreateObject(words, len, memory)
    else if ListKindOf(cmd).Some? then SetList(ListKindOf(cmd).value, words, len)
    else if DataStart(cmd).Some? then SendData(cmd, words, len, memory)
    else PassArgs(cmd, words, len)
  }

  /**
   * The renderer: what a call does to the context and returns, whether an allocation would succeed in the context,
   * and what fetching the context's pending errors leaves and whether there were none.
   */
  datatype Renderer<!S> = Renderer(
    video: bool, memory: S -> bool, render: (S, Call) -> (S, int), check: S -> (S, bool))

  /** Whatever the decoder decided, pending errors are fetched after it. */
  function Act<S>(r: Renderer<S>, s: S, a: Action): Effect<S> {
    var (t, ret) :=
      match a
      case Refuse(ret) => (s, ret)
      case Skip => (s, 0)
      case Do(call) => r.render(s, call);
    var (u, clean) := r.check(t);
    Effect(u, ret, clean)
  }

  function Handle<S>(r: Renderer<S>, s: S, cmd: nat, words: seq<Word>, len: nat): Effect<S> {
    Act(r, s, if len >= |words| then Refuse(EINVAL) else Decide(r.video, r.memory(s), cmd, words, len))
  }

  function Table<S>(r: Renderer<S>, report: (S, Word) -> S): Decoders<S> {
    Decoders((s: S, cmd: nat, words: seq<Word>, len: nat) => Handle(r, s, cmd, words, len), report)
  }

  // --- what is handed on ---------------------------------------------------------------------

  /**
   * A data command hands on the words from its data's start to the end of its packet, and counts no byte past them:
   * exactly as many as they are, or for a string marker as many as its own length word says.
   */
  lemma DataExact(cmd: nat, words: seq<Word>, len: nat, memory: bool)
    requires len < |words| && DataStart(cmd).Some? && SendData(cmd, words, len, memory).Do?
    ensures var c, start := SendData(cmd, words, len, memory).call, DataStart(cmd).value;
      && c.Data? && start <= len + 1 && c.data == words[start..len + 1] && c.bytes <= 4 * |c.data|
      && (if cmd == SEND_STRING_MARKER then c.bytes == words[1] as nat else c.bytes == 4 * |c.data|)
  {
    if cmd == SEND_STRING_MARKER {
      hide DataStart;
      assert DataStart(SEND_STRING_MARKER) == Some(2);
    }
  }

  /** Every other command hands on a first part of its packet's words, and none past them. */
  lemma ArgsExact(cmd: nat, words: seq<Word>, len: nat)
    requires len < |words| && PassArgs(cmd, words, len).Do?
    ensures var c := PassArgs(cmd, words, len).call;
      c.Passed? && 1 <= |c.args| <= len && c.args == words[1..|c.args| + 1] && (|c.args| < len ==> cmd >= TRANSFER3D)
  {
  }

  // --- nothing past the packet ---------------------------------------------------------------

  lemma SameWords(a: seq<Word>, b: seq<Word>, len: nat)
    requires len < |a| && len < |b| && a[..len + 1] == b[..len + 1]
    ensures forall i :: 0 <= i <= len ==> a[i] == b[i]
    ensures forall i, j :: 0 <= i <= j <= len + 1 ==> a[i..j] == b[i..j]
  {
    assert forall i :: 0 <= i <= len ==> a[i] == a[..len + 1][i] && b[i] == b[..len + 1][i];
  }

  lemma {:induction false} OutputsLocal(a: seq<Word>, b: seq<Word>, n: nat)
    requires n > 0 ==> 9 + 2 * n < |a| && 9 + 2 * n < |b|
    requires n > 0 ==> forall i :: 0 <= i < 10 + 2 * n ==> a[i] == b[i]
    ensures Outputs(a, n) == Outputs(b, n)
  {
    if n > 0 {
      OutputsLocal(a, b, n - 1);
      assert forall j :: 0 <= j < n ==> RegisterOf(a, j) == RegisterOf(b, j);
      assert NeedsTemp(a, n - 1) == NeedsTemp(b, n - 1);
    }
  }

  lemma ShaderLocal(a: seq<Word>, b: seq<Word>, len: nat)
    requires len < |a| && len < |b| && a[..len + 1] == b[..len + 1]
    ensures DecodeShader(a, len) == DecodeShader(b, len)
  {
    hide Outputs;
    SameWords(a, b, len);
    if len >= 5 {
      var n := if a[2] as nat == SHADER_COMPUTE then 0 else a[5] as nat;
      if n <= MAX_SO_OUTPUTS && len >= ShaderHeaderSize(n) {
        ShaderFits(n, len);
        OutputsLocal(a, b, n);
      }
    }
  }

  lemma ObjectLocal(a: seq<Word>, b: seq<Word>, len: nat, memory: bool)
    requires len < |a| && len < |b| && a[..len + 1] == b[..len + 1]
    ensures CreateObject(a, len, memory) == CreateObject(b, len, memory)
  {
    hide DecodeShader, DecodeList, UnpackBlend, UnpackDsa, UnpackRasterizer, UnpackSampler, UnpackTarget, ListChecks;
    SameWords(a, b, len);
    ShaderLocal(a, b, len);
    ListLocal(VertexElements, a, b, len);
    ChecksLocal(VertexElements, a, b, len);
    if len == BLEND_SIZE {
      assert Targets(a, MAX_COLOR_BUFS) == Targets(b, MAX_COLOR_BUFS);
    }
  }

  lemma DataLocal(cmd: nat, a: seq<Word>, b: seq<Word>, len: nat, memory: bool)
    requires len < |a| && len < |b| && a[..len + 1] == b[..len + 1] && DataStart(cmd).Some?
    ensures SendData(cmd, a, len, memory) == SendData(cmd, b, len, memory)
  {
    SameWords(a, b, len);
  }

  lemma ArgsLocal(cmd: nat, a: seq<Word>, b: seq<Word>, len: nat)
    requires len < |a| && len < |b| && a[..len + 1] == b[..len + 1]
    ensures PassArgs(cmd, a, len) == PassArgs(cmd, b, len)
  {
    hide ArgsOk, ArgWords;
    SameWords(a, b, len);
  }

  lemma HeadLocal(k: ListKind, a: seq<Word>, b: seq<Word>, len: nat)
    requires len < |a| && len < |b| && a[..len + 1] == b[..len + 1]
    ensures SetList(k, a, len) == SetList(k, b, len)
  {
    hide DecodeList;
    SameWords(a, b, len);
    ListLocal(k, a, b, len);
  }

  /** Every decoder of the table depends only on the words of its own packet. */
  lemma DecideLocal(video: bool, memory: bool, cmd: nat, a: seq<Word>, b: seq<Word>, len: nat)
    requires len < |a| && len < |b| && a[..len + 1] == b[..len + 1]
    ensures Decide(video, memory, cmd, a, len) == Decide(video, memory, cmd, b, len)
  {
    hide CreateObject, SetList, SendData, PassArgs;
    ObjectLocal(a, b, len, memory);
    ArgsLocal(cmd, a, b, len);
    if ListKindOf(cmd).Some? {
      HeadLocal(ListKindOf(cmd).value, a, b, len);
    }
    if DataStart(cmd).Some? {
      DataLocal(cmd, a, b, len, memory);
    }
  }

  lemma HandleLocal<S>(r: Renderer<S>, s: S, cmd: nat, a: seq<Word>, b: seq<Word>, len: nat)
    requires len < |a| && len < |b| && a[..len + 1] == b[..len + 1]
    ensures Handle(r, s, cmd, a, len) == Handle(r, s, cmd, b, len)
  {
    hide Decide;
    DecideLocal(r.video, r.memory(s), cmd, a, b, len);
  }

  // --- printing and decoding -----------------------------------------------------------------

  /** An object whose packet is nothing but its packed fields. */
  predicate Printable(c: Call) {
    && c.Created?
    && match c.made
       case BlendObject(b) => |b.targets| == MAX_COLOR_BUFS
       case DsaObject(_) => true
       case RasterizerObject(_) => true
       case SamplerObject(s) => |s.borderColor| == 4
       case _ => false
  }

  /** The decoders refuse handle 0 and the unused mip filter. */
  predicate Rejected(c: Call)
    requires Printable(c)
  {
    c.handle == 0 || (c.made.SamplerObject? && c.made.sampler.minMipFilter == 3)
  }

  /** Objects that the decoder itself allocates. */
  predicate Allocates(c: Call)
    requires Printable(c)
  {
    !c.made.SamplerObject?
  }

  /** The create packet of an object. */
  function Print(c: Call): (r: seq<Word>)
    requires Printable(c)
    ensures |r| > 0
  {
    match c.made
    case BlendObject(b) =>
      [Header(CREATE_OBJECT, BLEND, BLEND_SIZE), c.handle, PackBlend0(b), b.logicopFunc as Word]
      + PackTargets(b.targets)
    case DsaObject(d) =>
      [Header(CREATE_OBJECT, DSA, DSA_SIZE), c.handle, PackDsa0(d), PackStencil(d.front), PackStencil(d.back),
       d.alphaRef]
    case RasterizerObject(r) =>
      [Header(CREATE_OBJECT, RASTERIZER, RASTERIZER_SIZE), c.handle, PackRaster0(r.flags), r.pointSize,
       r.spriteCoordEnable, PackRaster3(r), r.lineWidth, r.offsetUnits, r.offsetScale, r.offsetClamp]
    case SamplerObject(s) =>
      [Header(CREATE_OBJECT, SAMPLER_STATE, SAMPLER_STATE_SIZE), c.handle, PackSampler0(s), s.lodBias, s.minLod,
       s.maxLod]
      + s.borderColor
  }

  ghost predicate HeaderReads(w: Word, kind: nat, len: nat) {
    CommandOf(w) == CREATE_OBJECT && ObjectKind(w) == kind && LengthOf(w) == len
  }

  lemma HeadersRead()
    ensures HeaderReads(Header(CREATE_OBJECT, BLEND, BLEND_SIZE), BLEND, BLEND_SIZE)
    ensures HeaderReads(Header(CREATE_OBJECT, DSA, DSA_SIZE), DSA, DSA_SIZE)
    ensures HeaderReads(Header(CREATE_OBJECT, RASTERIZER, RASTERIZER_SIZE), RASTERIZER, RASTERIZER_SIZE)
    ensures HeaderReads(Header(CREATE_OBJECT, SAMPLER_STATE, SAMPLER_STATE_SIZE), SAMPLER_STATE, SAMPLER_STATE_SIZE)
  {
  }

  /** What the decoder of a printed object must find. */
  function Expected(call: Call, memory: bool): Decoded
    requires Printable(call)
  {
    if call.made.SamplerObject? && call.made.sampler.minMipFilter == 3 then Refused(EINVAL)
    else if Allocates(call) && !memory then Refused(ENOMEM)
    else Made(call.made)
  }

  /** A printed packet is as long as its header says, carries the handle, and decodes to its object. */
  ghost predicate PacketReads(call: Call, kind: nat, len: nat, header: Word, words: seq<Word>)
    requires Printable(call)
  {
    && 1 <= len < |words| && |Print(call)| == len + 1
    && words[0] == header && words[1] == call.handle
    && (forall memory :: DecodeObject(kind, words, len, memory) == Expected(call, memory))
  }

  lemma BlendReads(call: Call, rest: seq<Word>)
    requires Printable(call) && call.made.BlendObject?
    ensures PacketReads(call, BLEND, BLEND_SIZE, Header(CREATE_OBJECT, BLEND, BLEND_SIZE), Print(call) + rest)
  {
    hide Header, PackTarget, UnpackTarget, PackBlend0, UnpackBlend;
    var words := Print(call) + rest;
    var b := call.made.blend;
    BlendRoundTrip(b);
    forall i | 0 <= i < 8 ensures Targets(words, 8)[i] == b.targets[i] {
      TargetRoundTrip(b.targets[i]);
      assert words[4 + i] == PackTargets(b.targets)[i];
    }
    hide Targets;
    assert Targets(words, 8) == b.targets;
  }

  lemma DsaReads(call: Call, rest: seq<Word>)
    requires Printable(call) && call.made.DsaObject?
    ensures PacketReads(call, DSA, DSA_SIZE, Header(CREATE_OBJECT, DSA, DSA_SIZE), Print(call) + rest)
  {
    hide Header, PackDsa0, PackStencil, UnpackDsa;
    DsaRoundTrip(call.made.dsa);
  }

  lemma RasterizerReads(call: Call, rest: seq<Word>)
    requires Printable(call) && call.made.RasterizerObject?
    ensures PacketReads(call, RASTERIZER, RASTERIZER_SIZE, Header(CREATE_OBJECT, RASTERIZER, RASTERIZER_SIZE),
                        Print(call) + rest)
  {
    hide Header, PackRaster0, PackRaster3, UnpackRasterizer;
    RasterizerRoundTrip(call.made.rasterizer);
  }

  lemma SamplerReads(call: Call, rest: seq<Word>)
    requires Printable(call) && call.made.SamplerObject?
    ensures PacketReads(call, SAMPLER_STATE, SAMPLER_STATE_SIZE,
                        Header(CREATE_OBJECT, SAMPLER_STATE, SAMPLER_STATE_SIZE), Print(call) + rest)
  {
    hide Header, PackSampler0, UnpackSampler;
    SamplerRoundTrip(call.made.sampler);
    assert (Print(call) + rest)[6..10] == call.made.sampler.borderColor;
  }

  /** What the table does with the packet of an object: refuse it, or hand the object on. */
  function Expect(call: Call, memory: bool): Action
    requires Printable(call)
  {
    if Rejected(call) then Refuse(EINVAL)
    else if Allocates(call) && !memory then Refuse(ENOMEM)
    else Do(call)
  }

  /** Decoding a printed packet, whatever follows it, hands on the very object it was printed from, or refuses it. */
  lemma PrintedDecodes(video: bool, memory: bool, call: Call, rest: seq<Word>)
    requires Printable(call)
    ensures var p := Print(call); var words := p + rest;
      && CommandOf(words[0]) == CREATE_OBJECT && LengthOf(words[0]) + 1 == |p|
      && Decide(video, memory, CREATE_OBJECT, words, LengthOf(words[0])) == Expect(call, memory)
  {
    hide Print, DecodeObject, Header, LengthOf, CommandOf, ObjectKind;
    HeadersRead();
    match call.made
    case BlendObject(_) => BlendReads(call, rest);
    case DsaObject(_) => DsaReads(call, rest);
    case RasterizerObject(_) => RasterizerReads(call, rest);
    case SamplerObject(_) => SamplerReads(call, rest);
  }

  function PrintAll(calls: seq<Call>): (r: seq<Word>)
    requires forall i :: 0 <= i < |calls| ==> Printable(calls[i])
  {
    if calls == [] then [] else Print(calls[0]) + PrintAll(calls[1..])
  }

  /** The objects handed to the renderer one by one, up to the first that is refused or fails. */
  ghost function Perform<S>(r: Renderer<S>, report: (S, Word) -> S, s: S, calls: seq<Call>): (S, int, nat)
    requires forall i :: 0 <= i < |calls| ==> Printable(calls[i])
    decreases |calls|
  {
    if calls == [] then (s, 0, 0)
    else
      var e := Act(r, s, Expect(calls[0], r.memory(s)));
      if Code(e) != 0 then (Reported(Table(r, report), e, Print(calls[0])[0]), Code(e), 1)
      else
        var (t, ret, n) := Perform(r, report, e.state, calls[1..]);
        (t, ret, n + 1)
  }

  lemma {:induction false} PrintedRun<S(!new)>(r: Renderer<S>, report: (S, Word) -> S, s: S, calls: seq<Call>,
                                               before: seq<Word>)
    requires forall i :: 0 <= i < |calls| ==> Printable(calls[i])
    ensures var o := Run(Table(r, report), s, before + PrintAll(calls), |before|);
      (o.state, o.ret, |o.trace|) == Perform(r, report, s, calls)
    decreases |calls|
  {
    hide Run, Print, LengthOf, CommandOf, Decide, Printable, Expect;
    var buf := before + PrintAll(calls);
    var d := Table(r, report);
    if calls == [] {
      RunStops(d, s, buf, |before|);
    } else {
      var p, rest := Print(calls[0]), PrintAll(calls[1..]);
      assert buf[|before|..] == p + rest;
      PrintedDecodes(r.video, r.memory(s), calls[0], rest);
      RunTurn(d, s, buf, |before|);
      var e := Act(r, s, Expect(calls[0], r.memory(s)));
      if Code(e) == 0 {
        PrintedRun(r, report, e.state, calls[1..], before + p);
        assert before + p + rest == buf;
      }
    }
  }

  /**
   * Running the printed packets of any list of blend, depth-stencil-alpha, rasterizer and sampler objects through the
   * loop hands the renderer the same objects with the same handles, in the same order, up to the first that is
   * refused or that the renderer fails on.
   */
  lemma PrintDecodeRoundTrip<S(!new)>(r: Renderer<S>, report: (S, Word) -> S, s: S, calls: seq<Call>)
    requires forall i :: 0 <= i < |calls| ==> Printable(calls[i])
    ensures var o := Run(Table(r, report), s, PrintAll(calls), 0);
      (o.state, o.ret, |o.trace|) == Perform(r, report, s, calls)
  {
    PrintedRun(r, report, s, calls, []);
    assert [] + PrintAll(calls) == PrintAll(calls);
  }

  /** Recording no error report. */
  function Unreported(s: seq<Call>, w: Word): seq<Call> {
    s
  }

  /** A renderer that records every call and never fails. */
  function Recorder(video: bool): Renderer<seq<Call>> {
    Renderer(video, (s: seq<Call>) => true, (s: seq<Call>, call: Call) => (s + [call], 0), (s: seq<Call>) => (s, true))
  }

  /** The first object that is refused, or their number. */
  ghost function FirstRejected(calls: seq<Call>): (n: nat)
    requires forall i :: 0 <= i < |calls| ==> Printable(calls[i])
    ensures n <= |calls| && (n < |calls| ==> Rejected(calls[n]))
    ensures forall i :: 0 <= i < n ==> !Rejected(calls[i])
  {
    if calls == [] || Rejected(calls[0]) then 0 else FirstRejected(calls[1..]) + 1
  }

  lemma {:induction false} Recorded(video: bool, s: seq<Call>, calls: seq<Call>)
    requires forall i :: 0 <= i < |calls| ==> Printable(calls[i])
    ensures var (t, ret, n) := Perform(Recorder(video), Unreported, s, calls);
      var k := FirstRejected(calls);
      t == s + calls[..k] && (ret == 0 <==> k == |calls|) && (k < |calls| ==> ret == EINVAL && n == k + 1)
    decreases |calls|
  {
    hide Print, Printable;
    if calls != [] && !Rejected(calls[0]) {
      Recorded(video, s + [calls[0]], calls[1..]);
      var k := FirstRejected(calls);
      assert s + [calls[0]] + calls[1..][..k - 1] == s + calls[..k];
    }
  }

  /**
   * With a renderer that never fails, the run succeeds iff no object has handle 0 or the unused mip filter, and then
   * recreates the whole list; otherwise it stops with EINVAL at the first such packet, after all before it.
   */
  lemma RoundTripIff(video: bool, s: seq<Call>, calls: seq<Call>)
    requires forall i :: 0 <= i < |calls| ==> Printable(calls[i])
    ensures var o := Run(Table(Recorder(video), Unreported), s, PrintAll(calls), 0);
      && (o.ret == 0 <==> forall i :: 0 <= i < |calls| ==> !Rejected(calls[i]))
      && (o.ret == 0 ==> o.state == s + calls)
      && (o.ret != 0 ==>
            var k := FirstRejected(calls); o.ret == EINVAL && o.state == s + calls[..k] && |o.trace| == k + 1)
  {
    hide Run, Perform, Recorder, PrintAll, Printable, Table;
    PrintDecodeRoundTrip(Recorder(video), Unreported, s, calls);
    Recorded(video, s, calls);
  }
}
