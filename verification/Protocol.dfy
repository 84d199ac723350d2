/**
 * The command stream's packet formats: state objects packed into 32-bit words the way the protocol header defines.
 *
 * Every field has the width of its bit field, so any value of these datatypes is one the protocol can carry.
 * Floating-point fields are kept as their 32-bit patterns.
 */
module Protocol {
  type Word = bv32

  const MAX_COMMANDS: nat := 62

  // commands
  const NOP: nat := 0
  const CREATE_OBJECT: nat := 1
  const BIND_OBJECT: nat := 2
  const DESTROY_OBJECT: nat := 3
  const SET_VIEWPORT_STATE: nat := 4
  const SET_FRAMEBUFFER_STATE: nat := 5
  const SET_VERTEX_BUFFERS: nat := 6
  const CLEAR: nat := 7
  const DRAW_VBO: nat := 8
  const RESOURCE_INLINE_WRITE: nat := 9
  const SET_SAMPLER_VIEWS: nat := 10
  const SET_INDEX_BUFFER: nat := 11
  const SET_CONSTANT_BUFFER: nat := 12
  const SET_STENCIL_REF: nat := 13
  const SET_BLEND_COLOR: nat := 14
  const SET_SCISSOR_STATE: nat := 15
  const BLIT: nat := 16
  const RESOURCE_COPY_REGION: nat := 17
  const BIND_SAMPLER_STATES: nat := 18
  const BEGIN_QUERY: nat := 19
  const END_QUERY: nat := 20
  const GET_QUERY_RESULT: nat := 21
  const SET_POLYGON_STIPPLE: nat := 22
  const SET_CLIP_STATE: nat := 23
  const SET_SAMPLE_MASK: nat := 24
  const SET_STREAMOUT_TARGETS: nat := 25
  const SET_RENDER_CONDITION: nat := 26
  const SET_UNIFORM_BUFFER: nat := 27
  const SET_SUB_CTX: nat := 28
  const CREATE_SUB_CTX: nat := 29
  const DESTROY_SUB_CTX: nat := 30
  const BIND_SHADER: nat := 31
  const SET_TESS_STATE: nat := 32
  const SET_MIN_SAMPLES: nat := 33
  const SET_SHADER_BUFFERS: nat := 34
  const SET_SHADER_IMAGES: nat := 35
  const MEMORY_BARRIER: nat := 36
  const LAUNCH_GRID: nat := 37
  const SET_FRAMEBUFFER_STATE_NO_ATTACH: nat := 38
  const TEXTURE_BARRIER: nat := 39
  const SET_ATOMIC_BUFFERS: nat := 40
  const SET_DEBUG_FLAGS: nat := 41
  const GET_QUERY_RESULT_QBO: nat := 42
  const TRANSFER3D: nat := 43
  const END_TRANSFERS: nat := 44
  const COPY_TRANSFER3D: nat := 45
  const SET_TWEAKS: nat := 46
  const CLEAR_TEXTURE: nat := 47
  const PIPE_RESOURCE_CREATE: nat := 48
  const PIPE_RESOURCE_SET_TYPE: nat := 49
  const GET_MEMORY_INFO: nat := 50
  const SEND_STRING_MARKER: nat := 51
  const LINK_SHADER: nat := 52
  const CREATE_VIDEO_CODEC: nat := 53
  const DESTROY_VIDEO_CODEC: nat := 54
  const CREATE_VIDEO_BUFFER: nat := 55
  const DESTROY_VIDEO_BUFFER: nat := 56
  const BEGIN_FRAME: nat := 57
  const DECODE_MACROBLOCK: nat := 58
  const DECODE_BITSTREAM: nat := 59
  const ENCODE_BITSTREAM: nat := 60
  const END_FRAME: nat := 61

  // object types
  const BLEND: nat := 1
  const RASTERIZER: nat := 2
  const DSA: nat := 3
  const SHADER: nat := 4
  const VERTEX_ELEMENTS: nat := 5
  const SAMPLER_VIEW: nat := 6
  const SAMPLER_STATE: nat := 7
  const SURFACE: nat := 8
  const QUERY: nat := 9
  const STREAMOUT_TARGET: nat := 10
  const MSAA_SURFACE: nat := 11

  const BLEND_SIZE: nat := 11
  const RASTERIZER_SIZE: nat := 9
  const DSA_SIZE: nat := 5
  const SAMPLER_STATE_SIZE: nat := 9
  const MAX_COLOR_BUFS: nat := 8

  /** The packet header: command, object type and length in words. */
  function Header(cmd: nat, obj: nat, len: nat): Word
    requires cmd <= 0xff && obj <= 0xff && len <= 0xffff
  {
    (cmd as Word) | ((obj as Word) << 8) | ((len as Word) << 16)
  }

  datatype TargetBlend = TargetBlend(
    blendEnable: bv1, rgbFunc: bv3, rgbSrcFactor: bv5, rgbDstFactor: bv5,
    alphaFunc: bv3, alphaSrcFactor: bv5, alphaDstFactor: bv5, colormask: bv4)

  datatype Blend = Blend(
    independentBlendEnable: bv1, logicopEnable: bv1, dither: bv1, alphaToCoverage: bv1, alphaToOne: bv1,
    logicopFunc: bv4, targets: seq<TargetBlend>)

  datatype Stencil = Stencil(enabled: bv1, func: bv3, failOp: bv3, zpassOp: bv3, zfailOp: bv3, valuemask: bv8,
                             writemask: bv8)

  datatype DepthStencilAlpha = DepthStencilAlpha(
    depthEnabled: bv1, depthWritemask: bv1, depthFunc: bv3, alphaEnabled: bv1, alphaFunc: bv3, alphaRef: Word,
    front: Stencil, back: Stencil)

  datatype RasterFlags = RasterFlags(
    flatshade: bv1, depthClip: bv1, clipHalfz: bv1, rasterizerDiscard: bv1, flatshadeFirst: bv1, lightTwoside: bv1,
    spriteCoordMode: bv1, pointQuadRasterization: bv1, cullFace: bv2, fillFront: bv2, fillBack: bv2, scissor: bv1,
    frontCcw: bv1, clampVertexColor: bv1, clampFragmentColor: bv1, offsetLine: bv1, offsetPoint: bv1, offsetTri: bv1,
    polySmooth: bv1, polyStippleEnable: bv1, pointSmooth: bv1, pointSizePerVertex: bv1, multisample: bv1,
    lineSmooth: bv1,
    lineStippleEnable: bv1, lineLastPixel: bv1, halfPixelCenter: bv1, bottomEdgeRule: bv1, forcePersampleInterp: bv1)

  datatype Rasterizer = Rasterizer(
    flags: RasterFlags, pointSize: Word, spriteCoordEnable: Word, lineStipplePattern: bv16, lineStippleFactor: bv8,
    clipPlaneEnable: bv8, lineWidth: Word, offsetUnits: Word, offsetScale: Word, offsetClamp: Word)

  datatype Sampler = Sampler(
    wrapS: bv3, wrapT: bv3, wrapR: bv3, minImgFilter: bv2, minMipFilter: bv2, magImgFilter: bv2, compareMode: bv1,
    compareFunc: bv3, seamlessCubeMap: bv1, maxAnisotropy: bv6, lodBias: Word, minLod: Word, maxLod: Word,
    borderColor: seq<Word>)

  // --- packing -------------------------------------------------------------------------------

  function PackBlend0(b: Blend): Word {
    (b.independentBlendEnable as Word) | ((b.logicopEnable as Word) << 1) | ((b.dither as Word) << 2)
    | ((b.alphaToCoverage as Word) << 3) | ((b.alphaToOne as Word) << 4)
  }

  function PackTarget(t: TargetBlend): Word {
    (t.blendEnable as Word) | ((t.rgbFunc as Word) << 1) | ((t.rgbSrcFactor as Word) << 4)
      | ((t.rgbDstFactor as Word) << 9)
    | ((t.alphaFunc as Word) << 14) | ((t.alphaSrcFactor as Word) << 17) | ((t.alphaDstFactor as Word) << 22)
    | ((t.colormask as Word) << 27)
  }

  function PackDsa0(d: DepthStencilAlpha): Word {
    (d.depthEnabled as Word) | ((d.depthWritemask as Word) << 1) | ((d.depthFunc as Word) << 2)
    | ((d.alphaEnabled as Word) << 8) | ((d.alphaFunc as Word) << 9)
  }

  function PackStencil(s: Stencil): Word {
    (s.enabled as Word) | ((s.func as Word) << 1) | ((s.failOp as Word) << 4) | ((s.zpassOp as Word) << 7)
    | ((s.zfailOp as Word) << 10) | ((s.valuemask as Word) << 13) | ((s.writemask as Word) << 21)
  }

  function PackRaster0(f: RasterFlags): Word {
    (f.flatshade as Word) | ((f.depthClip as Word) << 1) | ((f.clipHalfz as Word) << 2)
      | ((f.rasterizerDiscard as Word) << 3)
    | ((f.flatshadeFirst as Word) << 4) | ((f.lightTwoside as Word) << 5) | ((f.spriteCoordMode as Word) << 6)
    | ((f.pointQuadRasterization as Word) << 7) | ((f.cullFace as Word) << 8) | ((f.fillFront as Word) << 10)
    | ((f.fillBack as Word) << 12) | ((f.scissor as Word) << 14) | ((f.frontCcw as Word) << 15)
    | ((f.clampVertexColor as Word) << 16) | ((f.clampFragmentColor as Word) << 17) | ((f.offsetLine as Word) << 18)
    | ((f.offsetPoint as Word) << 19) | ((f.offsetTri as Word) << 20) | ((f.polySmooth as Word) << 21)
    | ((f.polyStippleEnable as Word) << 22) | ((f.pointSmooth as Word) << 23) | ((f.pointSizePerVertex as Word) << 24)
    | ((f.multisample as Word) << 25) | ((f.lineSmooth as Word) << 26) | ((f.lineStippleEnable as Word) << 27)
    | ((f.lineLastPixel as Word) << 28) | ((f.halfPixelCenter as Word) << 29) | ((f.bottomEdgeRule as Word) << 30)
    | ((f.forcePersampleInterp as Word) << 31)
  }

  function PackRaster3(r: Rasterizer): Word {
    (r.lineStipplePattern as Word) | ((r.lineStippleFactor as Word) << 16) | ((r.clipPlaneEnable as Word) << 24)
  }

  function PackSampler0(s: Sampler): Word {
    (s.wrapS as Word) | ((s.wrapT as Word) << 3) | ((s.wrapR as Word) << 6) | ((s.minImgFilter as Word) << 9)
    | ((s.minMipFilter as Word) << 11) | ((s.magImgFilter as Word) << 13) | ((s.compareMode as Word) << 15)
    | ((s.compareFunc as Word) << 16) | ((s.seamlessCubeMap as Word) << 19) | ((s.maxAnisotropy as Word) << 20)
  }

  function PackTargets(ts: seq<TargetBlend>): (r: seq<Word>)
    ensures |r| == |ts| && forall i :: 0 <= i < |ts| ==> r[i] == PackTarget(ts[i])
  {
    if ts == [] then [] else [PackTarget(ts[0])] + PackTargets(ts[1..])
  }

  // --- unpacking, as the decoders do it ------------------------------------------------------

  function UnpackTarget(w: Word): TargetBlend {
    TargetBlend((w & 1) as bv1, ((w >> 1) & 0x7) as bv3, ((w >> 4) & 0x1f) as bv5, ((w >> 9) & 0x1f) as bv5,
                ((w >> 14) & 0x7) as bv3, ((w >> 17) & 0x1f) as bv5, ((w >> 22) & 0x1f) as bv5,
                ((w >> 27) & 0xf) as bv4)
  }

  function UnpackBlend(w0: Word, w1: Word, targets: seq<TargetBlend>): Blend {
    Blend((w0 & 1) as bv1, ((w0 >> 1) & 1) as bv1, ((w0 >> 2) & 1) as bv1, ((w0 >> 3) & 1) as bv1,
          ((w0 >> 4) & 1) as bv1,
          (w1 & 0xf) as bv4, targets)
  }

  function UnpackStencil(w: Word): Stencil {
    Stencil((w & 1) as bv1, ((w >> 1) & 0x7) as bv3, ((w >> 4) & 0x7) as bv3, ((w >> 7) & 0x7) as bv3,
            ((w >> 10) & 0x7) as bv3, ((w >> 13) & 0xff) as bv8, ((w >> 21) & 0xff) as bv8)
  }

  function UnpackDsa(w0: Word, w1: Word, w2: Word, alphaRef: Word): DepthStencilAlpha {
    DepthStencilAlpha((w0 & 1) as bv1, ((w0 >> 1) & 1) as bv1, ((w0 >> 2) & 0x7) as bv3, ((w0 >> 8) & 1) as bv1,
                      ((w0 >> 9) & 0x7) as bv3, alphaRef, UnpackStencil(w1), UnpackStencil(w2))
  }

  function UnpackRaster0(w: Word): RasterFlags {
    RasterFlags(
      (w & 1) as bv1, ((w >> 1) & 1) as bv1, ((w >> 2) & 1) as bv1, ((w >> 3) & 1) as bv1, ((w >> 4) & 1) as bv1,
      ((w >> 5) & 1) as bv1, ((w >> 6) & 1) as bv1, ((w >> 7) & 1) as bv1, ((w >> 8) & 3) as bv2,
      ((w >> 10) & 3) as bv2,
      ((w >> 12) & 3) as bv2, ((w >> 14) & 1) as bv1, ((w >> 15) & 1) as bv1, ((w >> 16) & 1) as bv1,
      ((w >> 17) & 1) as bv1,
      ((w >> 18) & 1) as bv1, ((w >> 19) & 1) as bv1, ((w >> 20) & 1) as bv1, ((w >> 21) & 1) as bv1,
      ((w >> 22) & 1) as bv1,
      ((w >> 23) & 1) as bv1, ((w >> 24) & 1) as bv1, ((w >> 25) & 1) as bv1, ((w >> 26) & 1) as bv1,
      ((w >> 27) & 1) as bv1,
      ((w >> 28) & 1) as bv1, ((w >> 29) & 1) as bv1, ((w >> 30) & 1) as bv1, ((w >> 31) & 1) as bv1)
  }

  function UnpackRasterizer(w0: Word, pointSize: Word, spriteCoord: Word, w3: Word, lineWidth: Word, units: Word,
                            scale: Word,
                            clamp: Word): Rasterizer {
    Rasterizer(UnpackRaster0(w0), pointSize, spriteCoord, (w3 & 0xffff) as bv16, ((w3 >> 16) & 0xff) as bv8,
               ((w3 >> 24) & 0xff) as bv8, lineWidth, units, scale, clamp)
  }

  function UnpackSampler(w: Word, lodBias: Word, minLod: Word, maxLod: Word, border: seq<Word>): Sampler {
    Sampler((w & 0x7) as bv3, ((w >> 3) & 0x7) as bv3, ((w >> 6) & 0x7) as bv3, ((w >> 9) & 3) as bv2,
            ((w >> 11) & 3) as bv2,
            ((w >> 13) & 3) as bv2, ((w >> 15) & 1) as bv1, ((w >> 16) & 0x7) as bv3, ((w >> 19) & 1) as bv1,
            ((w >> 20) & 0x3f) as bv6, lodBias, minLod, maxLod, border)
  }

  // --- each word, both ways ------------------------------------------------------------------

  lemma TargetRoundTrip(t: TargetBlend)
    ensures UnpackTarget(PackTarget(t)) == t
  {
  }

  lemma BlendRoundTrip(b: Blend)
    ensures UnpackBlend(PackBlend0(b), b.logicopFunc as Word, b.targets) == b
  {
  }

  lemma StencilRoundTrip(s: Stencil)
    ensures UnpackStencil(PackStencil(s)) == s
  {
  }

  lemma DsaRoundTrip(d: DepthStencilAlpha)
    ensures UnpackDsa(PackDsa0(d), PackStencil(d.front), PackStencil(d.back), d.alphaRef) == d
  {
    StencilRoundTrip(d.front);
    StencilRoundTrip(d.back);
    hide PackStencil, UnpackStencil;
  }

  lemma RasterFlagsRoundTrip(f: RasterFlags)
    ensures UnpackRaster0(PackRaster0(f)) == f
  {
  }

  /** The flags use all 32 bits: packing what was unpacked gives the same word, for every word. */
  lemma RasterWordRoundTrip(w: Word)
    ensures PackRaster0(UnpackRaster0(w)) == w
  {
  }

  lemma RasterizerRoundTrip(r: Rasterizer)
    ensures UnpackRasterizer(PackRaster0(r.flags), r.pointSize, r.spriteCoordEnable, PackRaster3(r), r.lineWidth,
                             r.offsetUnits, r.offsetScale, r.offsetClamp) == r
  {
    RasterFlagsRoundTrip(r.flags);
    hide PackRaster0, UnpackRaster0;
  }

  lemma SamplerRoundTrip(s: Sampler)
    ensures UnpackSampler(PackSampler0(s), s.lodBias, s.minLod, s.maxLod, s.borderColor) == s
  {
  }
}
