/**
 * The CPU copy between a mapped blob resource and a scatter/gather list, row by row.
 *
 * The blob has no pitch of its own: both sides use the caller's stride, so every row moves by the same shift.
 */
module BlobTransfer {
  import opened Bags
  import opened Iov
  import opened Machine

  const BYTES_PER_PIXEL: nat := 4

  datatype FdType = Dmabuf | Opaque | Shm | Invalid

  datatype Box = Box(x: int, y: int, width: int, height: int)

  datatype Resource = Resource(fd: int, fdType: FdType, mapped: bool)

  // --- the reference -------------------------------------------------------------------------

  /**
   * Rows of `row` bytes, `stride` apart on both sides: from `offset` in the list and from `origin` in the blob, which
   * is negative when the box starts left of or above it.
   */
  datatype Geometry = Geometry(offset: nat, origin: int, stride: nat, row: nat)

  /** Positions of row `h` in unsigned 64-bit arithmetic. */
  function ListPos(g: Geometry, h: nat): nat {
    Wrap64(g.offset + h * g.stride)
  }

  function BlobPos(g: Geometry, h: nat): nat {
    Wrap64(g.origin + h * g.stride)
  }

  /** The part of row `h` that the list holds. */
  ghost function ListRow(iov: seq<Segment>, g: Geometry, h: nat): seq<nat> {
    Slice(Addrs(iov), ListPos(g, h), g.row)
  }

  ghost function ListRows(iov: seq<Segment>, g: Geometry, n: nat): seq<nat> {
    if n == 0 then [] else ListRows(iov, g, n - 1) + ListRow(iov, g, n - 1)
  }

  ghost function BlobRows(iov: seq<Segment>, g: Geometry, n: nat): seq<nat> {
    if n == 0 then [] else BlobRows(iov, g, n - 1) + Range(BlobPos(g, n - 1), |ListRow(iov, g, n - 1)|)
  }

  /** The bounds check, whose sum may wrap. */
  predicate RowFits(g: Geometry, size: nat, h: nat) {
    Wrap64(BlobPos(g, h) + g.row) <= size
  }

  /** What the check is for. */
  predicate RowInside(g: Geometry, size: nat, h: nat) {
    BlobPos(g, h) + g.row <= size
  }

  /** Every row before `h` lies inside. */
  ghost predicate Reached(g: Geometry, size: nat, h: nat) {
    forall j :: 0 <= j < h ==> RowInside(g, size, j)
  }

  /** Every row that is reached and passes the check lies inside. */
  ghost predicate Sound(g: Geometry, size: nat, n: nat) {
    forall h: nat :: h < n && Reached(g, size, h) && RowFits(g, size, h) ==> RowInside(g, size, h)
  }

  // --- the transfer --------------------------------------------------------------------------

  predicate Refused(res: Resource, box: Option<Box>, size: nat, mapWorks: bool) {
    || res.fd < 0 || !(res.fdType.Shm? || res.fdType.Dmabuf?)
    || box.None? || box.value.width < 0 || box.value.height < 0 || size == 0
    || (!res.mapped && !mapWorks)
  }

  function RowLength(box: Box): nat
    requires box.width >= 0
  {
    Wrap32(box.width * BYTES_PER_PIXEL)
  }

  function StrideOf(box: Box, stride: nat): nat
    requires box.width >= 0
  {
    if stride != 0 then stride else RowLength(box)
  }

  function GeometryOf(box: Box, stride: nat, offset: nat): Geometry
    requires box.width >= 0
  {
    Geometry(offset, box.y * StrideOf(box, stride) + box.x * BYTES_PER_PIXEL, StrideOf(box, stride), RowLength(box))
  }

  /** Values that the C types of the arguments can hold. */
  predicate Typed(box: Box, stride: nat, offset: nat, size: nat) {
    && -(U31 as int) <= box.x < U31 && -(U31 as int) <= box.y < U31 && box.width < U31 && box.height < U31
    && stride < U32 && offset < U64 && size < U64
  }

  // --- when the check means what it says -----------------------------------------------------

  /** Where row `h` would start in the blob. */
  function RowStart(g: Geometry, h: nat): int {
    g.origin + h * g.stride
  }

  /**
   * Row `h` starts before the blob and ends inside it, and the row before it, if any, ends in a blob so large that
   * positions before it wrap to positions inside it.
   */
  predicate Straddles(g: Geometry, size: nat, h: nat) {
    && -(g.row as int) <= RowStart(g, h) < 0 && RowStart(g, h) + g.row <= size
    && (h > 0 ==> U64 + RowStart(g, h - 1) + g.row <= size)
  }

  /** No position of a row exceeds 64 bits in either direction. */
  lemma RowBounds(box: Box, stride: nat, offset: nat, size: nat, h: nat)
    requires Typed(box, stride, offset, size) && box.width >= 0 && h < box.height
    ensures var g := GeometryOf(box, stride, offset);
      -(U63 as int) - 2 * U32 <= g.origin <= RowStart(g, h) && RowStart(g, h) + g.row < U64
  {
    var s := StrideOf(box, stride);
    var g := GeometryOf(box, stride, offset);
    assert RowStart(g, h) == (box.y + h) * s + box.x * BYTES_PER_PIXEL by {
      assert (box.y + h) * s == box.y * s + h * s;
    }
    Scale(-(U31 as int), box.y, s);
    Scale(s, U32, U31);
    Scale(0, h, s);
    Bounded(box.y + h, s);
  }

  lemma Bounded(y: int, s: nat)
    requires y <= U32 - 3 && s < U32
    ensures y * s <= (U32 - 3) * (U32 - 1)
  {
    Scale(y, U32 - 3, s);
    Scale(s, U32 - 1, U32 - 3);
  }

  /** The row before starts no later. */
  lemma RowsAscend(g: Geometry, i: nat, j: nat)
    requires i <= j
    ensures RowStart(g, i) <= RowStart(g, j)
  {
    assert j * g.stride == i * g.stride + (j - i) * g.stride && (j - i) * g.stride >= 0;
  }

  /** What wrapping makes of a row that starts at `at`. */
  lemma FitsInside(g: Geometry, size: nat, h: nat)
    requires size < U64 && -(U64 as int) <= RowStart(g, h) && RowStart(g, h) + g.row < U64
    ensures RowInside(g, size, h) ==> RowFits(g, size, h)
    ensures RowStart(g, h) < 0 ==> (RowInside(g, size, h) <==> U64 + RowStart(g, h) + g.row <= size)
    ensures RowFits(g, size, h) && !RowInside(g, size, h) <==>
      -(g.row as int) <= RowStart(g, h) < 0 && RowStart(g, h) + g.row <= size
  {
    hide Wrap64;
  }

  /**
   * The check passes a row outside the blob, all rows before it being inside, exactly if the row straddles the
   * blob's start.
   */
  lemma StrayIff(box: Box, stride: nat, offset: nat, size: nat, h: nat)
    requires Typed(box, stride, offset, size) && box.width >= 0 && h < box.height
    ensures var g := GeometryOf(box, stride, offset);
      Straddles(g, size, h) <==> Reached(g, size, h) && RowFits(g, size, h) && !RowInside(g, size, h)
  {
    var g := GeometryOf(box, stride, offset);
    hide GeometryOf, RowFits, RowInside, RowStart;
    RowBounds(box, stride, offset, size, h);
    FitsInside(g, size, h);
    if h > 0 {
      RowBounds(box, stride, offset, size, h - 1);
      FitsInside(g, size, h - 1);
      RowsAscend(g, h - 1, h);
    }
    if Straddles(g, size, h) {
      forall j | 0 <= j < h ensures RowInside(g, size, j) {
        RowBounds(box, stride, offset, size, j);
        FitsInside(g, size, j);
        RowsAscend(g, j, h - 1);
      }
    }
  }

  /**
   * The check is sound iff no row straddles the blob's start.  For blobs of less than half the address space that is,
   * iff the first row does not start before the blob and end inside it.
   */
  lemma SoundIff(box: Box, stride: nat, offset: nat, size: nat)
    requires Typed(box, stride, offset, size) && box.width >= 0 && box.height >= 0
    ensures var g := GeometryOf(box, stride, offset);
      Sound(g, size, box.height) <==> forall h: nat :: h < box.height ==> !Straddles(g, size, h)
    ensures var g := GeometryOf(box, stride, offset);
      size < U63 - 2 * U32 ==>
        (Sound(g, size, box.height) <==>
         !(box.height > 0 && -(g.row as int) <= g.origin < 0 && g.origin + g.row <= size))
  {
    var g := GeometryOf(box, stride, offset);
    assert RowStart(g, 0) == g.origin;
    if box.height > 0 && -(g.row as int) <= g.origin < 0 && g.origin + g.row <= size {
      assert Straddles(g, size, 0);
    }
    hide GeometryOf, RowStart, Reached, RowFits, RowInside;
    forall h: nat | h < box.height
      ensures Straddles(g, size, h) <==> Reached(g, size, h) && RowFits(g, size, h) && !RowInside(g, size, h)
      ensures size < U63 - 2 * U32 && Straddles(g, size, h) ==> h == 0
    {
      StrayIff(box, stride, offset, size, h);
      if h > 0 {
        RowBounds(box, stride, offset, size, h - 1);
        RowsAscend(g, 0, h - 1);
      }
    }
  }

  /** A box one pixel left of the blob passes the check, whatever the blob's size. */
  lemma LeftOfBlobPasses(size: nat)
    requires size < U64
    ensures var g := GeometryOf(Box(-1, 0, 1, 1), 0, 0);
      RowFits(g, size, 0) && !RowInside(g, size, 0) && Straddles(g, size, 0)
  {
    var g := GeometryOf(Box(-1, 0, 1, 1), 0, 0);
    assert RowLength(Box(-1, 0, 1, 1)) == 4;
    assert g == Geometry(0, -4, 4, 4) && RowStart(g, 0) == -4;
    FitsInside(g, size, 0);
  }

  // --- arithmetic modulo 2^64 ----------------------------------------------------------------

  /** Whole turns do not matter. */
  lemma WrapTurns(x: int, k: int)
    ensures Wrap64(x + k * U64) == Wrap64(x)
  {
    assert (x + k * U64) % U64 == x % U64;
  }

  lemma WrapSplit(x: int) returns (k: int)
    ensures Wrap64(x) == x + k * U64
  {
    k := -(x / U64);
  }

  lemma WrapAdd(x: int, y: int)
    ensures Wrap64(Wrap64(x) + Wrap64(y)) == Wrap64(x + y)
  {
    hide Wrap64;
    var j := WrapSplit(x);
    var k := WrapSplit(y);
    WrapTurns(x + y, j + k);
    assert x + j * U64 + (y + k * U64) == x + y + (j + k) * U64;
  }

  lemma WrapTimes(x: int, y: nat)
    ensures Wrap64(Wrap64(x) * y) == Wrap64(x * y)
  {
    hide Wrap64;
    var k := WrapSplit(x);
    WrapTurns(x * y, k * y);
    assert (x + k * U64) * y == x * y + k * y * U64;
  }

  /** Moves one row, truncated where the list ends. */
  method TransferRow(mem: array<Byte>, blob: array<Byte>, iov: seq<Segment>, at: nat, from: nat, row: nat, toHost: bool)
    returns (rest: nat)
    requires mem != blob && Within(iov, mem.Length) && from + row <= blob.Length
    modifies mem, blob
    ensures var a := Slice(Addrs(iov), at, row);
      Transferred(old(mem[..]), old(blob[..]), mem[..], blob[..], a, Range(from, |a|), toHost)
    ensures rest == 0 <==> Lands(iov, at, row)
  {
    hide Addrs, Slice, Lands, Scatter;
    ghost var a := Slice(Addrs(iov), at, row);
    SliceShort(Addrs(iov), at, row);
    if toHost {
      var n;
      n, rest := ReadFromIovec(mem, iov, at, blob, from, row);
      ScatterRange(old(blob[..]), from, Gather(mem[..], a));
    } else {
      var n;
      n, rest := WriteToIovec(mem, iov, at, blob, from, row);
      assert blob[from..from + n] == Gather(blob[..], Range(from, n));
    }
  }

  lemma SliceShort<T>(xs: seq<T>, off: nat, n: nat)
    ensures |Slice(xs, off, n)| <= n
  {
  }

  /** The two offsets of row `h` and the end of its blob range, in 64-bit arithmetic. */
  method RowOffsets(box: Box, step: nat, rowLen: nat, offset: nat, h: nat, ghost stride: nat)
    returns (listOff: nat, blobOff: nat, end: nat)
    requires box.width >= 0 && step == StrideOf(box, stride) && rowLen == RowLength(box)
    ensures var g := GeometryOf(box, stride, offset);
      listOff == ListPos(g, h) && blobOff == BlobPos(g, h) && end == Wrap64(BlobPos(g, h) + g.row)
  {
    hide Wrap64;
    listOff := Wrap64(offset + h * step);
    var y := Wrap64(Wrap64(box.y) + h);
    var top := Wrap64(y * step);
    var left := Wrap64(Wrap64(box.x) * BYTES_PER_PIXEL);
    blobOff := Wrap64(top + left);
    end := Wrap64(blobOff + rowLen);
    OffsetsWrap(box.x, box.y, h, step);
  }

  /** Wrapping at every operation is wrapping once. */
  lemma OffsetsWrap(x: int, y: int, h: nat, step: nat)
    ensures var top, left := Wrap64(Wrap64(Wrap64(y) + h) * step), Wrap64(Wrap64(x) * BYTES_PER_PIXEL);
      Wrap64(top + left) == Wrap64(y * step + x * BYTES_PER_PIXEL + h * step)
  {
    hide Wrap64;
    var k := WrapSplit(y);
    WrapTurns(y + h, k);
    WrapTimes(y + h, step);
    WrapTimes(x, BYTES_PER_PIXEL);
    WrapAdd((y + h) * step, x * BYTES_PER_PIXEL);
    assert (y + h) * step + x * BYTES_PER_PIXEL == y * step + x * BYTES_PER_PIXEL + h * step;
  }

  /** The rows in order, up to the first that the check rejects or that strays. */
  method TransferRows(mem: array<Byte>, blob: array<Byte>, box: Box, stride: nat, offset: nat, iov: seq<Segment>,
                      toHost: bool)
    returns (ret: int, rows: nat, landed: bool, stray: bool)
    requires mem != blob && Within(iov, mem.Length) && box.width >= 0 && box.height >= 0
    requires Typed(box, stride, offset, blob.Length)
    modifies mem, blob
    ensures Moved(GeometryOf(box, stride, offset), box.height, blob.Length, ret, rows, stray)
    ensures var g := GeometryOf(box, stride, offset);
      && Transferred(old(mem[..]), old(blob[..]), mem[..], blob[..], ListRows(iov, g, rows), BlobRows(iov, g, rows),
                     toHost)
      && (landed <==> forall h :: 0 <= h < rows ==> Lands(iov, ListPos(g, h), g.row))
  {
    hide ListRows, BlobRows, ListPos, BlobPos, Transferred, Addrs, Slice, Lands, GeometryOf, Wrap64, Straddles;
    ret, rows, landed, stray := 0, 0, true, false;
    var rowLen := Wrap32(box.width * BYTES_PER_PIXEL);
    var step := if stride != 0 then stride else rowLen;
    ghost var g := GeometryOf(box, stride, offset);
    GeometryRow(box, stride, offset);
    NoRows(iov, g, mem[..], blob[..], toHost);
    while rows < box.height
      invariant 0 <= rows <= box.height && ret == 0 && !stray
      invariant forall h :: 0 <= h < rows ==> RowFits(g, blob.Length, h) && RowInside(g, blob.Length, h)
      invariant Transferred(old(mem[..]), old(blob[..]), mem[..], blob[..], ListRows(iov, g, rows),
                            BlobRows(iov, g, rows), toHost)
      invariant landed <==> forall h :: 0 <= h < rows ==> Lands(iov, ListPos(g, h), g.row)
    {
      var listOff, blobOff, end := RowOffsets(box, step, rowLen, offset, rows, stride);
      if end > blob.Length {
        ret := EINVAL;
        NoStray(box, stride, offset, blob.Length, rows);
        return;
      }
      assert RowFits(g, blob.Length, rows);
      if blobOff + rowLen > blob.Length {
        // the program copies to or from memory that the model does not have
        StrayIff(box, stride, offset, blob.Length, rows);
        stray := true;
        return;
      }
      ghost var mem1, blob1 := mem[..], blob[..];
      var rest := TransferRow(mem, blob, iov, listOff, blobOff, rowLen, toHost);
      TransferredMore(old(mem[..]), old(blob[..]), mem1, blob1, mem[..], blob[..],
                      ListRows(iov, g, rows), BlobRows(iov, g, rows),
                      ListRow(iov, g, rows), Range(BlobPos(g, rows), |ListRow(iov, g, rows)|), toHost);
      MoreRows(iov, g, rows);
      landed := landed && rest == 0;
      rows := rows + 1;
    }
    NoStray(box, stride, offset, blob.Length, rows);
  }

  /** A transfer that ends regularly has met no row that strays, and would have met none. */
  lemma NoStray(box: Box, stride: nat, offset: nat, size: nat, rows: nat)
    requires Typed(box, stride, offset, size) && box.width >= 0 && 0 <= rows <= box.height
    requires var g := GeometryOf(box, stride, offset);
      && (forall h :: 0 <= h < rows ==> RowInside(g, size, h))
      && (rows < box.height ==> !RowFits(g, size, rows))
    ensures forall h: nat :: h < box.height ==> !Straddles(GeometryOf(box, stride, offset), size, h)
  {
    var g := GeometryOf(box, stride, offset);
    hide GeometryOf, Straddles, RowFits, RowInside;
    forall h: nat | h < box.height ensures !Straddles(g, size, h) {
      StrayIff(box, stride, offset, size, h);
      if rows < h {
        RowBounds(box, stride, offset, size, rows);
        FitsInside(g, size, rows);
      }
    }
  }

  lemma GeometryRow(box: Box, stride: nat, offset: nat)
    requires box.width >= 0
    ensures GeometryOf(box, stride, offset).row == RowLength(box)
  {
  }

  /**
   * The first `rows` rows, all inside the blob, were moved: every row, with result 0; or those before the first that
   * the check rejects, with EINVAL; or those before the one that strays, if there is one.
   */
  ghost predicate Moved(g: Geometry, height: nat, size: nat, ret: int, rows: nat, stray: bool) {
    && rows <= height && (forall h :: 0 <= h < rows ==> RowFits(g, size, h) && RowInside(g, size, h))
    && (stray <==> exists h: nat :: h < height && Straddles(g, size, h))
    && (stray ==> ret == 0 && rows < height && Straddles(g, size, rows))
    && (!stray && ret == 0 ==> rows == height)
    && (ret != 0 ==> ret == EINVAL && rows < height && !RowFits(g, size, rows))
  }

  /**
   * The whole transfer, for every value of the arguments' types.  Unless a row straddles the blob's start it returns
   * 0 iff every row passes the bounds check, and else EINVAL, having moved exactly the rows before the first that
   * does not.  `landed` says whether the list walks' closing assertion held for each row, `stray` whether the copy
   * left the blob, at row `rows`, upon which the model ends.
   */
  method TransferBlob(mem: array<Byte>, blob: array<Byte>, res: Resource, box: Option<Box>, stride: nat, offset: nat,
                      iov: seq<Segment>, mapWorks: bool, toHost: bool)
    returns (ret: int, rows: nat, landed: bool, stray: bool)
    requires mem != blob && Within(iov, mem.Length)
    requires box.Some? ==> Typed(box.value, stride, offset, blob.Length)
    modifies mem, blob
    ensures Refused(res, box, blob.Length, mapWorks) ==>
      ret == EINVAL && rows == 0 && !stray && mem[..] == old(mem[..]) && blob[..] == old(blob[..])
    ensures !Refused(res, box, blob.Length, mapWorks) ==>
      var g := GeometryOf(box.value, stride, offset);
      && Moved(g, box.value.height, blob.Length, ret, rows, stray)
      && Transferred(old(mem[..]), old(blob[..]), mem[..], blob[..], ListRows(iov, g, rows), BlobRows(iov, g, rows),
                     toHost)
      && (landed <==> forall h :: 0 <= h < rows ==> Lands(iov, ListPos(g, h), g.row))
    ensures !Refused(res, box, blob.Length, mapWorks) && BoxFits(box.value, stride, offset, rows) ==>
      && (toHost ==>
            && mem[..] == old(mem[..])
            && BoxWritten(iov, box.value, stride, offset, rows, old(mem[..]), old(blob[..]), blob[..]))
      && (!toHost && Distinct(Addrs(iov)) ==>
            && blob[..] == old(blob[..])
            && BoxRead(iov, box.value, stride, offset, rows, old(blob[..]), old(mem[..]), mem[..]))
  {
    hide BoxFits, BoxWritten, BoxRead, ListRows, BlobRows, Transferred, Lands, Typed, Addrs;
    ret, rows, landed, stray := 0, 0, true, false;
    if res.fd < 0 || (res.fdType != Shm && res.fdType != Dmabuf) {
      ret := EINVAL;
      return;
    }
    if box.None? || box.value.width < 0 || box.value.height < 0 || blob.Length == 0 {
      ret := EINVAL;
      return;
    }
    if !res.mapped && !mapWorks {
      ret := EINVAL;
      return;
    }
    ret, rows, landed, stray := TransferRows(mem, blob, box.value, stride, offset, iov, toHost);
    if BoxFits(box.value, stride, offset, rows) {
      if toHost {
        ToBlobPixels(iov, box.value, stride, offset, rows, old(mem[..]), old(blob[..]), mem[..], blob[..]);
      } else if Distinct(Addrs(iov)) {
        FromBlobPixels(iov, box.value, stride, offset, rows, old(mem[..]), old(blob[..]), mem[..], blob[..]);
      }
    }
  }

  /** No position of the first `n` rows wraps. */
  ghost predicate Straight(g: Geometry, n: nat) {
    forall h: nat :: h < n ==> ListPos(g, h) == g.offset + h * g.stride && BlobPos(g, h) == RowStart(g, h)
  }

  /** They wrap unless the first row starts inside the blob and the last row's positions are below 2^64. */
  lemma StraightIff(g: Geometry, n: nat)
    requires n > 0
    ensures Straight(g, n) <==>
      g.origin >= 0 && g.offset + (n - 1) * g.stride < U64 && RowStart(g, n - 1) < U64
  {
    hide Wrap64;
    var m := n - 1;
    if Straight(g, n) {
      assert ListPos(g, m) == g.offset + m * g.stride && BlobPos(g, m) == RowStart(g, m);
      assert BlobPos(g, 0) == RowStart(g, 0) == g.origin;
    }
    if g.origin >= 0 && g.offset + m * g.stride < U64 && RowStart(g, m) < U64 {
      forall h: nat | h < n
        ensures ListPos(g, h) == g.offset + h * g.stride && BlobPos(g, h) == RowStart(g, h)
      {
        Scale(0, h, g.stride);
        Scale(h, m, g.stride);
      }
    }
  }

  /** What was moved from or to a blob of less than half the address space wraps only if the list's offset does. */
  lemma MovedStraightIff(box: Box, stride: nat, offset: nat, size: nat, n: nat)
    requires Typed(box, stride, offset, size) && box.width >= 0 && 0 < n <= box.height && size < U63 - 2 * U32
    requires forall h :: 0 <= h < n ==> RowInside(GeometryOf(box, stride, offset), size, h)
    ensures var g := GeometryOf(box, stride, offset); Straight(g, n) <==> offset + (n - 1) * g.stride < U64
  {
    var g := GeometryOf(box, stride, offset);
    assert g.offset == offset && RowStart(g, 0) == g.origin;
    hide GeometryOf, RowStart;
    RowBounds(box, stride, offset, size, 0);
    RowBounds(box, stride, offset, size, n - 1);
    FitsInside(g, size, 0);
    assert RowInside(g, size, 0);
    StraightIff(g, n);
  }

  lemma NoRows(iov: seq<Segment>, g: Geometry, mem: seq<Byte>, blob: seq<Byte>, toHost: bool)
    ensures Transferred(mem, blob, mem, blob, ListRows(iov, g, 0), BlobRows(iov, g, 0), toHost)
  {
  }

  lemma MoreRows(iov: seq<Segment>, g: Geometry, n: nat)
    ensures ListRows(iov, g, n + 1) == ListRows(iov, g, n) + ListRow(iov, g, n)
    ensures BlobRows(iov, g, n + 1) == BlobRows(iov, g, n) + Range(BlobPos(g, n), |ListRow(iov, g, n)|)
  {
  }

  // --- one shift for all rows ----------------------------------------------------------------

  /** The list position that corresponds to blob position `b`. */
  ghost function Unshift(g: Geometry, b: nat): int {
    b - g.origin + g.offset
  }

  /** Element by element, list and blob differ by the one shift. */
  ghost predicate Shifted(iov: seq<Segment>, g: Geometry, a: seq<nat>, b: seq<nat>) {
    |a| == |b| && forall k :: 0 <= k < |b| ==>
      0 <= Unshift(g, b[k]) < |Addrs(iov)| && a[k] == Addrs(iov)[Unshift(g, b[k])]
  }

  lemma {:induction false} RowsShifted(iov: seq<Segment>, g: Geometry, n: nat)
    requires Straight(g, n)
    ensures Shifted(iov, g, ListRows(iov, g, n), BlobRows(iov, g, n))
  {
    hide Addrs, ListPos, BlobPos;
    if n > 0 {
      RowsShifted(iov, g, n - 1);
      RowShifted(iov, g, n - 1);
      ShiftedAppend(iov, g, ListRows(iov, g, n - 1), BlobRows(iov, g, n - 1), ListRow(iov, g, n - 1),
                    Range(BlobPos(g, n - 1), |ListRow(iov, g, n - 1)|));
    }
  }

  lemma RowShifted(iov: seq<Segment>, g: Geometry, h: nat)
    requires ListPos(g, h) == g.offset + h * g.stride && BlobPos(g, h) == RowStart(g, h)
    ensures Shifted(iov, g, ListRow(iov, g, h), Range(BlobPos(g, h), |ListRow(iov, g, h)|))
  {
    hide Addrs, ListPos, BlobPos;
    assert BlobPos(g, h) - g.origin + g.offset == ListPos(g, h);
  }

  lemma ShiftedAppend(iov: seq<Segment>, g: Geometry, a: seq<nat>, b: seq<nat>, c: seq<nat>, d: seq<nat>)
    requires Shifted(iov, g, a, b) && Shifted(iov, g, c, d)
    ensures Shifted(iov, g, a + c, b + d)
  {
    hide Addrs, Unshift;
  }

  /** The blob positions of the first `n` rows. */
  ghost predicate Touched(iov: seq<Segment>, g: Geometry, n: nat, b: nat) {
    exists h :: 0 <= h < n && BlobPos(g, h) <= b < BlobPos(g, h) + |ListRow(iov, g, h)|
  }

  lemma {:induction false} TouchedIff(iov: seq<Segment>, g: Geometry, n: nat, b: nat)
    ensures b in BlobRows(iov, g, n) <==> Touched(iov, g, n, b)
  {
    hide BlobPos, ListRow, Addrs;
    if n > 0 {
      TouchedIff(iov, g, n - 1, b);
      var lo, len := BlobPos(g, n - 1), |ListRow(iov, g, n - 1)|;
      assert BlobRows(iov, g, n) == BlobRows(iov, g, n - 1) + Range(lo, len);
      if lo <= b < lo + len {
        assert Range(lo, len)[b - lo] == b;
      }
    }
  }

  /**
   * Towards the blob the transfer is one affine copy, even when rows overlap because the stride is shorter than a
   * row: a touched blob byte holds the list byte at the constant distance, and every other byte is as before.
   */
  lemma ToBlobIsAffine(iov: seq<Segment>, g: Geometry, n: nat, mem0: seq<Byte>, blob0: seq<Byte>, mem1: seq<Byte>,
                       blob1: seq<Byte>, b: nat)
    requires Straight(g, n)
    requires Transferred(mem0, blob0, mem1, blob1, ListRows(iov, g, n), BlobRows(iov, g, n), true) && b < |blob0|
    ensures mem1 == mem0 && |blob1| == |blob0|
    ensures Touched(iov, g, n, b) ==>
      && 0 <= Unshift(g, b) < |Addrs(iov)| && Addrs(iov)[Unshift(g, b)] < |mem0|
      && blob1[b] == mem0[Addrs(iov)[Unshift(g, b)]]
    ensures !Touched(iov, g, n, b) ==> blob1[b] == blob0[b]
  {
    hide ListRows, BlobRows, Touched, Addrs, Unshift;
    RowsShifted(iov, g, n);
    TouchedIff(iov, g, n, b);
    var l, r := ListRows(iov, g, n), BlobRows(iov, g, n);
    var data := Gather(mem0, l);
    if b in r {
      var k :| 0 <= k < |r| && r[k] == b;
      ScatterConsistent(blob0, r, data, k);
    } else {
      ScatterFrame(blob0, r, data, b);
    }
  }

  /** Towards the list likewise, when the list names no address twice; every other address is as before. */
  lemma FromBlobIsAffine(iov: seq<Segment>, g: Geometry, n: nat, mem0: seq<Byte>, blob0: seq<Byte>, mem1: seq<Byte>,
                         blob1: seq<Byte>)
    requires Straight(g, n)
    requires Transferred(mem0, blob0, mem1, blob1, ListRows(iov, g, n), BlobRows(iov, g, n), false)
    requires Distinct(Addrs(iov))
    ensures blob1 == blob0 && |mem1| == |mem0|
    ensures forall b: nat :: Touched(iov, g, n, b) ==>
      && b < |blob0| && 0 <= Unshift(g, b) < |Addrs(iov)| && Addrs(iov)[Unshift(g, b)] < |mem1|
      && mem1[Addrs(iov)[Unshift(g, b)]] == blob0[b]
    ensures forall a: nat :: a < |mem0| && a !in ListRows(iov, g, n) ==> mem1[a] == mem0[a]
    ensures forall a: nat :: a in ListRows(iov, g, n) ==>
      exists b: nat :: Touched(iov, g, n, b) && 0 <= Unshift(g, b) < |Addrs(iov)| && a == Addrs(iov)[Unshift(g, b)]
  {
    hide ListRows, BlobRows, Touched, Addrs, Unshift, Straight;
    RowsShifted(iov, g, n);
    var l, r := ListRows(iov, g, n), BlobRows(iov, g, n);
    ShiftedInjective(iov, g, l, r);
    forall b: nat | Touched(iov, g, n, b)
      ensures b < |blob0| && 0 <= Unshift(g, b) < |Addrs(iov)| && Addrs(iov)[Unshift(g, b)] < |mem1|
      ensures mem1[Addrs(iov)[Unshift(g, b)]] == blob0[b]
    {
      TouchedIff(iov, g, n, b);
      var k :| 0 <= k < |r| && r[k] == b;
      ScatterConsistent(mem0, l, Gather(blob0, r), k);
    }
    forall a: nat | a < |mem0| && a !in l ensures mem1[a] == mem0[a] {
      ScatterFrame(mem0, l, Gather(blob0, r), a);
    }
    forall a: nat | a in l
      ensures exists b: nat ::
        Touched(iov, g, n, b) && 0 <= Unshift(g, b) < |Addrs(iov)| && a == Addrs(iov)[Unshift(g, b)]
    {
      var k :| 0 <= k < |l| && l[k] == a;
      TouchedIff(iov, g, n, r[k]);
      assert r[k] in r;
    }
  }

  lemma ShiftedInjective(iov: seq<Segment>, g: Geometry, a: seq<nat>, b: seq<nat>)
    requires Shifted(iov, g, a, b) && Distinct(Addrs(iov))
    ensures forall i, j :: 0 <= i < |a| && 0 <= j < |a| && a[i] == a[j] ==> b[i] == b[j]
  {
    hide Addrs;
    forall i, j | 0 <= i < |a| && 0 <= j < |a| && a[i] == a[j] ensures b[i] == b[j] {
      var p, q := Unshift(g, b[i]), Unshift(g, b[j]);
      assert Addrs(iov)[p] == Addrs(iov)[q];
    }
  }

  /** Reading the blob into the list and writing it back leaves the blob unchanged, also when rows overlap. */
  lemma ReadThenWriteBack(iov: seq<Segment>, g: Geometry, n: nat, mem0: seq<Byte>, blob0: seq<Byte>, mem1: seq<Byte>,
                          blob1: seq<Byte>, mem2: seq<Byte>, blob2: seq<Byte>)
    requires Straight(g, n)
    requires Distinct(Addrs(iov))
    requires Transferred(mem0, blob0, mem1, blob1, ListRows(iov, g, n), BlobRows(iov, g, n), false)
    requires Transferred(mem1, blob1, mem2, blob2, ListRows(iov, g, n), BlobRows(iov, g, n), true)
    ensures blob2 == blob0 && mem2 == mem1
  {
    hide ListRows, BlobRows, Addrs, Scatter;
    RowsShifted(iov, g, n);
    var l, r := ListRows(iov, g, n), BlobRows(iov, g, n);
    ShiftedInjective(iov, g, l, r);
    GatherConsistent(mem0, l, Gather(blob0, r));
    ScatterGather(blob0, r);
  }

  /** Writing the list to the blob and reading it back leaves memory unchanged. */
  lemma WriteThenReadBack(iov: seq<Segment>, g: Geometry, n: nat, mem0: seq<Byte>, blob0: seq<Byte>, mem1: seq<Byte>,
                          blob1: seq<Byte>, mem2: seq<Byte>, blob2: seq<Byte>)
    requires Straight(g, n)
    requires Transferred(mem0, blob0, mem1, blob1, ListRows(iov, g, n), BlobRows(iov, g, n), true)
    requires Transferred(mem1, blob1, mem2, blob2, ListRows(iov, g, n), BlobRows(iov, g, n), false)
    ensures mem2 == mem0 && blob2 == blob1
  {
    hide ListRows, BlobRows, Addrs, Scatter, Unshift;
    RowsShifted(iov, g, n);
    var l, r := ListRows(iov, g, n), BlobRows(iov, g, n);
    GatherConsistent(blob0, r, Gather(mem0, l));
    ScatterGather(mem0, l);
  }

  // --- which bytes a box names ---------------------------------------------------------------

  /** Bytes from one row of the box to the next. */
  function Step(box: Box, stride: nat): nat
    requires box.width >= 0
  {
    if stride != 0 then stride else 4 * box.width
  }

  /** Neither the row length, nor the first row's place, nor the last row's list offset leaves its type. */
  predicate BoxFits(box: Box, stride: nat, offset: nat, n: nat) {
    && 0 <= 4 * box.width < 0x1_0000_0000 && box.y * Step(box, stride) + 4 * box.x >= 0
    && (n > 0 ==> offset + (n - 1) * Step(box, stride) < 0x1_0000_0000_0000_0000)
  }

  /** The place of byte `c` of row `h` in the list ... */
  function ListAt(box: Box, stride: nat, offset: nat, h: nat, c: nat): nat
    requires box.width >= 0
  {
    offset + h * Step(box, stride) + c
  }

  /** ... which may be past the list's end ... */
  ghost predicate InList(iov: seq<Segment>, box: Box, stride: nat, offset: nat, n: nat, h: nat, c: nat)
    requires box.width >= 0
  {
    h < n && c < 4 * box.width && ListAt(box, stride, offset, h, c) < |Addrs(iov)|
  }

  /** ... and in the resource. */
  function PixelPos(box: Box, stride: nat, h: nat, c: nat): int
    requires box.width >= 0
  {
    (box.y + h) * Step(box, stride) + 4 * box.x + c
  }

  /** Towards the resource: every byte of the box that the list holds, and nothing else. */
  ghost predicate BoxWritten(iov: seq<Segment>, box: Box, stride: nat, offset: nat, n: nat, mem: seq<Byte>,
                             blob0: seq<Byte>, blob1: seq<Byte>)
    requires box.width >= 0
  {
    && |blob1| == |blob0|
    && (forall h: nat, c: nat :: InList(iov, box, stride, offset, n, h, c) ==>
          var from, to := Addrs(iov)[ListAt(box, stride, offset, h, c)], PixelPos(box, stride, h, c);
          0 <= to < |blob1| && from < |mem| && blob1[to] == mem[from])
    && (forall b :: 0 <= b < |blob0| && blob1[b] != blob0[b] ==>
          exists h: nat, c: nat :: InList(iov, box, stride, offset, n, h, c) && b == PixelPos(box, stride, h, c))
  }

  /** Towards the list likewise. */
  ghost predicate BoxRead(iov: seq<Segment>, box: Box, stride: nat, offset: nat, n: nat, blob: seq<Byte>,
                          mem0: seq<Byte>, mem1: seq<Byte>)
    requires box.width >= 0
  {
    && |mem1| == |mem0|
    && (forall h: nat, c: nat :: InList(iov, box, stride, offset, n, h, c) ==>
          var to, from := Addrs(iov)[ListAt(box, stride, offset, h, c)], PixelPos(box, stride, h, c);
          0 <= from < |blob| && to < |mem1| && mem1[to] == blob[from])
    && (forall a :: 0 <= a < |mem0| && mem1[a] != mem0[a] ==>
          exists h: nat, c: nat :: InList(iov, box, stride, offset, n, h, c)
            && a == Addrs(iov)[ListAt(box, stride, offset, h, c)])
  }

  /** The geometry of a box that fits. */
  lemma BoxGeometry(box: Box, stride: nat, offset: nat, size: nat, n: nat)
    requires Typed(box, stride, offset, size) && BoxFits(box, stride, offset, n) && n <= box.height
    ensures var g := GeometryOf(box, stride, offset);
      && g.offset == offset && g.row == 4 * box.width && g.stride == Step(box, stride)
      && g.origin == box.y * Step(box, stride) + 4 * box.x && Straight(g, n)
  {
    var g := GeometryOf(box, stride, offset);
    if n > 0 {
      RowBounds(box, stride, offset, size, n - 1);
      StraightIff(g, n);
    }
  }

  /** The bytes of the box that the list holds are the touched positions. */
  lemma PixelTouched(iov: seq<Segment>, box: Box, stride: nat, offset: nat, size: nat, n: nat, h: nat, c: nat)
    requires Typed(box, stride, offset, size) && BoxFits(box, stride, offset, n) && n <= box.height
    requires InList(iov, box, stride, offset, n, h, c)
    ensures var g, b := GeometryOf(box, stride, offset), PixelPos(box, stride, h, c);
      b >= 0 && Touched(iov, g, n, b) && Unshift(g, b) == ListAt(box, stride, offset, h, c)
  {
    hide Addrs, GeometryOf, ListPos, BlobPos, Wrap64, Straight, BoxFits, Typed;
    BoxGeometry(box, stride, offset, size, n);
    var g, b := GeometryOf(box, stride, offset), PixelPos(box, stride, h, c);
    StraightRow(iov, g, n, h);
    RowInBox(box.y, Step(box, stride), h);
    assert BlobPos(g, h) <= b < BlobPos(g, h) + |ListRow(iov, g, h)|;
  }

  lemma RowInBox(y: int, step: nat, h: nat)
    ensures (y + h) * step == y * step + h * step
  {
  }

  lemma StraightRow(iov: seq<Segment>, g: Geometry, n: nat, h: nat)
    requires Straight(g, n) && h < n
    ensures BlobPos(g, h) == g.origin + h * g.stride && ListPos(g, h) == g.offset + h * g.stride
    ensures var at := g.offset + h * g.stride;
      |ListRow(iov, g, h)| == if at >= |Addrs(iov)| then 0 else Min(g.row, |Addrs(iov)| - at)
  {
    hide Addrs, Wrap64;
  }

  lemma TouchedPixel(iov: seq<Segment>, box: Box, stride: nat, offset: nat, size: nat, n: nat, b: nat)
    returns (h: nat, c: nat)
    requires Typed(box, stride, offset, size) && BoxFits(box, stride, offset, n) && n <= box.height
    requires Touched(iov, GeometryOf(box, stride, offset), n, b)
    ensures InList(iov, box, stride, offset, n, h, c) && b == PixelPos(box, stride, h, c)
    ensures Unshift(GeometryOf(box, stride, offset), b) == ListAt(box, stride, offset, h, c)
  {
    hide Addrs, GeometryOf, ListPos, BlobPos, Wrap64, Straight, BoxFits, Typed;
    BoxGeometry(box, stride, offset, size, n);
    var g := GeometryOf(box, stride, offset);
    h :| 0 <= h < n && BlobPos(g, h) <= b < BlobPos(g, h) + |ListRow(iov, g, h)|;
    c := b - BlobPos(g, h);
    StraightRow(iov, g, n, h);
    RowInBox(box.y, Step(box, stride), h);
  }

  /** Towards the resource, a transfer writes exactly the bytes of the box. */
  lemma ToBlobPixels(iov: seq<Segment>, box: Box, stride: nat, offset: nat, n: nat, mem0: seq<Byte>, blob0: seq<Byte>,
                     mem1: seq<Byte>, blob1: seq<Byte>)
    requires box.width >= 0 && Typed(box, stride, offset, |blob0|)
    requires BoxFits(box, stride, offset, n) && n <= box.height
    requires var g := GeometryOf(box, stride, offset);
      Transferred(mem0, blob0, mem1, blob1, ListRows(iov, g, n), BlobRows(iov, g, n), true)
    ensures BoxWritten(iov, box, stride, offset, n, mem0, blob0, blob1) && mem1 == mem0
  {
    hide GeometryOf, ListRows, BlobRows, Addrs, Unshift, Touched, Straight, Transferred;
    hide PixelPos, ListAt, Step, BoxFits, Typed;
    var g := GeometryOf(box, stride, offset);
    BoxGeometry(box, stride, offset, |blob0|, n);
    TouchedInside(iov, g, n, mem0, blob0, mem1, blob1);
    forall h: nat, c: nat | InList(iov, box, stride, offset, n, h, c)
      ensures var from, to := Addrs(iov)[ListAt(box, stride, offset, h, c)], PixelPos(box, stride, h, c);
        0 <= to < |blob1| && from < |mem0| && blob1[to] == mem0[from]
    {
      PixelTouched(iov, box, stride, offset, |blob0|, n, h, c);
      ToBlobIsAffine(iov, g, n, mem0, blob0, mem1, blob1, PixelPos(box, stride, h, c));
    }
    forall b | 0 <= b < |blob0| && blob1[b] != blob0[b]
      ensures exists h: nat, c: nat :: InList(iov, box, stride, offset, n, h, c) && b == PixelPos(box, stride, h, c)
    {
      ToBlobIsAffine(iov, g, n, mem0, blob0, mem1, blob1, b);
      var h, c := TouchedPixel(iov, box, stride, offset, |blob0|, n, b);
    }
  }

  lemma TouchedInside(iov: seq<Segment>, g: Geometry, n: nat, mem0: seq<Byte>, blob0: seq<Byte>, mem1: seq<Byte>,
                      blob1: seq<Byte>)
    requires Transferred(mem0, blob0, mem1, blob1, ListRows(iov, g, n), BlobRows(iov, g, n), true)
    ensures mem1 == mem0 && |blob1| == |blob0| && forall b: nat :: Touched(iov, g, n, b) ==> b < |blob0|
  {
    hide ListRows, BlobRows, Touched, Addrs;
    forall b: nat | Touched(iov, g, n, b) ensures b < |blob0| {
      TouchedIff(iov, g, n, b);
    }
  }

  /** Towards a list that names no address twice, it reads exactly the bytes of the box. */
  lemma FromBlobPixels(iov: seq<Segment>, box: Box, stride: nat, offset: nat, n: nat, mem0: seq<Byte>,
                       blob0: seq<Byte>, mem1: seq<Byte>, blob1: seq<Byte>)
    requires box.width >= 0 && Typed(box, stride, offset, |blob0|)
    requires BoxFits(box, stride, offset, n) && n <= box.height
    requires Distinct(Addrs(iov))
    requires var g := GeometryOf(box, stride, offset);
      Transferred(mem0, blob0, mem1, blob1, ListRows(iov, g, n), BlobRows(iov, g, n), false)
    ensures BoxRead(iov, box, stride, offset, n, blob0, mem0, mem1) && blob1 == blob0
  {
    hide GeometryOf, ListRows, BlobRows, Addrs, Unshift, Touched, Straight, Transferred;
    hide PixelPos, ListAt, Step, BoxFits, Typed;
    var g := GeometryOf(box, stride, offset);
    BoxGeometry(box, stride, offset, |blob0|, n);
    FromBlobIsAffine(iov, g, n, mem0, blob0, mem1, blob1);
    forall h: nat, c: nat | InList(iov, box, stride, offset, n, h, c)
      ensures var to, from := Addrs(iov)[ListAt(box, stride, offset, h, c)], PixelPos(box, stride, h, c);
        0 <= from < |blob0| && to < |mem1| && mem1[to] == blob0[from]
    {
      PixelTouched(iov, box, stride, offset, |blob0|, n, h, c);
    }
    forall a | 0 <= a < |mem0| && mem1[a] != mem0[a]
      ensures exists h: nat, c: nat ::
        InList(iov, box, stride, offset, n, h, c) && a == Addrs(iov)[ListAt(box, stride, offset, h, c)]
    {
      var b: nat :| Touched(iov, g, n, b) && 0 <= Unshift(g, b) < |Addrs(iov)| && a == Addrs(iov)[Unshift(g, b)];
      var h, c := TouchedPixel(iov, box, stride, offset, |blob0|, n, b);
    }
  }
}
