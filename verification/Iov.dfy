/**
 * Scatter/gather lists over one guest memory: reading, writing and copying byte ranges that straddle segments.
 *
 * The reference is the flat sequence of addresses a list denotes.  A read gathers a slice of it, a write stores to
 * exactly that slice, and a copy between lists that may share memory in any way has the meaning of a memmove.
 */
module Iov {
  import opened Bags

  type Byte = bv8

  /** A `struct iovec`: `len` bytes of memory from `base`. */
  datatype Segment = Segment(base: nat, len: nat)

  ghost predicate Within(iov: seq<Segment>, size: nat) {
    forall i :: 0 <= i < |iov| ==> iov[i].base + iov[i].len <= size
  }

  // --- the flat view -------------------------------------------------------------------------

  ghost function Range(base: nat, len: nat): (r: seq<nat>)
    ensures |r| == len && forall k :: 0 <= k < len ==> r[k] == base + k
  {
    seq(len, k requires 0 <= k < len => base + k)
  }

  /** The addresses a list denotes, in order. */
  ghost function Addrs(iov: seq<Segment>): (r: seq<nat>) {
    if iov == [] then [] else Range(iov[0].base, iov[0].len) + Addrs(iov[1..])
  }

  ghost function Min(a: int, b: int): int {
    if a < b then a else b
  }

  /** At most `n` elements from position `off`, and nothing when `off` is past the end. */
  ghost function Slice<T>(xs: seq<T>, off: nat, n: nat): (r: seq<T>)
    ensures |r| == if off >= |xs| then 0 else Min(n, |xs| - off)
  {
    if off >= |xs| then [] else xs[off..Min(off + n, |xs|)]
  }

  ghost predicate Inside(addrs: seq<nat>, size: nat) {
    forall k :: 0 <= k < |addrs| ==> addrs[k] < size
  }

  ghost predicate Distinct(addrs: seq<nat>) {
    forall i, j :: 0 <= i < j < |addrs| ==> addrs[i] != addrs[j]
  }

  ghost function Gather(mem: seq<Byte>, addrs: seq<nat>): (r: seq<Byte>)
    requires Inside(addrs, |mem|)
    ensures |r| == |addrs|
  {
    seq(|addrs|, k requires 0 <= k < |addrs| => mem[addrs[k]])
  }

  /** Stores `data` byte by byte, in order, so that a repeated address keeps the last byte. */
  ghost function Scatter(mem: seq<Byte>, addrs: seq<nat>, data: seq<Byte>): (r: seq<Byte>)
    requires Inside(addrs, |mem|) && |addrs| == |data|
    ensures |r| == |mem|
    decreases |addrs|
  {
    if addrs == [] then mem
    else
      assert forall k :: 0 <= k < |addrs[1..]| ==> addrs[1..][k] == addrs[k + 1];
      Scatter(mem[addrs[0] := data[0]], addrs[1..], data[1..])
  }

  lemma {:induction false} AddrsInside(iov: seq<Segment>, size: nat)
    requires Within(iov, size)
    ensures Inside(Addrs(iov), size)
  {
    if iov != [] {
      AddrsInside(iov[1..], size);
    }
  }

  lemma SliceInside(addrs: seq<nat>, off: nat, n: nat, size: nat)
    requires Inside(addrs, size)
    ensures Inside(Slice(addrs, off, n), size)
  {
  }

  // --- one segment at a time -----------------------------------------------------------------

  lemma AddrsSplit(iov: seq<Segment>)
    requires iov != []
    ensures Addrs(iov) == Range(iov[0].base, iov[0].len) + Addrs(iov[1..])
  {
  }

  lemma SliceConcat<T>(a: seq<T>, b: seq<T>, off: nat, n: nat)
    ensures |a| <= off ==> Slice(a + b, off, n) == Slice(b, off - |a|, n)
    ensures |a| > off ==> var len := Min(|a| - off, n); Slice(a + b, off, n) == a[off..off + len] + Slice(b, 0, n - len)
  {
  }

  /** A segment that ends at or before the offset contributes nothing. */
  lemma SliceSkip(iov: seq<Segment>, off: nat, n: nat)
    requires iov != [] && iov[0].len <= off
    ensures Slice(Addrs(iov), off, n) == Slice(Addrs(iov[1..]), off - iov[0].len, n)
  {
    hide Addrs, Slice, Range;
    AddrsSplit(iov);
    SliceConcat(Range(iov[0].base, iov[0].len), Addrs(iov[1..]), off, n);
  }

  /** A segment that reaches past the offset contributes a range, and the rest starts at offset 0. */
  lemma SliceTake(iov: seq<Segment>, off: nat, n: nat, len: nat)
    requires iov != [] && iov[0].len > off
    requires len == Min(iov[0].len - off, n)
    ensures Slice(Addrs(iov), off, n) == Range(iov[0].base + off, len) + Slice(Addrs(iov[1..]), 0, n - len)
  {
    hide Addrs, Slice, Range;
    AddrsSplit(iov);
    var r := Range(iov[0].base, iov[0].len);
    SliceConcat(r, Addrs(iov[1..]), off, n);
    assert r[off..off + len] == Range(iov[0].base + off, len);
  }

  lemma Joined<T>(a: seq<T>, b: seq<T>, c: seq<T>)
    ensures a + (b + c) == (a + b) + c
  {
  }

  /** One segment's share moves from what is to come to what is done. */
  lemma TakeMore(all: seq<nat>, done: seq<nat>, iov: seq<Segment>, i: nat, off: nat, n: nat, len: nat)
    requires i < |iov| && iov[i].len > off && len == Min(iov[i].len - off, n)
    requires all == done + Slice(Addrs(iov[i..]), off, n)
    ensures all == (done + Range(iov[i].base + off, len)) + Slice(Addrs(iov[i + 1..]), 0, n - len)
  {
    hide Addrs, Slice, Range;
    assert iov[i..][1..] == iov[i + 1..];
    SliceTake(iov[i..], off, n, len);
    Joined(done, Range(iov[i].base + off, len), Slice(Addrs(iov[i + 1..]), 0, n - len));
  }

  lemma {:induction false} ScatterAppend(mem: seq<Byte>, a: seq<nat>, b: seq<nat>, x: seq<Byte>, y: seq<Byte>)
    requires Inside(a, |mem|) && Inside(b, |mem|) && |a| == |x| && |b| == |y|
    ensures Inside(a + b, |mem|) && Scatter(mem, a + b, x + y) == Scatter(Scatter(mem, a, x), b, y)
    decreases |a|
  {
    if a == [] {
      assert a + b == b && x + y == y;
    } else {
      assert (a + b)[1..] == a[1..] + b && (x + y)[1..] == x[1..] + y;
      ScatterAppend(mem[a[0] := x[0]], a[1..], b, x[1..], y);
    }
  }

  /** Scattering over a contiguous range is a block copy. */
  lemma {:induction false} ScatterRange(mem: seq<Byte>, base: nat, data: seq<Byte>)
    requires base + |data| <= |mem|
    ensures Scatter(mem, Range(base, |data|), data) == mem[..base] + data + mem[base + |data|..]
    decreases |data|
  {
    var r := Range(base, |data|);
    if data != [] {
      assert r[1..] == Range(base + 1, |data| - 1);
      ScatterRange(mem[base := data[0]], base + 1, data[1..]);
    }
  }

  // --- what a scatter does to memory ---------------------------------------------------------

  lemma {:induction false} ScatterFrame(mem: seq<Byte>, addrs: seq<nat>, data: seq<Byte>, a: nat)
    requires Inside(addrs, |mem|) && |addrs| == |data|
    requires a < |mem| && a !in addrs
    ensures Scatter(mem, addrs, data)[a] == mem[a]
    decreases |addrs|
  {
    if addrs != [] {
      ScatterFrame(mem[addrs[0] := data[0]], addrs[1..], data[1..], a);
    }
  }

  lemma {:induction false} ScatterAt(mem: seq<Byte>, addrs: seq<nat>, data: seq<Byte>, k: nat)
    requires Inside(addrs, |mem|) && |addrs| == |data| && Distinct(addrs) && k < |addrs|
    ensures Scatter(mem, addrs, data)[addrs[k]] == data[k]
    decreases |addrs|
  {
    var m := mem[addrs[0] := data[0]];
    if k == 0 {
      assert addrs[0] !in addrs[1..];
      ScatterFrame(m, addrs[1..], data[1..], addrs[0]);
    } else {
      ScatterAt(m, addrs[1..], data[1..], k - 1);
    }
  }

  /** Addresses may repeat as long as each is always given the same byte. */
  ghost predicate Consistent(addrs: seq<nat>, data: seq<Byte>)
    requires |addrs| == |data|
  {
    forall i, j :: 0 <= i < |addrs| && 0 <= j < |addrs| && addrs[i] == addrs[j] ==> data[i] == data[j]
  }

  lemma {:induction false} ScatterConsistent(mem: seq<Byte>, addrs: seq<nat>, data: seq<Byte>, k: nat)
    requires Inside(addrs, |mem|) && |addrs| == |data| && Consistent(addrs, data) && k < |addrs|
    ensures Scatter(mem, addrs, data)[addrs[k]] == data[k]
    decreases |addrs|
  {
    var m := mem[addrs[0] := data[0]];
    if addrs[k] !in addrs[1..] {
      assert k == 0;
      ScatterFrame(m, addrs[1..], data[1..], addrs[0]);
    } else {
      var j :| 0 <= j < |addrs[1..]| && addrs[1..][j] == addrs[k];
      assert data[j + 1] == data[k];
      ScatterConsistent(m, addrs[1..], data[1..], j);
    }
  }

  lemma GatherConsistent(mem: seq<Byte>, addrs: seq<nat>, data: seq<Byte>)
    requires Inside(addrs, |mem|) && |addrs| == |data| && Consistent(addrs, data)
    ensures Gather(Scatter(mem, addrs, data), addrs) == data
  {
    forall k | 0 <= k < |addrs| ensures Gather(Scatter(mem, addrs, data), addrs)[k] == data[k] {
      ScatterConsistent(mem, addrs, data, k);
    }
  }

  lemma GatherScatter(mem: seq<Byte>, addrs: seq<nat>, data: seq<Byte>)
    requires Inside(addrs, |mem|) && |addrs| == |data| && Distinct(addrs)
    ensures Gather(Scatter(mem, addrs, data), addrs) == data
  {
    forall k | 0 <= k < |addrs| ensures Gather(Scatter(mem, addrs, data), addrs)[k] == data[k] {
      ScatterAt(mem, addrs, data, k);
    }
  }

  lemma {:induction false} ScatterGather(mem: seq<Byte>, addrs: seq<nat>)
    requires Inside(addrs, |mem|)
    ensures Scatter(mem, addrs, Gather(mem, addrs)) == mem
    decreases |addrs|
  {
    if addrs != [] {
      var g := Gather(mem, addrs);
      assert mem[addrs[0] := g[0]] == mem;
      assert g[1..] == Gather(mem, addrs[1..]);
      ScatterGather(mem, addrs[1..]);
    }
  }

  // --- the loops -----------------------------------------------------------------------------

  /** When the walk ends with its offset consumed, which is what the routines assert on exit. */
  ghost predicate Lands(iov: seq<Segment>, offset: nat, count: nat) {
    offset == 0 || (count > 0 && offset <= |Addrs(iov)|)
  }

  lemma LandsStep(iov: seq<Segment>, offset: nat, count: nat)
    requires iov != [] && count > 0
    ensures iov[0].len > offset ==> Lands(iov, offset, count) && forall n: nat :: Lands(iov[1..], 0, n)
    ensures iov[0].len <= offset ==> (Lands(iov, offset, count) <==> Lands(iov[1..], offset - iov[0].len, count))
  {
  }

  lemma NothingYet(mem: seq<Byte>)
    ensures Scatter(mem, [], []) == mem && Addrs(Covered([])) == []
  {
  }

  lemma WalkEnds(iov: seq<Segment>, offset: nat, count: nat)
    requires count == 0 || iov == []
    ensures Slice(Addrs(iov), offset, count) == [] && (Lands(iov, offset, count) <==> offset == 0)
  {
  }

  /** A buffer once `data` was stored to it from `at` on. */
  ghost function Loaded(buf: seq<Byte>, at: nat, data: seq<Byte>): (r: seq<Byte>)
    requires at + |data| <= |buf|
    ensures |r| == |buf|
  {
    buf[..at] + data + buf[at + |data|..]
  }

  lemma LoadedMore(buf: seq<Byte>, at: nat, x: seq<Byte>, y: seq<Byte>)
    requires at + |x| + |y| <= |buf|
    ensures Loaded(Loaded(buf, at, x), at + |x|, y) == Loaded(buf, at, x + y)
  {
  }

  lemma NothingLoaded(mem: seq<Byte>, buf: seq<Byte>, at: nat)
    requires at <= |buf|
    ensures Gather(mem, []) == [] && Loaded(buf, at, []) == buf
  {
  }

  /** `memcpy` out of memory. */
  method LoadBlock(mem: array<Byte>, from: nat, buf: array<Byte>, at: nat, len: nat)
    requires mem != buf && from + len <= mem.Length && at + len <= buf.Length
    modifies buf
    ensures Inside(Range(from, len), mem.Length)
      && buf[..] == Loaded(old(buf[..]), at, Gather(mem[..], Range(from, len)))
  {
    forall k | 0 <= k < len {
      buf[at + k] := mem[from + k];
    }
  }

  /**
   * Copies a slice of the list to `buf` from `at` on: its length, its bytes, and nothing past them. `rest` is the
   * final offset.
   */
  method ReadFromIovec(mem: array<Byte>, iov: seq<Segment>, offset: nat, buf: array<Byte>, at: nat, count: nat)
    returns (read: nat, rest: nat)
    requires Within(iov, mem.Length) && mem != buf && at + |Slice(Addrs(iov), offset, count)| <= buf.Length
    modifies buf
    ensures var a := Slice(Addrs(iov), offset, count);
      Inside(a, mem.Length) && read == |a| && buf[..] == Loaded(old(buf[..]), at, Gather(mem[..], a))
    ensures rest == 0 <==> Lands(iov, offset, count)
  {
    hide Addrs, Slice, Lands, Range, Scatter, Gather, Loaded;
    ghost var all := Slice(Addrs(iov), offset, count);
    AddrsInside(iov, mem.Length);
    SliceInside(Addrs(iov), offset, count, mem.Length);
    read, rest := 0, offset;
    var left: nat := count;
    var i := 0;
    ghost var done: seq<nat> := [];
    assert iov[0..] == iov;
    NothingLoaded(mem[..], buf[..], at);
    while left > 0 && i < |iov|
      invariant 0 <= i <= |iov| && left == count - read && |done| == read
      invariant all == done + Slice(Addrs(iov[i..]), rest, left)
      invariant read <= |all|
      invariant Inside(done, mem.Length) && buf[..] == Loaded(old(buf[..]), at, Gather(mem[..], done))
      invariant Lands(iov[i..], rest, left) <==> Lands(iov, offset, count)
      decreases |iov| - i
    {
      LandsStep(iov[i..], rest, left);
      assert iov[i..][1..] == iov[i + 1..];
      if iov[i].len > rest {
        var len := iov[i].len - rest;
        if left < len {
          len := left;
        }
        TakeMore(all, done, iov, i, rest, left, len);
        var from := iov[i].base + rest;
        LoadBlock(mem, from, buf, at + read, len);
        GatherAppend(mem[..], done, Range(from, len));
        LoadedMore(old(buf[..]), at, Gather(mem[..], done), Gather(mem[..], Range(from, len)));
        done := done + Range(from, len);
        read := read + len;
        left := left - len;
        rest := 0;
      } else {
        SliceSkip(iov[i..], rest, left);
        rest := rest - iov[i].len;
      }
      i := i + 1;
    }
    WalkEnds(iov[i..], rest, left);
    assert all == done;
  }

  /** `memcpy` into memory. */
  method StoreBlock(mem: array<Byte>, to: nat, buf: array<Byte>, from: nat, len: nat)
    requires mem != buf && to + len <= mem.Length && from + len <= buf.Length
    modifies mem
    ensures mem[..] == Scatter(old(mem[..]), Range(to, len), buf[from..from + len])
  {
    ghost var block := buf[from..from + len];
    ScatterRange(mem[..], to, block);
    forall k | 0 <= k < len {
      mem[to + k] := buf[from + k];
    }
    assert block == buf[from..from + len];
    assert mem[..] == old(mem[..])[..to] + block + old(mem[..])[to + len..];
  }

  /** Stores `buf`, from `at` on, to a slice of the list and to no other address. `rest` is the final offset. */
  method WriteToIovec(mem: array<Byte>, iov: seq<Segment>, offset: nat, buf: array<Byte>, at: nat, count: nat)
    returns (written: nat, rest: nat)
    requires Within(iov, mem.Length) && mem != buf && at + |Slice(Addrs(iov), offset, count)| <= buf.Length
    modifies mem
    ensures var a := Slice(Addrs(iov), offset, count);
      Inside(a, mem.Length) && written == |a| && mem[..] == Scatter(old(mem[..]), a, buf[at..at + written])
    ensures rest == 0 <==> Lands(iov, offset, count)
  {
    hide Addrs, Slice, Lands, Range, Scatter, Covered;
    ghost var all := Slice(Addrs(iov), offset, count);
    AddrsInside(iov, mem.Length);
    SliceInside(Addrs(iov), offset, count, mem.Length);
    written, rest := 0, offset;
    var left: nat := count;
    var i := 0;
    ghost var done: seq<nat> := [];
    assert iov[0..] == iov;
    NothingYet(old(mem[..]));
    assert buf[at..at] == [];
    while left > 0 && i < |iov|
      invariant 0 <= i <= |iov| && left == count - written && |done| == written
      invariant written <= |all|
      invariant all == done + Slice(Addrs(iov[i..]), rest, left)
      invariant Inside(done, mem.Length) && mem[..] == Scatter(old(mem[..]), done, buf[at..at + written])
      invariant Lands(iov[i..], rest, left) <==> Lands(iov, offset, count)
      decreases |iov| - i
    {
      LandsStep(iov[i..], rest, left);
      assert iov[i..][1..] == iov[i + 1..];
      if iov[i].len > rest {
        var len := iov[i].len - rest;
        if left < len {
          len := left;
        }
        TakeMore(all, done, iov, i, rest, left, len);
        var to := iov[i].base + rest;
        ghost var block := buf[at + written..at + written + len];
        ScatterAppend(old(mem[..]), done, Range(to, len), buf[at..at + written], block);
        assert buf[at..at + written] + block == buf[at..at + written + len];
        StoreBlock(mem, to, buf, at + written, len);
        done := done + Range(to, len);
        written := written + len;
        left := left - len;
        rest := 0;
      } else {
        SliceSkip(iov[i..], rest, left);
        rest := rest - iov[i].len;
      }
      i := i + 1;
    }
    WalkEnds(iov[i..], rest, left);
    assert all == done;
  }

  /** The calls a callback walk makes: where in the result each goes, and the memory it covers. */
  ghost function Covered(calls: seq<(nat, Segment)>): (r: seq<Segment>)
    ensures |r| == |calls|
  {
    if calls == [] then [] else Covered(calls[..|calls| - 1]) + [calls[|calls| - 1].1]
  }

  lemma CoveredAppend(calls: seq<(nat, Segment)>, c: (nat, Segment))
    ensures Covered(calls + [c]) == Covered(calls) + [c.1]
  {
    assert (calls + [c])[..|calls|] == calls;
  }

  lemma {:induction false} AddrsAppend(iov: seq<Segment>, s: Segment)
    ensures Addrs(iov + [s]) == Addrs(iov) + Range(s.base, s.len)
  {
    if iov == [] {
      assert iov + [s] == [s] && [s][1..] == [];
    } else {
      assert (iov + [s])[1..] == iov[1..] + [s];
      AddrsAppend(iov[1..], s);
    }
  }

  /** The calls cover the slice in order, without gaps, and each is told where in the result its bytes belong. */
  method ReadFromIovecCallback(iov: seq<Segment>, offset: nat, count: nat)
    returns (calls: seq<(nat, Segment)>, read: nat, rest: nat)
    ensures Addrs(Covered(calls)) == Slice(Addrs(iov), offset, count) && read == |Addrs(Covered(calls))|
    ensures forall i :: 0 <= i < |calls| ==> calls[i].0 == |Addrs(Covered(calls[..i]))| && calls[i].1.len > 0
    ensures rest == 0 <==> Lands(iov, offset, count)
  {
    hide Addrs, Slice, Lands, Range, Scatter, Covered;
    ghost var all := Slice(Addrs(iov), offset, count);
    calls, read, rest := [], 0, offset;
    var left: nat := count;
    var i := 0;
    assert iov[0..] == iov;
    NothingYet([]);
    while left > 0 && i < |iov|
      invariant 0 <= i <= |iov| && left == count - read && read == |Addrs(Covered(calls))|
      invariant all == Addrs(Covered(calls)) + Slice(Addrs(iov[i..]), rest, left)
      invariant forall j :: 0 <= j < |calls| ==> calls[j].0 == |Addrs(Covered(calls[..j]))| && calls[j].1.len > 0
      invariant Lands(iov[i..], rest, left) <==> Lands(iov, offset, count)
      decreases |iov| - i
    {
      LandsStep(iov[i..], rest, left);
      assert iov[i..][1..] == iov[i + 1..];
      if iov[i].len > rest {
        var len := iov[i].len - rest;
        if left < len {
          len := left;
        }
        TakeMore(all, Addrs(Covered(calls)), iov, i, rest, left, len);
        var block := Segment(iov[i].base + rest, len);
        AddrsAppend(Covered(calls), block);
        CoveredAppend(calls, (read, block));
        ghost var before := calls;
        calls := calls + [(read, block)];
        assert calls[..|before|] == before;
        assert forall j :: 0 <= j < |before| ==> calls[..j] == before[..j];
        read := read + len;
        left := left - len;
        rest := 0;
      } else {
        SliceSkip(iov[i..], rest, left);
        rest := rest - iov[i].len;
      }
      i := i + 1;
    }
    WalkEnds(iov[i..], rest, left);
  }

  // --- the laws ------------------------------------------------------------------------------

  /** The bytes a list denotes. */
  ghost function Flat(mem: seq<Byte>, iov: seq<Segment>): (r: seq<Byte>)
    requires Within(iov, |mem|)
  {
    AddrsInside(iov, |mem|);
    Gather(mem, Addrs(iov))
  }

  /** A read returns the slice of the flat bytes. */
  lemma ReadIsSlice(mem: seq<Byte>, iov: seq<Segment>, offset: nat, count: nat)
    requires Within(iov, |mem|)
    ensures Inside(Slice(Addrs(iov), offset, count), |mem|)
    ensures Gather(mem, Slice(Addrs(iov), offset, count)) == Slice(Flat(mem, iov), offset, count)
  {
    hide Addrs, Range;
    AddrsInside(iov, |mem|);
    SliceInside(Addrs(iov), offset, count, |mem|);
  }

  lemma DistinctSlice(addrs: seq<nat>, off: nat, n: nat)
    requires Distinct(addrs)
    ensures Distinct(Slice(addrs, off, n))
  {
  }

  /** Overwrites the slice of a flat sequence that starts at `off`. */
  ghost function Patch(flat: seq<Byte>, off: nat, data: seq<Byte>): (r: seq<Byte>)
    requires data != [] ==> off + |data| <= |flat|
  {
    if data == [] then flat else flat[..off] + data + flat[off + |data|..]
  }

  lemma SliceAt<T>(xs: seq<T>, off: nat, n: nat, x: nat)
    requires x < |Slice(xs, off, n)|
    ensures off + x < |xs| && Slice(xs, off, n)[x] == xs[off + x]
  {
  }

  /** After the scatter, the address at each position of the list holds the new byte inside the slice, else the old. */
  lemma ScatteredAt(mem: seq<Byte>, all: seq<nat>, offset: nat, data: seq<Byte>, k: nat)
    requires Inside(all, |mem|) && Distinct(all) && Inside(Slice(all, offset, |data|), |mem|)
    requires |Slice(all, offset, |data|)| == |data| && k < |all|
    ensures Scatter(mem, Slice(all, offset, |data|), data)[all[k]]
         == if offset <= k < offset + |data| then data[k - offset] else mem[all[k]]
  {
    hide Scatter, Slice;
    var a := Slice(all, offset, |data|);
    DistinctSlice(all, offset, |data|);
    if offset <= k < offset + |data| {
      SliceAt(all, offset, |data|, k - offset);
      ScatterAt(mem, a, data, k - offset);
    } else {
      forall x | 0 <= x < |a| ensures a[x] != all[k] {
        SliceAt(all, offset, |data|, x);
      }
      ScatterFrame(mem, a, data, all[k]);
    }
  }

  /** Over a list that names no address twice, a write patches the slice of the flat bytes and leaves the rest. */
  lemma WritePatches(mem: seq<Byte>, iov: seq<Segment>, offset: nat, data: seq<Byte>)
    requires Within(iov, |mem|) && Distinct(Addrs(iov))
    requires |Slice(Addrs(iov), offset, |data|)| == |data|
    ensures Inside(Slice(Addrs(iov), offset, |data|), |mem|)
    ensures Flat(Scatter(mem, Slice(Addrs(iov), offset, |data|), data), iov) == Patch(Flat(mem, iov), offset, data)
  {
    hide Addrs, Range, Scatter, Slice;
    AddrsInside(iov, |mem|);
    var all := Addrs(iov);
    SliceInside(all, offset, |data|, |mem|);
    SliceCovered(all, offset, |data|);
    var flat := Flat(Scatter(mem, Slice(all, offset, |data|), data), iov);
    var want := Patch(Flat(mem, iov), offset, data);
    forall k | 0 <= k < |all| ensures flat[k] == want[k] {
      ScatteredAt(mem, all, offset, data, k);
    }
    assert flat == want;
  }

  lemma SliceCovered<T>(xs: seq<T>, off: nat, n: nat)
    requires |Slice(xs, off, n)| == n
    ensures n > 0 ==> off + n <= |xs|
  {
  }

  /** Writing back what was read changes no byte of memory, whatever addresses the list repeats. */
  lemma WriteBackUnchanged(mem: seq<Byte>, iov: seq<Segment>, offset: nat, count: nat)
    requires Within(iov, |mem|)
    ensures var a := Slice(Addrs(iov), offset, count); Inside(a, |mem|) && Scatter(mem, a, Gather(mem, a)) == mem
  {
    AddrsInside(iov, |mem|);
    SliceInside(Addrs(iov), offset, count, |mem|);
    ScatterGather(mem, Slice(Addrs(iov), offset, count));
  }

  /** Reading what was written returns it. */
  lemma ReadAfterWrite(mem: seq<Byte>, iov: seq<Segment>, offset: nat, data: seq<Byte>)
    requires Within(iov, |mem|) && Distinct(Addrs(iov))
    requires |Slice(Addrs(iov), offset, |data|)| == |data|
    ensures var a := Slice(Addrs(iov), offset, |data|);
      Inside(a, |mem|) && Gather(Scatter(mem, a, data), a) == data
  {
    AddrsInside(iov, |mem|);
    SliceInside(Addrs(iov), offset, |data|, |mem|);
    DistinctSlice(Addrs(iov), offset, |data|);
    GatherScatter(mem, Slice(Addrs(iov), offset, |data|), data);
  }

  // --- copying between lists -----------------------------------------------------------------

  /** A list as the caller passes it: the address of its segment array, and the segments. */
  datatype List = List(ptr: nat, segments: seq<Segment>)

  ghost predicate Covers(iov: seq<Segment>, offset: nat, count: nat) {
    count == 0 || offset + count <= |Addrs(iov)|
  }

  ghost predicate SamePlace(src: Option<List>, srcOffset: nat, dst: Option<List>, dstOffset: nat) {
    src.Some? && dst.Some? && src.value.ptr == dst.value.ptr && srcOffset == dstOffset
  }

  /** The copy gets as far as storing: both lists are there, not at the same place, and the source range is covered. */
  ghost predicate Stores(src: Option<List>, srcOffset: nat, dst: Option<List>, dstOffset: nat, count: nat) {
    src.Some? && dst.Some? && !SamePlace(src, srcOffset, dst, dstOffset) && Covers(src.value.segments, srcOffset, count)
  }

  /**
   * Copies through a temporary buffer, the caller's or a new one; `memoryLeft` says whether one can be allocated.
   *
   * The result is 0 exactly when the lists are there and are the same list at the same offset, or a buffer is to be
   * had and both ranges are covered.  The bytes stored are those the source held before the call, however the two
   * lists overlap.
   */
  method CopyIovec(mem: array<Byte>, src: Option<List>, srcOffset: nat, dst: Option<List>, dstOffset: nat,
                   count: nat, temporary: array?<Byte>, memoryLeft: bool) returns (ret: int)
    requires src.Some? ==> Within(src.value.segments, mem.Length)
    requires dst.Some? ==> Within(dst.value.segments, mem.Length)
    requires temporary != null ==> temporary != mem && count <= temporary.Length
    modifies mem, temporary
    ensures ret == 0 || ret == -1
    ensures ret == 0 <==>
      || SamePlace(src, srcOffset, dst, dstOffset)
      || ((temporary != null || memoryLeft) && Stores(src, srcOffset, dst, dstOffset, count)
          && Covers(dst.value.segments, dstOffset, count))
    ensures if (temporary != null || memoryLeft) && Stores(src, srcOffset, dst, dstOffset, count) then
              var a := Slice(Addrs(src.value.segments), srcOffset, count);
              var b := Slice(Addrs(dst.value.segments), dstOffset, count);
              && Inside(a, mem.Length) && Inside(b, mem.Length) && |b| <= |a|
              && mem[..] == Scatter(old(mem[..]), b, Gather(old(mem[..]), a)[..|b|])
            else mem[..] == old(mem[..])
  {
    if src.None? || dst.None? {
      return -1;
    }
    if src.value.ptr == dst.value.ptr && srcOffset == dstOffset {
      return 0;
    }
    if temporary == null && !memoryLeft {
      return -1;
    }
    var buf: array<Byte>;
    if temporary == null {
      buf := new Byte[count];
    } else {
      buf := temporary;
    }
    var nread, _ := ReadFromIovec(mem, src.value.segments, srcOffset, buf, 0, count);
    if nread != count {
      return -1;
    }
    var nwritten, _ := WriteToIovec(mem, dst.value.segments, dstOffset, buf, 0, count);
    ghost var data := Gather(old(mem[..]), Slice(Addrs(src.value.segments), srcOffset, count));
    assert buf[..nwritten] == data[..nwritten];
    if nwritten != count {
      return -1;
    }
    return 0;
  }

  /**
   * What a successful copy means: over a destination that names no address twice, the destination range holds the
   * bytes the source range held before, also when the two share memory, and no address outside it changed.
   */
  lemma CopyIsMove(mem: seq<Byte>, src: seq<Segment>, srcOffset: nat, dst: seq<Segment>, dstOffset: nat, count: nat)
    requires Within(src, |mem|) && Within(dst, |mem|) && Distinct(Addrs(dst))
    requires Covers(src, srcOffset, count) && Covers(dst, dstOffset, count)
    ensures var a := Slice(Addrs(src), srcOffset, count);
            var b := Slice(Addrs(dst), dstOffset, count);
            && Inside(a, |mem|) && Inside(b, |mem|) && |a| == |b| == count
            && var after := Scatter(mem, b, Gather(mem, a));
               && Slice(Flat(after, dst), dstOffset, count) == Slice(Flat(mem, src), srcOffset, count)
               && forall x: nat :: x < |mem| && x !in b ==> after[x] == mem[x]
  {
    var a := Slice(Addrs(src), srcOffset, count);
    var b := Slice(Addrs(dst), dstOffset, count);
    ReadIsSlice(mem, src, srcOffset, count);
    ReadIsSlice(mem, dst, dstOffset, count);
    var data := Gather(mem, a);
    var after := Scatter(mem, b, data);
    ReadAfterWrite(mem, dst, dstOffset, data);
    ReadIsSlice(after, dst, dstOffset, count);
    forall x: nat | x < |mem| && x !in b ensures after[x] == mem[x] {
      ScatterFrame(mem, b, data, x);
    }
  }

  // --- transfers between memory and an image -------------------------------------------------

  /** Guest memory and an image once the bytes at the given guest addresses and image positions were transferred. */
  ghost predicate Transferred(mem0: seq<Byte>, image0: seq<Byte>, mem: seq<Byte>, image: seq<Byte>,
                              guest: seq<nat>, place: seq<nat>, toHost: bool) {
    && Inside(guest, |mem0|) && Inside(place, |image0|) && |guest| == |place|
    && if toHost then mem == mem0 && image == Scatter(image0, place, Gather(mem0, guest))
       else image == image0 && mem == Scatter(mem0, guest, Gather(image0, place))
  }

  lemma GatherAppend(mem: seq<Byte>, a: seq<nat>, b: seq<nat>)
    requires Inside(a, |mem|) && Inside(b, |mem|)
    ensures Inside(a + b, |mem|) && Gather(mem, a + b) == Gather(mem, a) + Gather(mem, b)
  {
  }

  lemma TransferredMore(mem0: seq<Byte>, image0: seq<Byte>, mem1: seq<Byte>, image1: seq<Byte>, mem2: seq<Byte>,
                        image2: seq<Byte>,
                        guest: seq<nat>, place: seq<nat>, g: seq<nat>, h: seq<nat>, toHost: bool)
    requires Transferred(mem0, image0, mem1, image1, guest, place, toHost)
    requires Transferred(mem1, image1, mem2, image2, g, h, toHost)
    ensures Transferred(mem0, image0, mem2, image2, guest + g, place + h, toHost)
  {
    if toHost {
      GatherAppend(mem0, guest, g);
      ScatterAppend(image0, place, h, Gather(mem0, guest), Gather(mem0, g));
    } else {
      GatherAppend(image0, place, h);
      ScatterAppend(mem0, guest, g, Gather(image0, place), Gather(image0, h));
    }
  }
}
