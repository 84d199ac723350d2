/**
 * Transfers between a mapped image plane and a scatter/gather list: the walk that advances a row cursor and a
 * segment cursor together, against a plain row-by-row copy over the flat address sequence.
 */
module GbmTransfer {
  import opened Iov
  import opened Machine

  // --- positions of segments -----------------------------------------------------------------

  /** Flat position at which segment `i` starts. */
  ghost function Start(iov: seq<Segment>, i: nat): (r: nat)
    requires i <= |iov|
  {
    if i == 0 then 0 else Start(iov, i - 1) + iov[i - 1].len
  }

  lemma {:induction false} StartMonotone(iov: seq<Segment>, i: nat, j: nat)
    requires i <= j <= |iov|
    ensures Start(iov, i) <= Start(iov, j)
    decreases j
  {
    if i < j {
      StartMonotone(iov, i, j - 1);
    }
  }

  lemma {:induction false} StartTail(iov: seq<Segment>, i: nat)
    requires 0 < i <= |iov|
    ensures Start(iov, i) == iov[0].len + Start(iov[1..], i - 1)
    decreases i
  {
    if i > 1 {
      StartTail(iov, i - 1);
    }
  }

  lemma {:induction false} AddrsSize(iov: seq<Segment>)
    ensures |Addrs(iov)| == Start(iov, |iov|)
  {
    if iov != [] {
      AddrsSize(iov[1..]);
      StartTail(iov, |iov|);
    }
  }

  /** Segment `i` holds the addresses from its start on. */
  lemma {:induction false} SegmentAddrs(iov: seq<Segment>, i: nat)
    requires i < |iov|
    ensures Start(iov, i) + iov[i].len <= |Addrs(iov)|
    ensures Addrs(iov)[Start(iov, i)..Start(iov, i) + iov[i].len] == Range(iov[i].base, iov[i].len)
    decreases i
  {
    var rest := Addrs(iov[1..]);
    var head := Range(iov[0].base, iov[0].len);
    assert Addrs(iov) == head + rest;
    if i > 0 {
      SegmentAddrs(iov[1..], i - 1);
      StartTail(iov, i);
      var at := Start(iov[1..], i - 1);
      assert (head + rest)[|head| + at..|head| + at + iov[i].len] == rest[at..at + iov[i].len];
    }
  }

  // --- the reference: row by row -------------------------------------------------------------

  /** Geometry of one plane: rows of `row` bytes, `stride` apart in the guest and `hostStride` apart in the image. */
  datatype Plane = Plane(rows: nat, row: nat, offset: nat, stride: nat, hostStride: nat)

  ghost function RowStart(p: Plane, h: nat): nat {
    p.offset + h * p.stride
  }

  ghost function RowHost(p: Plane, h: nat): nat {
    h * p.hostStride
  }

  /** The first `n` bytes from flat position `lo` exist, and no empty segment lies strictly inside them. */
  ghost predicate Clear(iov: seq<Segment>, lo: nat, n: nat) {
    && (n > 0 ==> lo + n <= |Addrs(iov)|)
    && forall j :: 0 <= j < |iov| && iov[j].len == 0 ==> !(lo < Start(iov, j) < lo + n)
  }

  /** How many bytes of a row starting at `lo` are transferred: the longest clear prefix. */
  ghost function Reach(iov: seq<Segment>, lo: nat, row: nat): (n: nat)
    ensures n <= row && Clear(iov, lo, n)
    ensures n < row ==> !Clear(iov, lo, n + 1)
  {
    if row == 0 || Clear(iov, lo, row) then row else Reach(iov, lo, row - 1)
  }

  lemma ClearShrinks(iov: seq<Segment>, lo: nat, n: nat, m: nat)
    requires Clear(iov, lo, n) && m <= n
    ensures Clear(iov, lo, m)
  {
  }

  lemma ReachIs(iov: seq<Segment>, lo: nat, row: nat, n: nat)
    requires n <= row && Clear(iov, lo, n)
    requires n == row || !Clear(iov, lo, n + 1)
    ensures Reach(iov, lo, row) == n
  {
    hide Clear;
    forall a: nat, b: nat | b <= a && Clear(iov, lo, a) ensures Clear(iov, lo, b) {
      ClearShrinks(iov, lo, a, b);
    }
  }

  /** Guest addresses transferred by the first `h` rows, in order. */
  ghost function GuestRows(iov: seq<Segment>, p: Plane, h: nat): (r: seq<nat>) {
    if h == 0 then []
    else GuestRows(iov, p, h - 1) + Slice(Addrs(iov), RowStart(p, h - 1), Reach(iov, RowStart(p, h - 1), p.row))
  }

  /** Image positions transferred by the first `h` rows, in order. */
  ghost function HostRows(iov: seq<Segment>, p: Plane, h: nat): (r: seq<nat>) {
    if h == 0 then []
    else HostRows(iov, p, h - 1) + Range(RowHost(p, h - 1), Reach(iov, RowStart(p, h - 1), p.row))
  }

  // --- what a row and a segment have in common -----------------------------------------------

  lemma StartBound(iov: seq<Segment>, i: nat)
    requires i <= |iov|
    ensures Start(iov, i) <= |Addrs(iov)|
  {
    AddrsSize(iov);
    StartMonotone(iov, i, |iov|);
  }

  lemma NextRowStart(p: Plane, h: nat)
    ensures RowStart(p, h + 1) == RowStart(p, h) + p.stride
  {
  }

  lemma RangeGrows(base: nat, m: nat, n: nat)
    ensures Range(base, m) + Range(base + m, n) == Range(base, m + n)
  {
  }

  ghost function Low(iov: seq<Segment>, p: Plane, h: nat, i: nat): nat
    requires i < |iov|
  {
    if Start(iov, i) > RowStart(p, h) then Start(iov, i) else RowStart(p, h)
  }

  ghost function High(iov: seq<Segment>, p: Plane, h: nat, i: nat): nat
    requires i < |iov|
  {
    if Start(iov, i) + iov[i].len < RowStart(p, h) + p.row then Start(iov, i) + iov[i].len else RowStart(p, h) + p.row
  }

  /** Guest addresses of the bytes that the row and the segment have in common. */
  ghost function GuestBlock(iov: seq<Segment>, p: Plane, h: nat, i: nat): seq<nat>
    requires i < |iov| && Low(iov, p, h, i) < High(iov, p, h, i)
  {
    Range(iov[i].base + (Low(iov, p, h, i) - Start(iov, i)), High(iov, p, h, i) - Low(iov, p, h, i))
  }

  /** Image positions of the same bytes. */
  ghost function HostBlock(iov: seq<Segment>, p: Plane, h: nat, i: nat): seq<nat>
    requires i < |iov| && Low(iov, p, h, i) < High(iov, p, h, i)
  {
    Range(RowHost(p, h) + (Low(iov, p, h, i) - RowStart(p, h)), High(iov, p, h, i) - Low(iov, p, h, i))
  }

  lemma BlockAddrs(iov: seq<Segment>, p: Plane, h: nat, i: nat)
    requires i < |iov| && Low(iov, p, h, i) < High(iov, p, h, i)
    ensures High(iov, p, h, i) <= |Addrs(iov)|
    ensures Addrs(iov)[Low(iov, p, h, i)..High(iov, p, h, i)] == GuestBlock(iov, p, h, i)
  {
    hide Addrs, Start, RowStart, RowHost, Range;
    var s := Start(iov, i);
    var lo, hi := Low(iov, p, h, i), High(iov, p, h, i);
    SegmentAddrs(iov, i);
    SubRange(Addrs(iov), s, lo, hi, iov[i].base, iov[i].len);
  }

  lemma SubRange(a: seq<nat>, s: nat, lo: nat, hi: nat, base: nat, len: nat)
    requires s <= lo <= hi <= s + len <= |a| && a[s..s + len] == Range(base, len)
    ensures a[lo..hi] == Range(base + (lo - s), hi - lo)
  {
    var r := a[s..s + len];
    forall k | 0 <= k < hi - lo ensures a[lo..hi][k] == base + (lo - s) + k {
      assert r[lo - s + k] == a[lo + k];
    }
  }

  lemma RowStartMonotone(p: Plane, g: nat, h: nat)
    requires g <= h
    ensures RowStart(p, g) <= RowStart(p, h)
  {
    assert (h - g) * p.stride >= 0;
  }

  // --- the walk, row by row ------------------------------------------------------------------

  /** The segment cursor moves on, rather than the row cursor. */
  ghost predicate Advances(iov: seq<Segment>, p: Plane, h: nat, i: nat)
    requires i < |iov|
  {
    if Low(iov, p, h, i) < High(iov, p, h, i) then High(iov, p, h, i) >= Start(iov, i) + iov[i].len
    else RowStart(p, h) >= Start(iov, i)
  }

  /** Where the segment cursor is when row `h`, entered at segment `i`, is left. */
  ghost function RowEnd(iov: seq<Segment>, p: Plane, h: nat, i: nat): (e: nat)
    requires i <= |iov|
    ensures i <= e <= |iov|
    decreases |iov| - i
  {
    if i < |iov| && Advances(iov, p, h, i) then RowEnd(iov, p, h, i + 1) else i
  }

  ghost function GuestShare(iov: seq<Segment>, p: Plane, h: nat, i: nat): seq<nat>
    requires i < |iov|
  {
    if Low(iov, p, h, i) < High(iov, p, h, i) then GuestBlock(iov, p, h, i) else []
  }

  ghost function HostShare(iov: seq<Segment>, p: Plane, h: nat, i: nat): seq<nat>
    requires i < |iov|
  {
    if Low(iov, p, h, i) < High(iov, p, h, i) then HostBlock(iov, p, h, i) else []
  }

  /** Guest addresses transferred by row `h` from segment `i` on. */
  ghost function GuestRow(iov: seq<Segment>, p: Plane, h: nat, i: nat): seq<nat>
    requires i <= |iov|
    decreases |iov| - i
  {
    if i == |iov| then []
    else GuestShare(iov, p, h, i) + (if Advances(iov, p, h, i) then GuestRow(iov, p, h, i + 1) else [])
  }

  ghost function HostRow(iov: seq<Segment>, p: Plane, h: nat, i: nat): seq<nat>
    requires i <= |iov|
    decreases |iov| - i
  {
    if i == |iov| then []
    else HostShare(iov, p, h, i) + (if Advances(iov, p, h, i) then HostRow(iov, p, h, i + 1) else [])
  }

  /** The segment at which row `h` is entered: the cursor never goes back. */
  ghost function Cursor(iov: seq<Segment>, p: Plane, h: nat): (i: nat)
    ensures i <= |iov|
  {
    if h == 0 then 0 else RowEnd(iov, p, h - 1, Cursor(iov, p, h - 1))
  }

  /** What the walk transfers in its first `n` rows, whatever the stride. */
  ghost function WalkGuest(iov: seq<Segment>, p: Plane, n: nat): seq<nat> {
    if n == 0 then [] else WalkGuest(iov, p, n - 1) + GuestRow(iov, p, n - 1, Cursor(iov, p, n - 1))
  }

  ghost function WalkHost(iov: seq<Segment>, p: Plane, n: nat): seq<nat> {
    if n == 0 then [] else WalkHost(iov, p, n - 1) + HostRow(iov, p, n - 1, Cursor(iov, p, n - 1))
  }

  /** At segment `i` of row `h`, `guest` and `host` having been transferred. */
  ghost predicate Under(iov: seq<Segment>, p: Plane, h: nat, i: nat, guest: seq<nat>, host: seq<nat>) {
    && i <= |iov| && Cursor(iov, p, h + 1) == RowEnd(iov, p, h, i)
    && WalkGuest(iov, p, h + 1) == guest + GuestRow(iov, p, h, i)
    && WalkHost(iov, p, h + 1) == host + HostRow(iov, p, h, i)
  }

  lemma UnderStart(iov: seq<Segment>, p: Plane, h: nat)
    ensures Under(iov, p, h, Cursor(iov, p, h), WalkGuest(iov, p, h), WalkHost(iov, p, h))
  {
    hide GuestRow, HostRow, RowEnd;
  }

  lemma UnderSegment(iov: seq<Segment>, p: Plane, h: nat, i: nat, guest: seq<nat>, host: seq<nat>)
    requires i < |iov| && Under(iov, p, h, i, guest, host) && Advances(iov, p, h, i)
    ensures Under(iov, p, h, i + 1, guest + GuestShare(iov, p, h, i), host + HostShare(iov, p, h, i))
  {
    hide GuestShare, HostShare, Advances, WalkGuest, WalkHost, Cursor;
    Joined(guest, GuestShare(iov, p, h, i), GuestRow(iov, p, h, i + 1));
    Joined(host, HostShare(iov, p, h, i), HostRow(iov, p, h, i + 1));
  }

  lemma UnderRow(iov: seq<Segment>, p: Plane, h: nat, i: nat, guest: seq<nat>, host: seq<nat>)
    requires i < |iov| && Under(iov, p, h, i, guest, host) && !Advances(iov, p, h, i)
    ensures Under(iov, p, h + 1, i, guest + GuestShare(iov, p, h, i), host + HostShare(iov, p, h, i))
    ensures guest + GuestShare(iov, p, h, i) == WalkGuest(iov, p, h + 1)
    ensures host + HostShare(iov, p, h, i) == WalkHost(iov, p, h + 1)
  {
    assert Cursor(iov, p, h + 1) == i;
    assert GuestRow(iov, p, h, i) == GuestShare(iov, p, h, i) && HostRow(iov, p, h, i) == HostShare(iov, p, h, i);
    hide GuestShare, HostShare, Advances, WalkGuest, WalkHost, Cursor, GuestRow, HostRow, RowEnd;
    UnderStart(iov, p, h + 1);
  }

  /** Past the last segment the rows that are left add nothing. */
  lemma {:induction false} WalkPastEnd(iov: seq<Segment>, p: Plane, h: nat, n: nat)
    requires Cursor(iov, p, h) == |iov| && h <= n
    ensures Cursor(iov, p, n) == |iov|
    ensures WalkGuest(iov, p, n) == WalkGuest(iov, p, h) && WalkHost(iov, p, n) == WalkHost(iov, p, h)
    decreases n
  {
    hide Advances, GuestShare, HostShare;
    if h < n {
      WalkPastEnd(iov, p, h, n - 1);
    }
  }

  lemma UnderEnd(iov: seq<Segment>, p: Plane, h: nat, i: nat, guest: seq<nat>, host: seq<nat>)
    requires Under(iov, p, h, i, guest, host) && h <= p.rows && (h == p.rows || i == |iov|)
    requires h == p.rows ==> guest == WalkGuest(iov, p, h) && host == WalkHost(iov, p, h)
    ensures guest == WalkGuest(iov, p, p.rows) && host == WalkHost(iov, p, p.rows)
  {
    if h < p.rows {
      assert GuestRow(iov, p, h, i) == [] && HostRow(iov, p, h, i) == [];
      WalkPastEnd(iov, p, h + 1, p.rows);
    }
  }

  // --- one row of the walk -------------------------------------------------------------------

  lemma StartNext(iov: seq<Segment>, i: nat)
    requires i < |iov|
    ensures Start(iov, i + 1) == Start(iov, i) + iov[i].len
  {
  }

  lemma BlocksAre(iov: seq<Segment>, p: Plane, h: nat, i: nat)
    requires i < |iov| && Low(iov, p, h, i) < High(iov, p, h, i)
    ensures var lo, n := Low(iov, p, h, i), High(iov, p, h, i) - Low(iov, p, h, i);
      && GuestShare(iov, p, h, i) == Range(iov[i].base + (lo - Start(iov, i)), n)
      && HostShare(iov, p, h, i) == Range(RowHost(p, h) + (lo - RowStart(p, h)), n)
  {
    hide Start, RowStart, RowHost, Range;
  }

  lemma BlockIsShare(iov: seq<Segment>, p: Plane, h: nat, i: nat)
    requires i < |iov| && Low(iov, p, h, i) < High(iov, p, h, i)
    ensures GuestShare(iov, p, h, i) == GuestBlock(iov, p, h, i)
  {
    hide GuestBlock, Start, RowStart;
  }

  lemma RowUnfold(iov: seq<Segment>, p: Plane, h: nat, i: nat)
    requires i < |iov| && Advances(iov, p, h, i)
    ensures GuestRow(iov, p, h, i) == GuestShare(iov, p, h, i) + GuestRow(iov, p, h, i + 1)
    ensures HostRow(iov, p, h, i) == HostShare(iov, p, h, i) + HostRow(iov, p, h, i + 1)
  {
    hide Advances, GuestShare, HostShare;
  }

  lemma RowStops(iov: seq<Segment>, p: Plane, h: nat, i: nat)
    requires i < |iov| && !Advances(iov, p, h, i)
    ensures GuestRow(iov, p, h, i) == GuestShare(iov, p, h, i) && HostRow(iov, p, h, i) == HostShare(iov, p, h, i)
  {
    hide Advances, GuestShare, HostShare;
  }

  lemma SliceCut(a: seq<nat>, m: nat, s: nat, e: nat)
    requires m <= s <= e && s <= |a|
    ensures Slice(a, m, e - m) == a[m..s] + Slice(a, s, e - s)
  {
  }

  ghost function Max(a: nat, b: nat): nat {
    if a > b then a else b
  }

  /** Where row `h` begins when it is entered at segment `i`. */
  ghost function Entry(iov: seq<Segment>, p: Plane, h: nat, i: nat): (m: nat)
    requires i <= |iov|
    ensures m >= RowStart(p, h)
  {
    Max(RowStart(p, h), Start(iov, i))
  }

  /** The row's bytes are consecutive, in the list and in the image, from the entry on. */
  ghost predicate Contiguous(iov: seq<Segment>, p: Plane, h: nat, i: nat)
    requires i <= |iov|
  {
    var m, n := Entry(iov, p, h, i), |GuestRow(iov, p, h, i)|;
    && (n > 0 ==> m + n <= RowStart(p, h) + p.row && m + n <= |Addrs(iov)|)
    && GuestRow(iov, p, h, i) == Slice(Addrs(iov), m, n)
    && HostRow(iov, p, h, i) == Range(RowHost(p, h) + (m - RowStart(p, h)), n)
  }

  lemma {:induction false} RowContiguous(iov: seq<Segment>, p: Plane, h: nat, i: nat)
    requires i <= |iov|
    ensures Contiguous(iov, p, h, i)
    decreases |iov| - i
  {
    hide Addrs, Start, RowStart, RowHost, Contiguous;
    if i == |iov| {
      NothingContiguous(iov, p, h, i);
    } else if Advances(iov, p, h, i) {
      RowContiguous(iov, p, h, i + 1);
      ContiguousMore(iov, p, h, i);
    } else {
      ContiguousLast(iov, p, h, i);
    }
  }

  lemma NothingContiguous(iov: seq<Segment>, p: Plane, h: nat, i: nat)
    requires i <= |iov| && GuestRow(iov, p, h, i) == [] && HostRow(iov, p, h, i) == []
    ensures Contiguous(iov, p, h, i)
  {
    hide Addrs, Start, RowStart, RowHost, GuestRow, HostRow;
  }

  lemma ContiguousMore(iov: seq<Segment>, p: Plane, h: nat, i: nat)
    requires i < |iov| && Advances(iov, p, h, i) && Contiguous(iov, p, h, i + 1)
    ensures Contiguous(iov, p, h, i)
  {
    hide Addrs, Start, RowStart, RowHost, GuestRow, HostRow, GuestShare, HostShare, Slice, Range, GuestBlock;
    StartNext(iov, i);
    RowUnfold(iov, p, h, i);
    var lo, hi, n := Low(iov, p, h, i), High(iov, p, h, i), |GuestRow(iov, p, h, i + 1)|;
    if lo < hi {
      BlocksAre(iov, p, h, i);
      BlockIsShare(iov, p, h, i);
      BlockAddrs(iov, p, h, i);
      SliceCut(Addrs(iov), lo, hi, hi + n);
      RangeGrows(RowHost(p, h) + (lo - RowStart(p, h)), hi - lo, n);
    } else {
      NoShare(iov, p, h, i);
      if n == 0 {
        NothingContiguous(iov, p, h, i);
      }
    }
  }

  lemma NoShare(iov: seq<Segment>, p: Plane, h: nat, i: nat)
    requires i < |iov| && Low(iov, p, h, i) >= High(iov, p, h, i)
    ensures GuestShare(iov, p, h, i) == [] && HostShare(iov, p, h, i) == []
  {
    hide Start, RowStart;
  }

  lemma ContiguousLast(iov: seq<Segment>, p: Plane, h: nat, i: nat)
    requires i < |iov| && !Advances(iov, p, h, i)
    ensures Contiguous(iov, p, h, i)
  {
    hide Addrs, Start, RowStart, RowHost, GuestRow, HostRow, GuestShare, HostShare, Slice, Range, GuestBlock;
    RowStops(iov, p, h, i);
    var lo, hi := Low(iov, p, h, i), High(iov, p, h, i);
    if lo < hi {
      BlocksAre(iov, p, h, i);
      BlockIsShare(iov, p, h, i);
      BlockAddrs(iov, p, h, i);
      SliceIs(Addrs(iov), lo, hi);
    } else {
      NoShare(iov, p, h, i);
      NothingContiguous(iov, p, h, i);
    }
  }

  lemma SliceIs(a: seq<nat>, lo: nat, hi: nat)
    requires lo <= hi <= |a|
    ensures Slice(a, lo, hi - lo) == a[lo..hi]
  {
  }

  /** A row never gets past an empty segment inside it. */
  lemma {:induction false} RowBroken(iov: seq<Segment>, p: Plane, h: nat, i: nat, j: nat)
    requires i <= j < |iov| && iov[j].len == 0 && RowStart(p, h) < Start(iov, j) < RowStart(p, h) + p.row
    requires Start(iov, i) <= Start(iov, j)
    ensures |GuestRow(iov, p, h, i)| <= Start(iov, j) - Entry(iov, p, h, i)
    decreases |iov| - i
  {
    hide RowStart, Start, GuestShare, HostShare, GuestRow, HostRow;
    StartNext(iov, i);
    ShareSize(iov, p, h, i);
    if i < j {
      StartMonotone(iov, i + 1, j);
    }
    if i < j && Advances(iov, p, h, i) {
      RowUnfold(iov, p, h, i);
      RowBroken(iov, p, h, i + 1, j);
    } else {
      RowStops(iov, p, h, i);
    }
  }

  lemma ShareSize(iov: seq<Segment>, p: Plane, h: nat, i: nat)
    requires i < |iov|
    ensures var lo, hi := Low(iov, p, h, i), High(iov, p, h, i);
      |GuestShare(iov, p, h, i)| == if lo < hi then hi - lo else 0
  {
    hide RowStart, Start;
  }

  /** A row ends only with its last byte, with the list, or at an empty segment. */
  lemma {:induction false} RowStopsAt(iov: seq<Segment>, p: Plane, h: nat, i: nat)
    requires p.row > 0 && i <= |iov| && Start(iov, i) <= RowStart(p, h) + p.row
    ensures var n := Entry(iov, p, h, i) + |GuestRow(iov, p, h, i)| - RowStart(p, h);
      n == p.row || !Clear(iov, RowStart(p, h), n + 1)
    decreases |iov| - i
  {
    hide RowStart, Start, GuestShare, HostShare, GuestRow, HostRow, Addrs, Clear;
    if i < |iov| && Advances(iov, p, h, i) {
      StartNext(iov, i);
      ShareSize(iov, p, h, i);
      RowUnfold(iov, p, h, i);
      RowStopsAt(iov, p, h, i + 1);
    } else {
      RowStopsHere(iov, p, h, i);
    }
  }

  lemma RowStopsHere(iov: seq<Segment>, p: Plane, h: nat, i: nat)
    requires i <= |iov| && Start(iov, i) <= RowStart(p, h) + p.row && (i < |iov| ==> !Advances(iov, p, h, i))
    ensures var n := Entry(iov, p, h, i) + |GuestRow(iov, p, h, i)| - RowStart(p, h);
      n == p.row || !Clear(iov, RowStart(p, h), n + 1)
  {
    if i == |iov| {
      AddrsSize(iov);
      assert GuestRow(iov, p, h, i) == [];
      hide RowStart, Start, GuestRow, Addrs;
    } else {
      hide RowStart, Start, GuestShare, HostShare, GuestRow, HostRow, Addrs;
      ShareSize(iov, p, h, i);
      RowStops(iov, p, h, i);
    }
  }

  /** A row entered in time moves its longest clear prefix, to its place. */
  lemma RowReach(iov: seq<Segment>, p: Plane, h: nat, i: nat)
    requires i <= |iov| && (p.row > 0 ==> Start(iov, i) <= RowStart(p, h))
    ensures var lo := RowStart(p, h); var n := Reach(iov, lo, p.row);
      && GuestRow(iov, p, h, i) == Slice(Addrs(iov), lo, n) && HostRow(iov, p, h, i) == Range(RowHost(p, h), n)
      && |GuestRow(iov, p, h, i)| == n
  {
    hide Addrs, Start, RowStart, RowHost, GuestRow, HostRow, Reach, Slice, Range, Clear;
    var lo, n := RowStart(p, h), |GuestRow(iov, p, h, i)|;
    RowContiguous(iov, p, h, i);
    if p.row > 0 {
      RowIsClear(iov, p, h, i);
      RowStopsAt(iov, p, h, i);
      ReachIs(iov, lo, p.row, n);
    } else {
      NoneReached(iov, lo);
      SameSlices(iov, p, h, i);
    }
  }

  /** What a row entered in time moves is clear. */
  lemma RowIsClear(iov: seq<Segment>, p: Plane, h: nat, i: nat)
    requires i <= |iov| && p.row > 0 && Start(iov, i) <= RowStart(p, h) && Contiguous(iov, p, h, i)
    ensures Clear(iov, RowStart(p, h), |GuestRow(iov, p, h, i)|)
  {
    hide Addrs, Start, RowStart, RowHost, GuestRow, HostRow, Slice, Range;
    var lo, n := RowStart(p, h), |GuestRow(iov, p, h, i)|;
    if n > 0 {
      forall j | 0 <= j < |iov| && iov[j].len == 0 ensures !(lo < Start(iov, j) < lo + n) {
        if j < i {
          StartMonotone(iov, j, i);
        } else if lo < Start(iov, j) < lo + n {
          RowBroken(iov, p, h, i, j);
        }
      }
    }
  }

  lemma NoneReached(iov: seq<Segment>, lo: nat)
    ensures Reach(iov, lo, 0) == 0
  {
  }

  lemma SameSlices(iov: seq<Segment>, p: Plane, h: nat, i: nat)
    requires i <= |iov| && p.row == 0 && Contiguous(iov, p, h, i)
    ensures GuestRow(iov, p, h, i) == Slice(Addrs(iov), RowStart(p, h), 0) == []
    ensures HostRow(iov, p, h, i) == Range(RowHost(p, h), 0) == []
  {
    hide Addrs, Start, RowStart, RowHost, GuestRow, HostRow;
  }

  // --- the walk ------------------------------------------------------------------------------

  /** Every offset of the transfer is below 2^32, and the rows lie inside the image. */
  ghost predicate Fits(iov: seq<Segment>, p: Plane, imageSize: nat) {
    && p.row < U32 && |Addrs(iov)| < U32 && p.rows < U32 && p.offset < U32
    && (p.rows > 0 ==>
          && RowStart(p, p.rows - 1) + p.row < U32
          && RowHost(p, p.rows - 1) < U32
          && RowHost(p, p.rows - 1) + p.row <= imageSize)
  }

  lemma RowFits(iov: seq<Segment>, p: Plane, imageSize: nat, h: nat)
    requires Fits(iov, p, imageSize) && h < p.rows
    ensures h * p.stride < U32 && RowStart(p, h) == p.offset + h * p.stride && RowStart(p, h) + p.row < U32
    ensures h * p.hostStride < U32 && RowHost(p, h) == h * p.hostStride && RowHost(p, h) + p.row <= imageSize
  {
    RowStartMonotone(p, h, p.rows - 1);
    assert (p.rows - 1 - h) * p.hostStride >= 0;
    assert (p.rows - 1) * p.hostStride == h * p.hostStride + (p.rows - 1 - h) * p.hostStride;
  }

  lemma SegmentFits(iov: seq<Segment>, p: Plane, imageSize: nat, i: nat)
    requires Fits(iov, p, imageSize) && i < |iov|
    ensures Start(iov, i + 1) == Start(iov, i) + iov[i].len < U32 && p.row < U32
  {
    StartBound(iov, i + 1);
  }

  /** One block, in either direction. */
  method CopyBlock(mem: array<Byte>, host: array<Byte>, guest: nat, at: nat, len: nat, toHost: bool)
    requires mem != host && guest + len <= mem.Length && at + len <= host.Length
    modifies mem, host
    ensures Transferred(old(mem[..]), old(host[..]), mem[..], host[..], Range(guest, len), Range(at, len), toHost)
  {
    assert mem[guest..guest + len] == Gather(mem[..], Range(guest, len));
    assert host[at..at + len] == Gather(host[..], Range(at, len));
    if toHost {
      StoreBlock(host, at, mem, guest, len);
    } else {
      StoreBlock(mem, guest, host, at, len);
    }
  }

  /**
   * Walks rows and segments together, in either direction.  For rows at least a stride apart it is the row-by-row
   * copy, and whenever rows are unbroken and seamless the plain one.
   */
  method Transfer(mem: array<Byte>, host: array<Byte>, iov: seq<Segment>, bytesPerPixel: nat, width: nat, height: nat,
                  stride: nat, offset: nat, hostStride: nat, toHost: bool)
    requires mem != host && Within(iov, mem.Length)
    requires Fits(iov, Plane(height, width * bytesPerPixel, offset, stride, hostStride), host.Length)
    modifies mem, host
    ensures var p := Plane(height, width * bytesPerPixel, offset, stride, hostStride);
      Transferred(old(mem[..]), old(host[..]), mem[..], host[..],
                  WalkGuest(iov, p, p.rows), WalkHost(iov, p, p.rows), toHost)
    ensures var p := Plane(height, width * bytesPerPixel, offset, stride, hostStride);
      p.stride >= p.row ==>
        Transferred(old(mem[..]), old(host[..]), mem[..], host[..],
                    GuestRows(iov, p, p.rows), HostRows(iov, p, p.rows), toHost)
    ensures var p := Plane(height, width * bytesPerPixel, offset, stride, hostStride);
      RowsUnbroken(iov, p, p.rows) && Seamless(iov, p, p.rows) ==>
        Transferred(old(mem[..]), old(host[..]), mem[..], host[..],
                    PlainRows(iov, p, p.rows), PlainHost(iov, p, p.rows), toHost)
  {
    hide GuestRows, HostRows, PlainRows, PlainHost, RowsUnbroken, Seamless, Cursor;
    hide WalkGuest, WalkHost, GuestBlock, HostBlock, Addrs, Start, RowStart, RowHost, Transferred, Range, Fits, Under;
    ghost var p := Plane(height, width * bytesPerPixel, offset, stride, hostStride);
    var currentHeight, currentIovec, iovecStart := 0, 0, 0;
    ghost var guest: seq<nat>, image: seq<nat> := [], [];
    WalkStart(iov, p, mem[..], host[..], toHost);
    while currentHeight < height && currentIovec < |iov|
      invariant 0 <= currentHeight <= height && 0 <= currentIovec <= |iov| && iovecStart == Start(iov, currentIovec)
      invariant Under(iov, p, currentHeight, currentIovec, guest, image)
      invariant currentHeight == height ==> guest == WalkGuest(iov, p, height) && image == WalkHost(iov, p, height)
      invariant Transferred(old(mem[..]), old(host[..]), mem[..], host[..], guest, image, toHost)
      decreases (height - currentHeight) + (|iov| - currentIovec)
    {
      ghost var h, i := currentHeight, currentIovec;
      RowFits(iov, p, host.Length, h);
      SegmentFits(iov, p, host.Length, i);
      var iovecSize := Wrap32(iov[currentIovec].len);
      var iovecEnd := Wrap32(iovecStart + iovecSize);
      var boxStart := Wrap32(offset + Wrap32(currentHeight * stride));
      var boxEnd := Wrap32(boxStart + Wrap32(width * bytesPerPixel));
      var maxStart := if iovecStart > boxStart then iovecStart else boxStart;
      var minEnd := if iovecEnd < boxEnd then iovecEnd else boxEnd;
      var nextIovec, nextLine;
      assert maxStart == Low(iov, p, h, i) && minEnd == High(iov, p, h, i);
      if maxStart < minEnd {
        var offsetInIovec := if maxStart > iovecStart then maxStart - iovecStart else 0;
        var size := minEnd - maxStart;
        if minEnd >= iovecEnd {
          nextIovec, nextLine := true, false;
        } else {
          nextIovec, nextLine := false, true;
        }
        ghost var mem1, host1 := mem[..], host[..];
        CopyBlock(mem, host, iov[currentIovec].base + offsetInIovec,
                  Wrap32(currentHeight * hostStride) + (maxStart - boxStart), size, toHost);
        BlocksAre(iov, p, h, i);
        TransferredMore(old(mem[..]), old(host[..]), mem1, host1, mem[..], host[..],
                        guest, image, GuestShare(iov, p, h, i), HostShare(iov, p, h, i), toHost);
      } else {
        if boxStart >= iovecStart {
          nextIovec, nextLine := true, false;
        } else {
          nextIovec, nextLine := false, true;
        }
        assert guest + GuestShare(iov, p, h, i) == guest && image + HostShare(iov, p, h, i) == image;
      }
      if nextIovec {
        UnderSegment(iov, p, h, i, guest, image);
        iovecStart := Wrap32(iovecStart + iovecSize);
        currentIovec := currentIovec + 1;
      }
      if nextLine {
        UnderRow(iov, p, h, i, guest, image);
        currentHeight := currentHeight + 1;
      }
      guest, image := guest + GuestShare(iov, p, h, i), image + HostShare(iov, p, h, i);
    }
    UnderEnd(iov, p, currentHeight, currentIovec, guest, image);
    WalkIsPlainCopyIff(iov, p);
    if stride >= width * bytesPerPixel {
      WalkIsRows(iov, p);
    }
  }

  lemma WalkStart(iov: seq<Segment>, p: Plane, mem: seq<Byte>, host: seq<Byte>, toHost: bool)
    ensures Start(iov, 0) == 0 && WalkGuest(iov, p, 0) == [] && WalkHost(iov, p, 0) == []
    ensures Under(iov, p, 0, 0, [], []) && Transferred(mem, host, mem, host, [], [], toHost)
  {
    hide GuestRow, HostRow, RowEnd;
    UnderStart(iov, p, 0);
  }

  // --- rows at least a stride apart ----------------------------------------------------------

  lemma {:induction false} RowEndBound(iov: seq<Segment>, p: Plane, h: nat, i: nat)
    requires p.row > 0 && i <= |iov| && Start(iov, i) <= RowStart(p, h) + p.row
    ensures Start(iov, RowEnd(iov, p, h, i)) <= RowStart(p, h) + p.row
    decreases |iov| - i
  {
    hide Start, RowStart;
    if i < |iov| && Advances(iov, p, h, i) {
      StartNext(iov, i);
      RowEndBound(iov, p, h, i + 1);
    }
  }

  /** The segment cursor is never past the start of the row it enters. */
  lemma {:induction false} EnteredInTime(iov: seq<Segment>, p: Plane, h: nat)
    requires p.stride >= p.row > 0
    ensures Start(iov, Cursor(iov, p, h)) <= RowStart(p, h)
  {
    if h > 0 {
      EnteredInTime(iov, p, h - 1);
      RowEndBound(iov, p, h - 1, Cursor(iov, p, h - 1));
      NextRowStart(p, h - 1);
      hide Start, RowStart, RowEnd;
    }
  }

  lemma {:induction false} WalkRows(iov: seq<Segment>, p: Plane, n: nat)
    requires p.stride >= p.row
    ensures WalkGuest(iov, p, n) == GuestRows(iov, p, n) && WalkHost(iov, p, n) == HostRows(iov, p, n)
  {
    hide GuestRow, HostRow, Reach, Addrs, Cursor, RowStart, RowHost, Start, Slice;
    if n > 0 {
      WalkRows(iov, p, n - 1);
      if p.row > 0 {
        EnteredInTime(iov, p, n - 1);
      }
      RowReach(iov, p, n - 1, Cursor(iov, p, n - 1));
    }
  }

  /**
   * When the stride is at least a row, the walk transfers of every row the longest prefix that the list holds and
   * that no empty segment interrupts.
   */
  lemma WalkIsRows(iov: seq<Segment>, p: Plane)
    requires p.stride >= p.row
    ensures WalkGuest(iov, p, p.rows) == GuestRows(iov, p, p.rows)
    ensures WalkHost(iov, p, p.rows) == HostRows(iov, p, p.rows)
  {
    WalkRows(iov, p, p.rows);
  }

  // --- which bytes those are -----------------------------------------------------------------

  /** Bytes of the row that the list holds at all. */
  ghost function Held(iov: seq<Segment>, lo: nat, row: nat): nat {
    |Slice(Addrs(iov), lo, row)|
  }

  /** No empty segment starts strictly inside the `n` bytes from `lo`. */
  ghost predicate Unbroken(iov: seq<Segment>, lo: nat, n: nat) {
    forall j :: 0 <= j < |iov| && iov[j].len == 0 ==> !(lo < Start(iov, j) < lo + n)
  }

  /**
   * A row entered in time reaches byte `x` iff the list holds it and no empty segment lies between the row's start
   * and it.
   */
  lemma ByteTransferred(iov: seq<Segment>, lo: nat, row: nat, x: nat)
    requires x < row
    ensures x < Reach(iov, lo, row) <==>
      lo + x < |Addrs(iov)| && forall j :: 0 <= j < |iov| && iov[j].len == 0 ==> !(lo < Start(iov, j) <= lo + x)
  {
    hide Addrs, Start, Reach;
    forall a: nat, b: nat | b <= a && Clear(iov, lo, a) ensures Clear(iov, lo, b) {
      ClearShrinks(iov, lo, a, b);
    }
    assert Clear(iov, lo, x + 1) <==>
      lo + x < |Addrs(iov)| && forall j :: 0 <= j < |iov| && iov[j].len == 0 ==> !(lo < Start(iov, j) <= lo + x);
  }

  /** A row is transferred as far as the list holds it iff no empty segment breaks it. */
  lemma RowWholeIff(iov: seq<Segment>, lo: nat, row: nat)
    ensures Reach(iov, lo, row) <= Held(iov, lo, row)
    ensures Reach(iov, lo, row) == Held(iov, lo, row) <==> Unbroken(iov, lo, Held(iov, lo, row))
  {
    hide Addrs, Start, Reach;
    var n := Held(iov, lo, row);
    assert n < row ==> !Clear(iov, lo, n + 1);
    if Unbroken(iov, lo, n) {
      ReachIs(iov, lo, row, n);
    }
  }

  // --- the plain copy ------------------------------------------------------------------------

  /** The plain copy takes every row, truncated only where the list ends ... */
  ghost function PlainRows(iov: seq<Segment>, p: Plane, n: nat): (r: seq<nat>) {
    if n == 0 then [] else PlainRows(iov, p, n - 1) + Slice(Addrs(iov), RowStart(p, n - 1), p.row)
  }

  /** ... to its place in the image. */
  ghost function PlainHost(iov: seq<Segment>, p: Plane, n: nat): (r: seq<nat>) {
    if n == 0 then []
    else PlainHost(iov, p, n - 1) + Range(RowHost(p, n - 1), Held(iov, RowStart(p, n - 1), p.row))
  }

  /** No empty segment lies inside the held part of a row. */
  ghost predicate RowsUnbroken(iov: seq<Segment>, p: Plane, n: nat) {
    forall h :: 0 <= h < n ==> Unbroken(iov, RowStart(p, h), Held(iov, RowStart(p, h), p.row))
  }

  /** No segment ends inside the bytes that row `h` shares with the next. */
  ghost predicate Seam(iov: seq<Segment>, p: Plane, h: nat) {
    forall j :: 0 <= j <= |iov| ==> !(RowStart(p, h + 1) < Start(iov, j) <= RowStart(p, h) + p.row)
  }

  ghost predicate Seamless(iov: seq<Segment>, p: Plane, n: nat) {
    forall h :: 0 <= h && h + 1 < n ==> Seam(iov, p, h)
  }

  /** An unbroken row is left at the last segment boundary that is not past its end. */
  lemma {:induction false} RowEndLast(iov: seq<Segment>, p: Plane, h: nat, i: nat, j: nat)
    requires p.row > 0 && i <= |iov| && Start(iov, i) <= RowStart(p, h) + p.row && j <= |iov|
    requires Unbroken(iov, RowStart(p, h), Held(iov, RowStart(p, h), p.row))
    ensures var e := Start(iov, RowEnd(iov, p, h, i));
      e <= RowStart(p, h) + p.row && (Start(iov, j) <= RowStart(p, h) + p.row ==> Start(iov, j) <= e)
    decreases |iov| - i
  {
    if i == |iov| {
      StartMonotone(iov, j, |iov|);
    } else {
      StartNext(iov, i);
      if Advances(iov, p, h, i) {
        hide Addrs, Start, RowStart, Unbroken;
        RowEndLast(iov, p, h, i + 1, j);
      } else {
        RowEndHere(iov, p, h, i, j);
      }
    }
  }

  lemma RowEndHere(iov: seq<Segment>, p: Plane, h: nat, i: nat, j: nat)
    requires p.row > 0 && i < |iov| && Start(iov, i) <= RowStart(p, h) + p.row && j <= |iov|
    requires Unbroken(iov, RowStart(p, h), Held(iov, RowStart(p, h), p.row)) && !Advances(iov, p, h, i)
    ensures Start(iov, j) <= RowStart(p, h) + p.row ==> Start(iov, j) <= Start(iov, i)
  {
    StartNext(iov, i);
    StartBound(iov, j);
    if j <= i {
      StartMonotone(iov, j, i);
    } else {
      StartMonotone(iov, i + 1, j);
    }
    hide Addrs, Start, RowStart;
  }

  /** Row `h`, entered at segment `i`, moves all that the list holds of it iff it is unbroken and entered in time. */
  lemma RowFullIff(iov: seq<Segment>, p: Plane, h: nat, i: nat)
    requires i <= |iov| && p.row > 0
    ensures var lo := RowStart(p, h);
      |GuestRow(iov, p, h, i)| == Held(iov, lo, p.row) <==>
      Start(iov, i) <= lo && Unbroken(iov, lo, Held(iov, lo, p.row))
  {
    hide Start, RowStart, GuestRow, Reach, Unbroken, Addrs;
    RowSize(iov, p, h, i);
    StartBound(iov, i);
    if Start(iov, i) <= RowStart(p, h) {
      RowReach(iov, p, h, i);
      RowWholeIff(iov, RowStart(p, h), p.row);
    }
  }

  /** A row moves at most what the list holds of it, and less when it is entered late. */
  lemma RowSize(iov: seq<Segment>, p: Plane, h: nat, i: nat)
    requires i <= |iov|
    ensures |GuestRow(iov, p, h, i)| == |HostRow(iov, p, h, i)| <= Held(iov, RowStart(p, h), p.row)
    ensures RowStart(p, h) < Start(iov, i) && Held(iov, RowStart(p, h), p.row) > 0 ==>
      |GuestRow(iov, p, h, i)| < Held(iov, RowStart(p, h), p.row)
  {
    RowContiguous(iov, p, h, i);
    hide Start, RowStart, GuestRow, HostRow, Addrs;
  }

  /** After an unbroken row entered in time, the next is entered in time iff no segment ends in what they share. */
  lemma SeamIff(iov: seq<Segment>, p: Plane, h: nat, i: nat)
    requires i <= |iov| && p.row > 0 && Start(iov, i) <= RowStart(p, h)
    requires Unbroken(iov, RowStart(p, h), Held(iov, RowStart(p, h), p.row))
    ensures Start(iov, RowEnd(iov, p, h, i)) <= RowStart(p, h + 1) <==> Seam(iov, p, h)
  {
    hide Start, RowStart, RowEnd, Unbroken;
    RowEndLast(iov, p, h, i, 0);
    if !Seam(iov, p, h) {
      var j :| 0 <= j <= |iov| && RowStart(p, h + 1) < Start(iov, j) <= RowStart(p, h) + p.row;
      RowEndLast(iov, p, h, i, j);
    }
  }

  /** Every row so far moved all that the list holds of it. */
  ghost predicate Full(iov: seq<Segment>, p: Plane, n: nat) {
    forall h :: 0 <= h < n ==> |GuestRow(iov, p, h, Cursor(iov, p, h))| == Held(iov, RowStart(p, h), p.row)
  }

  ghost predicate Smooth(iov: seq<Segment>, p: Plane, n: nat) {
    RowsUnbroken(iov, p, n) && Seamless(iov, p, n)
  }

  lemma SmoothMore(iov: seq<Segment>, p: Plane, n: nat)
    requires n > 0
    ensures var lo := RowStart(p, n - 1);
      Smooth(iov, p, n) <==>
      && Smooth(iov, p, n - 1) && Unbroken(iov, lo, Held(iov, lo, p.row)) && (n > 1 ==> Seam(iov, p, n - 2))
  {
    hide Unbroken, Held, RowStart, Seam;
    if n > 1 && Seamless(iov, p, n) {
      assert Seam(iov, p, n - 2);
    }
  }

  lemma {:induction false} FullIff(iov: seq<Segment>, p: Plane, n: nat)
    requires p.row > 0
    ensures Full(iov, p, n) <==> Smooth(iov, p, n)
    ensures Full(iov, p, n) && n > 0 ==> Start(iov, Cursor(iov, p, n - 1)) <= RowStart(p, n - 1)
  {
    hide GuestRow, Unbroken, Held, RowStart, Seam, Smooth, Start, RowEnd;
    if n > 0 {
      FullIff(iov, p, n - 1);
      SmoothMore(iov, p, n);
      RowFullIff(iov, p, n - 1, Cursor(iov, p, n - 1));
      FullMore(iov, p, n);
      if n > 1 {
        RowFullIff(iov, p, n - 2, Cursor(iov, p, n - 2));
        FullMore(iov, p, n - 1);
        if Full(iov, p, n - 1) {
          SeamIff(iov, p, n - 2, Cursor(iov, p, n - 2));
        }
      } else {
        FirstRow(iov, p);
      }
    } else {
      NoRowsSmooth(iov, p);
    }
  }

  lemma FullMore(iov: seq<Segment>, p: Plane, n: nat)
    requires n > 0
    ensures Full(iov, p, n) <==>
      && Full(iov, p, n - 1)
      && |GuestRow(iov, p, n - 1, Cursor(iov, p, n - 1))| == Held(iov, RowStart(p, n - 1), p.row)
  {
    hide GuestRow, Held, RowStart, Cursor;
  }

  lemma FirstRow(iov: seq<Segment>, p: Plane)
    ensures Start(iov, Cursor(iov, p, 0)) <= RowStart(p, 0) && Smooth(iov, p, 0)
  {
  }

  lemma NoRowsSmooth(iov: seq<Segment>, p: Plane)
    ensures Full(iov, p, 0) && Smooth(iov, p, 0)
  {
  }

  lemma {:induction false} WalkSize(iov: seq<Segment>, p: Plane, n: nat)
    ensures |WalkGuest(iov, p, n)| == |WalkHost(iov, p, n)| <= |PlainRows(iov, p, n)|
    ensures |WalkGuest(iov, p, n)| == |PlainRows(iov, p, n)| <==> Full(iov, p, n)
  {
    hide GuestRow, HostRow, RowStart, Cursor, Full, Addrs;
    if n > 0 {
      WalkSize(iov, p, n - 1);
      FullMore(iov, p, n);
      RowSize(iov, p, n - 1, Cursor(iov, p, n - 1));
    } else {
      NoRowsSmooth(iov, p);
    }
  }

  /** A full row is the plain copy's. */
  lemma FullRow(iov: seq<Segment>, p: Plane, h: nat, i: nat)
    requires i <= |iov| && |GuestRow(iov, p, h, i)| == Held(iov, RowStart(p, h), p.row)
    ensures GuestRow(iov, p, h, i) == Slice(Addrs(iov), RowStart(p, h), p.row)
    ensures HostRow(iov, p, h, i) == Range(RowHost(p, h), Held(iov, RowStart(p, h), p.row))
  {
    RowContiguous(iov, p, h, i);
    hide Start, RowStart, RowHost, GuestRow, HostRow, Addrs;
  }

  lemma {:induction false} FullIsPlain(iov: seq<Segment>, p: Plane, n: nat)
    requires Full(iov, p, n)
    ensures WalkGuest(iov, p, n) == PlainRows(iov, p, n) && WalkHost(iov, p, n) == PlainHost(iov, p, n)
  {
    hide GuestRow, HostRow, RowStart, RowHost, Cursor, Addrs, Full, Slice, Range, Held;
    if n > 0 {
      FullMore(iov, p, n);
      FullIsPlain(iov, p, n - 1);
      FullRow(iov, p, n - 1, Cursor(iov, p, n - 1));
    }
  }

  lemma {:induction false} EmptyRows(iov: seq<Segment>, p: Plane, n: nat)
    requires p.row == 0
    ensures Full(iov, p, n) && Smooth(iov, p, n)
  {
    hide GuestRow, HostRow, Cursor, Addrs, RowStart, Unbroken, Slice, Seam, Smooth, Full;
    if n > 0 {
      EmptyRows(iov, p, n - 1);
      EmptyRow(iov, p, n - 1, Cursor(iov, p, n - 1));
      SmoothMore(iov, p, n);
      FullMore(iov, p, n);
      if n > 1 {
        EmptyRow(iov, p, n - 2, Cursor(iov, p, n - 2));
      }
    } else {
      NoRowsSmooth(iov, p);
    }
  }

  lemma EmptyRow(iov: seq<Segment>, p: Plane, h: nat, i: nat)
    requires p.row == 0 && i <= |iov|
    ensures GuestRow(iov, p, h, i) == [] && Held(iov, RowStart(p, h), 0) == 0
    ensures Unbroken(iov, RowStart(p, h), 0) && Seam(iov, p, h)
  {
    RowSize(iov, p, h, i);
    NextRowStart(p, h);
    hide GuestRow, HostRow, Addrs, Start, RowStart;
  }

  /**
   * For every plane, list and stride: the walk is the plain copy, in what it moves and where it puts it, iff no
   * empty segment lies inside the held part of a row and no segment ends in bytes that a row shares with the next.
   */
  lemma WalkIsPlainCopyIff(iov: seq<Segment>, p: Plane)
    ensures RowsUnbroken(iov, p, p.rows) && Seamless(iov, p, p.rows) <==>
      WalkGuest(iov, p, p.rows) == PlainRows(iov, p, p.rows) && WalkHost(iov, p, p.rows) == PlainHost(iov, p, p.rows)
  {
    hide WalkGuest, WalkHost, PlainRows, PlainHost, Full, RowsUnbroken, Seamless;
    if p.row == 0 {
      EmptyRows(iov, p, p.rows);
    } else {
      FullIff(iov, p, p.rows);
    }
    WalkSize(iov, p, p.rows);
    if Full(iov, p, p.rows) {
      FullIsPlain(iov, p, p.rows);
    }
  }

  /** Rows at least a stride apart share nothing. */
  lemma WideStride(iov: seq<Segment>, p: Plane)
    requires p.stride >= p.row
    ensures Seamless(iov, p, p.rows)
  {
    forall h | 0 <= h && h + 1 < p.rows ensures Seam(iov, p, h) {
      NextRowStart(p, h);
      hide RowStart, Start;
    }
  }

  /** Without empty segments, and with rows at least a stride apart, it always is the plain copy. */
  lemma NoEmptySegments(iov: seq<Segment>, p: Plane)
    requires p.stride >= p.row && forall i :: 0 <= i < |iov| ==> iov[i].len > 0
    ensures WalkGuest(iov, p, p.rows) == PlainRows(iov, p, p.rows)
      && WalkHost(iov, p, p.rows) == PlainHost(iov, p, p.rows)
  {
    hide WalkGuest, WalkHost, PlainRows, PlainHost, Seamless, RowStart;
    WideStride(iov, p);
    WalkIsPlainCopyIff(iov, p);
  }

  /** One row of two bytes in two segments with an empty one between: the second byte is not transferred. */
  lemma EmptySegmentDropsBytes()
    ensures var iov := [Segment(0, 1), Segment(1, 0), Segment(1, 1)];
            var p := Plane(1, 2, 0, 2, 2);
            PlainRows(iov, p, 1) == [0, 1] && WalkGuest(iov, p, 1) == [0]
  {
    hide PlainRows, WalkGuest, WalkHost, GuestRows, HostRows;
    EmptySegmentRows();
    WalkIsRows([Segment(0, 1), Segment(1, 0), Segment(1, 1)], Plane(1, 2, 0, 2, 2));
  }

  lemma EmptySegmentRows()
    ensures var iov := [Segment(0, 1), Segment(1, 0), Segment(1, 1)];
            var p := Plane(1, 2, 0, 2, 2);
            PlainRows(iov, p, 1) == [0, 1] && GuestRows(iov, p, 1) == [0]
  {
    var iov := [Segment(0, 1), Segment(1, 0), Segment(1, 1)];
    var p := Plane(1, 2, 0, 2, 2);
    assert iov[1..] == [Segment(1, 0), Segment(1, 1)] && iov[2..] == [Segment(1, 1)] && iov[1..][1..] == iov[2..];
    assert Addrs(iov[2..]) == [1] by {
      assert iov[2..][1..] == [];
    }
    assert Addrs(iov[1..]) == [1];
    assert Addrs(iov) == [0, 1];
    assert Start(iov, 0) == 0 && Start(iov, 1) == 1;
    ReachIs(iov, 0, 2, 1);
    assert PlainRows(iov, p, 0) == [] && GuestRows(iov, p, 0) == [];
  }

  /** Two rows of two bytes, one byte apart, in three segments: the walk does not move the shared byte again. */
  lemma ShortStrideDropsBytes()
    ensures var iov := [Segment(0, 1), Segment(1, 1), Segment(2, 1)];
            var p := Plane(2, 2, 0, 1, 2);
            RowsUnbroken(iov, p, 2) && (WalkGuest(iov, p, 2) != PlainRows(iov, p, 2)
              || WalkHost(iov, p, 2) != PlainHost(iov, p, 2))
  {
    var iov := [Segment(0, 1), Segment(1, 1), Segment(2, 1)];
    var p := Plane(2, 2, 0, 1, 2);
    hide WalkGuest, WalkHost, PlainRows, PlainHost, Held, Start, RowStart, Seam;
    ShortStrideSeam(iov, p);
    assert !Seamless(iov, p, 2);
    assert forall i :: 0 <= i < |iov| ==> iov[i].len == 1;
    WalkIsPlainCopyIff(iov, p);
  }

  lemma ShortStrideSeam(iov: seq<Segment>, p: Plane)
    requires iov == [Segment(0, 1), Segment(1, 1), Segment(2, 1)] && p == Plane(2, 2, 0, 1, 2)
    ensures !Seam(iov, p, 0)
  {
    assert Start(iov, 0) == 0 && Start(iov, 1) == 1 && Start(iov, 2) == 2;
    assert RowStart(p, 0) == 0 && RowStart(p, 1) == 1;
  }

  // --- both ways -----------------------------------------------------------------------------

  /** Image rows do not overlap. */
  lemma {:induction false} WalkHostBelow(iov: seq<Segment>, p: Plane, n: nat)
    requires p.hostStride >= p.row
    ensures Distinct(WalkHost(iov, p, n)) && Inside(WalkHost(iov, p, n), RowHost(p, n))
  {
    hide GuestRow, HostRow, Cursor, Addrs, RowStart, RowHost, Start, Slice, Distinct, Inside;
    if n > 0 {
      WalkHostBelow(iov, p, n - 1);
      NextRowHost(p, n - 1);
      var h, i := n - 1, Cursor(iov, p, n - 1);
      RowContiguous(iov, p, h, i);
      var c, k := Entry(iov, p, h, i) - RowStart(p, h), |GuestRow(iov, p, h, i)|;
      RangeAbove(WalkHost(iov, p, h), RowHost(p, h), RowHost(p, h) + c, k, RowHost(p, n));
    } else {
      NoneDistinct(RowHost(p, 0));
    }
  }

  lemma NoneDistinct(bound: nat)
    ensures Distinct([]) && Inside([], bound)
  {
  }

  lemma RangeAbove(a: seq<nat>, lo: nat, from: nat, n: nat, hi: nat)
    requires Distinct(a) && Inside(a, lo) && lo <= from && lo <= hi && (n > 0 ==> from + n <= hi)
    ensures Distinct(a + Range(from, n)) && Inside(a + Range(from, n), hi)
  {
  }

  lemma NextRowHost(p: Plane, h: nat)
    ensures RowHost(p, h + 1) == RowHost(p, h) + p.hostStride
  {
  }

  /** To the image and back leaves the guest as it was, for any guest stride; the image keeps what it received. */
  lemma ToHostAndBack(iov: seq<Segment>, p: Plane, mem0: seq<Byte>, host0: seq<Byte>, mem1: seq<Byte>,
                      host1: seq<Byte>, mem2: seq<Byte>, host2: seq<Byte>)
    requires p.hostStride >= p.row
    requires Transferred(mem0, host0, mem1, host1, WalkGuest(iov, p, p.rows), WalkHost(iov, p, p.rows), true)
    requires Transferred(mem1, host1, mem2, host2, WalkGuest(iov, p, p.rows), WalkHost(iov, p, p.rows), false)
    ensures mem2 == mem0 && host2 == host1
  {
    hide WalkGuest, WalkHost, RowHost;
    WalkHostBelow(iov, p, p.rows);
    var g, h := WalkGuest(iov, p, p.rows), WalkHost(iov, p, p.rows);
    GatherScatter(host0, h, Gather(mem0, g));
    ScatterGather(mem0, g);
  }

  ghost predicate Drawn(all: seq<nat>, a: nat, bound: nat) {
    exists q :: 0 <= q < |all| && q < bound && all[q] == a
  }

  /** Every element of `s` is an element of `all` before position `bound`. */
  ghost predicate DrawnBelow(all: seq<nat>, s: seq<nat>, bound: nat) {
    forall k :: 0 <= k < |s| ==> Drawn(all, s[k], bound)
  }

  lemma DrawMore(all: seq<nat>, s: seq<nat>, lo: nat, n: nat, bound: nat)
    requires Distinct(all) && Distinct(s) && DrawnBelow(all, s, lo) && lo + n <= bound
    ensures Distinct(s + Slice(all, lo, n)) && DrawnBelow(all, s + Slice(all, lo, n), bound)
  {
    var b := Slice(all, lo, n);
    var t := s + b;
    assert forall k :: 0 <= k < |b| ==> lo + k < |all| && b[k] == all[lo + k];
    forall k | 0 <= k < |t| ensures Drawn(all, t[k], bound) {
      if k < |s| {
        assert Drawn(all, s[k], lo);
        var q :| 0 <= q < |all| && q < lo && all[q] == s[k];
        assert all[q] == t[k];
      } else {
        var q := lo + (k - |s|);
        assert q < bound && all[q] == t[k];
      }
    }
    forall i, j | 0 <= i < j < |t| ensures t[i] != t[j] {
      if i < |s| <= j {
        assert Drawn(all, s[i], lo);
        var q :| 0 <= q < |all| && q < lo && all[q] == s[i];
        assert t[j] == all[lo + (j - |s|)];
      }
    }
  }

  lemma {:induction false} WalkGuestDistinct(iov: seq<Segment>, p: Plane, n: nat)
    requires p.stride >= p.row && Distinct(Addrs(iov))
    ensures Distinct(WalkGuest(iov, p, n)) && DrawnBelow(Addrs(iov), WalkGuest(iov, p, n), RowStart(p, n))
  {
    hide GuestRow, HostRow, Cursor, Addrs, RowStart, RowHost, Start, Slice, Distinct, DrawnBelow, Reach;
    if n > 0 {
      WalkGuestDistinct(iov, p, n - 1);
      NextRowStart(p, n - 1);
      var lo, m := RowStart(p, n - 1), Cursor(iov, p, n - 1);
      if p.row > 0 {
        EnteredInTime(iov, p, n - 1);
      }
      RowReach(iov, p, n - 1, m);
      DrawMore(Addrs(iov), WalkGuest(iov, p, n - 1), lo, Reach(iov, lo, p.row), RowStart(p, n));
    } else {
      NoneDistinct(0);
      NoneDrawn(Addrs(iov), RowStart(p, 0));
    }
  }

  lemma NoneDrawn(all: seq<nat>, bound: nat)
    ensures DrawnBelow(all, [], bound)
  {
  }

  /** From the image and back leaves the image as it was. */
  lemma FromHostAndBack(iov: seq<Segment>, p: Plane, mem0: seq<Byte>, host0: seq<Byte>, mem1: seq<Byte>,
                        host1: seq<Byte>, mem2: seq<Byte>, host2: seq<Byte>)
    requires p.stride >= p.row && Distinct(Addrs(iov))
    requires Transferred(mem0, host0, mem1, host1, WalkGuest(iov, p, p.rows), WalkHost(iov, p, p.rows), false)
    requires Transferred(mem1, host1, mem2, host2, WalkGuest(iov, p, p.rows), WalkHost(iov, p, p.rows), true)
    ensures host2 == host0 && mem2 == mem1
  {
    hide WalkGuest, WalkHost, RowStart, DrawnBelow;
    WalkGuestDistinct(iov, p, p.rows);
    var g, h := WalkGuest(iov, p, p.rows), WalkHost(iov, p, p.rows);
    GatherScatter(mem0, g, Gather(host0, h));
    ScatterGather(host0, h);
  }

  // --- byte by byte --------------------------------------------------------------------------

  /** The walk moves byte `x` of row `h`: it is not before the row's entry, nor past the row's end. */
  ghost predicate Moves(iov: seq<Segment>, p: Plane, h: nat, x: nat) {
    var i := Cursor(iov, p, h);
    Entry(iov, p, h, i) <= RowStart(p, h) + x < Entry(iov, p, h, i) + |GuestRow(iov, p, h, i)|
  }

  /** For a stride of at least a row: iff no empty segment keeps the row from reaching it. */
  lemma MovesIff(iov: seq<Segment>, p: Plane, h: nat, x: nat)
    requires p.stride >= p.row
    ensures Moves(iov, p, h, x) <==> x < Reach(iov, RowStart(p, h), p.row)
  {
    var i := Cursor(iov, p, h);
    if p.row > 0 {
      EnteredInTime(iov, p, h);
    }
    RowReach(iov, p, h, i);
    hide GuestRow, Cursor, Start, RowStart, Reach, Addrs;
    if p.row == 0 {
      NoneReached(iov, RowStart(p, h));
    }
  }

  /** Byte `x` of row `h` has its place in the order of transfer. */
  lemma RowPlace(iov: seq<Segment>, p: Plane, h: nat, x: nat) returns (k: nat)
    requires Moves(iov, p, h, x)
    ensures var i := Cursor(iov, p, h);
      && k < |HostRow(iov, p, h, i)| == |GuestRow(iov, p, h, i)| && HostRow(iov, p, h, i)[k] == RowHost(p, h) + x
      && RowStart(p, h) + x < |Addrs(iov)| && GuestRow(iov, p, h, i)[k] == Addrs(iov)[RowStart(p, h) + x]
  {
    var i := Cursor(iov, p, h);
    RowContiguous(iov, p, h, i);
    k := RowStart(p, h) + x - Entry(iov, p, h, i);
    hide GuestRow, HostRow, Cursor, Start, RowStart, RowHost, Addrs, Slice;
    SliceAt(Addrs(iov), Entry(iov, p, h, i), |GuestRow(iov, p, h, i)|, k);
  }

  lemma {:induction false} WalkPlace(iov: seq<Segment>, p: Plane, n: nat, h: nat, x: nat) returns (k: nat)
    requires h < n && Moves(iov, p, h, x)
    ensures k < |WalkHost(iov, p, n)| == |WalkGuest(iov, p, n)| && WalkHost(iov, p, n)[k] == RowHost(p, h) + x
    ensures RowStart(p, h) + x < |Addrs(iov)| && WalkGuest(iov, p, n)[k] == Addrs(iov)[RowStart(p, h) + x]
    decreases n
  {
    hide GuestRow, HostRow, Cursor, RowStart, RowHost, Addrs, Moves, PlainRows, Full;
    WalkSize(iov, p, n - 1);
    WalkSize(iov, p, n);
    if h < n - 1 {
      k := WalkPlace(iov, p, n - 1, h, x);
    } else {
      k := RowPlace(iov, p, h, x);
      k := |WalkHost(iov, p, h)| + k;
    }
  }

  /** What the walk does not move is not written either. */
  lemma {:induction false} NotWritten(iov: seq<Segment>, p: Plane, n: nat, h: nat, x: nat)
    requires p.hostStride >= p.row && x < p.row && !Moves(iov, p, h, x)
    ensures RowHost(p, h) + x !in WalkHost(iov, p, n)
    decreases n
  {
    hide GuestRow, HostRow, Cursor, RowHost, Moves;
    if n > 0 {
      NotWritten(iov, p, n - 1, h, x);
      NotInRow(iov, p, n - 1, h, x);
    }
  }

  lemma NotInRow(iov: seq<Segment>, p: Plane, g: nat, h: nat, x: nat)
    requires p.hostStride >= p.row && x < p.row && !Moves(iov, p, h, x)
    ensures RowHost(p, h) + x !in HostRow(iov, p, g, Cursor(iov, p, g))
  {
    hide GuestRow, HostRow, Cursor, RowStart, RowHost, Addrs, Start, Slice;
    RowContiguous(iov, p, g, Cursor(iov, p, g));
    if h < g {
      HostRowsApart(p, h, g);
    } else if h > g {
      HostRowsApart(p, g, h);
    }
  }

  lemma HostRowsApart(p: Plane, g: nat, h: nat)
    requires g < h && p.hostStride >= p.row
    ensures RowHost(p, g) + p.row <= RowHost(p, h)
  {
    Scale(g + 1, h, p.hostStride);
  }

  /** Towards the image, for any guest stride: a byte of a row is the guest's byte if it is moved, and else stays. */
  lemma ToHostByte(iov: seq<Segment>, p: Plane, mem0: seq<Byte>, host0: seq<Byte>, mem1: seq<Byte>, host1: seq<Byte>,
                   h: nat, x: nat)
    requires p.hostStride >= p.row && h < p.rows && x < p.row
    requires Transferred(mem0, host0, mem1, host1, WalkGuest(iov, p, p.rows), WalkHost(iov, p, p.rows), true)
    ensures Moves(iov, p, h, x) ==>
      && RowHost(p, h) + x < |host1| && RowStart(p, h) + x < |Addrs(iov)| && Addrs(iov)[RowStart(p, h) + x] < |mem0|
      && host1[RowHost(p, h) + x] == mem0[Addrs(iov)[RowStart(p, h) + x]]
    ensures !Moves(iov, p, h, x) && RowHost(p, h) + x < |host0| ==>
      |host1| == |host0| && host1[RowHost(p, h) + x] == host0[RowHost(p, h) + x]
  {
    hide WalkGuest, WalkHost, Moves, Addrs, RowStart, RowHost;
    var g, to := WalkGuest(iov, p, p.rows), WalkHost(iov, p, p.rows);
    if Moves(iov, p, h, x) {
      var k := WalkPlace(iov, p, p.rows, h, x);
      WalkHostBelow(iov, p, p.rows);
      ScatterAt(host0, to, Gather(mem0, g), k);
    } else if RowHost(p, h) + x < |host0| {
      NotWritten(iov, p, p.rows, h, x);
      ScatterFrame(host0, to, Gather(mem0, g), RowHost(p, h) + x);
    }
  }

  /** Towards the guest, when the list names no address twice and the stride is at least a row. */
  lemma FromHostByte(iov: seq<Segment>, p: Plane, mem0: seq<Byte>, host0: seq<Byte>, mem1: seq<Byte>,
                     host1: seq<Byte>, h: nat, x: nat)
    requires p.stride >= p.row && Distinct(Addrs(iov)) && h < p.rows && x < Reach(iov, RowStart(p, h), p.row)
    requires Transferred(mem0, host0, mem1, host1, WalkGuest(iov, p, p.rows), WalkHost(iov, p, p.rows), false)
    ensures RowHost(p, h) + x < |host0| && RowStart(p, h) + x < |Addrs(iov)| && Addrs(iov)[RowStart(p, h) + x] < |mem1|
    ensures mem1[Addrs(iov)[RowStart(p, h) + x]] == host0[RowHost(p, h) + x]
  {
    hide WalkGuest, WalkHost, Moves, Addrs, Reach, RowStart, RowHost, DrawnBelow;
    MovesIff(iov, p, h, x);
    var k := WalkPlace(iov, p, p.rows, h, x);
    WalkGuestDistinct(iov, p, p.rows);
    ScatterAt(mem0, WalkGuest(iov, p, p.rows), Gather(host0, WalkHost(iov, p, p.rows)), k);
  }
}
