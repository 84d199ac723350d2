/** Whole runs of the vtest renderer: any requests, callbacks and teardowns, in any order. */
module VtestRuns {
  import opened Bags
  import opened SyncPool
  import opened SyncWaits
  import opened VtestMachine
  import opened VtestInvariant
  import opened VtestSteps
  import opened VtestContexts

  datatype Op =
    | NewClient(lengthOk: bool, ctxMem: bool, nameOk: bool)
    | DropClient(c: nat, order: seq<Ref>)
    | SyncCreate(c: nat, value: nat, alloc: Option<Ref>, replied: bool)
    | SyncUnref(c: nat, id: int)
    | SyncWrite(c: nat, id: int, value: nat, now: nat)
    | SyncWait(c: nat, any: bool, timeout: nat, reqs: seq<Request>, mem: bool, eventOk: bool, sent: bool, now: nat)
    | Batch(c: nat, cmdOk: bool, ring: Option<nat>, reqs: seq<Request>, mem: bool, fenceOk: bool, now: nat)
    | Fence(c: nat, ringIdx: nat, serial: nat, now: nat)
    | Cleanup(orders: seq<seq<Ref>>)

  /** What the caller and the environment may do: name live contexts and rings, and malloc unused memory. */
  ghost predicate Enabled(s: State, op: Op) {
    match op
    case NewClient(_, _, _) => true
    case DropClient(c, order) => c < |s.active| && Listing(order, s.active[c].table)
    case SyncCreate(c, _, alloc, _) => c < |s.active| && (alloc.Some? ==> alloc.value !in s.pool.syncs)
    case SyncUnref(c, _) => c < |s.active|
    case SyncWrite(c, _, _, _) => c < |s.active|
    case SyncWait(c, _, _, _, _, _, _, _) => c < |s.active|
    case Batch(c, _, ring, _, _, _, _) => c < |s.active| && (ring.Some? ==> ring.value < MAX_TIMELINE_COUNT)
    case Fence(c, ring, _, _) => c < |s.active| && ring < MAX_TIMELINE_COUNT
    case Cleanup(orders) => Listings(orders, s.active)
  }

  ghost function Step(s: State, op: Op): State
    requires Inv(s) && Enabled(s, op)
  {
    hide InvWith, Listing;
    match op
    case NewClient(lengthOk, mem, ok) => CreateContext(s, lengthOk, mem, ok).0
    case DropClient(c, order) => DestroyContext(s, c, order)
    case SyncCreate(c, value, alloc, replied) =>
      FreeKnown(s);
      NewSync(s, c, value, alloc, replied).0
    case SyncUnref(c, id) => DropSync(s, c, id)
    case SyncWrite(c, id, value, now) => WriteSync(s, c, id, value, now).0
    case SyncWait(c, any, timeout, reqs, mem, eventOk, sent, now) =>
      WaitSync(s, c, any, timeout, reqs, mem, eventOk, sent, now).0
    case Batch(c, cmdOk, ring, reqs, mem, fenceOk, now) =>
      TimelineCount(s, c);
      SubmitBatch(s, c, cmdOk, ring, reqs, mem, fenceOk, now).0
    case Fence(c, ring, serial, now) =>
      TimelineCount(s, c);
      SignalTimeline(s, c, ring, serial, now)
    case Cleanup(orders) => CleanupRenderer(s, orders)
  }

  lemma FreeKnown(s: State)
    requires Inv(s)
    ensures forall r :: r in s.pool.free ==> r in s.pool.syncs
  {
  }

  lemma StepInv(s: State, op: Op)
    requires Inv(s) && Enabled(s, op)
    ensures Inv(Step(s, op))
  {
    hide InvWith, Listing;
    match op
    case NewClient(lengthOk, mem, ok) => CreateContextInv(s, lengthOk, mem, ok);
    case DropClient(c, order) => DestroyContextInv(s, c, order);
    case SyncCreate(c, value, alloc, replied) => FreeKnown(s); NewSyncInv(s, c, value, alloc, replied);
    case SyncUnref(c, id) => DropSyncInv(s, c, id);
    case SyncWrite(c, id, value, now) =>
      if id in s.active[c].table { SignalInv(s, s.active[c].table[id], value, now, multiset{}); }
    case SyncWait(c, any, timeout, reqs, mem, eventOk, sent, now) =>
      WaitSyncInv(s, c, any, timeout, reqs, mem, eventOk, sent, now);
    case Batch(c, cmdOk, ring, reqs, mem, fenceOk, now) => SubmitBatchInv(s, c, cmdOk, ring, reqs, mem, fenceOk, now);
    case Fence(c, ring, serial, now) => SignalTimelineInv(s, c, ring, serial, now);
    case Cleanup(orders) => CleanupTotal(s, orders);
  }

  /** A run: each operation is enabled where it happens. */
  ghost predicate Runs(s: State, ops: seq<Op>, t: State)
    requires Inv(s)
    decreases |ops|
  {
    if ops == [] then s == t
    else
      && Enabled(s, ops[0])
      && (StepInv(s, ops[0]); Runs(Step(s, ops[0]), ops[1..], t))
  }

  lemma InitialInv()
    ensures Inv(INITIAL)
  {
    assert Held(INITIAL.active) + multiset{} == multiset{};
  }

  lemma {:induction false} RunInv(s: State, ops: seq<Op>, t: State)
    requires Inv(s) && Runs(s, ops, t)
    ensures Inv(t)
    decreases |ops|
  {
    if ops != [] {
      StepInv(s, ops[0]);
      RunInv(Step(s, ops[0]), ops[1..], t);
    }
  }

  // --- what holds after every run ----------------------------------------------------------------

  ghost predicate Reachable(t: State) {
    exists ops :: (InitialInv(); Runs(INITIAL, ops, t))
  }

  lemma ReachableInv(t: State)
    requires Reachable(t)
    ensures Inv(t)
  {
    InitialInv();
    var ops :| Runs(INITIAL, ops, t);
    RunInv(INITIAL, ops, t);
  }

  /** Reference counts are exact: a sync is free precisely when nobody holds it, and ids identify syncs. */
  lemma RefcountsExact(t: State, r: Ref)
    requires Reachable(t) && r in t.pool.syncs
    ensures t.pool.syncs[r].refcount == Held(t.active)[r]
    ensures r in t.pool.free <==> Held(t.active)[r] == 0
    ensures multiset(t.pool.free)[r] <= 1
    ensures forall q :: q in t.pool.syncs && q != r ==> t.pool.syncs[q].id != t.pool.syncs[r].id
  {
    ReachableInv(t);
    assert Held(t.active) + multiset{} == Held(t.active);
    OnceEach(t.pool.free, r);
  }

  lemma {:induction false} OnceEach(xs: seq<Ref>, r: Ref)
    requires forall i, j :: 0 <= i < j < |xs| ==> xs[i] != xs[j]
    ensures multiset(xs)[r] <= 1
  {
    if xs != [] {
      OnceEach(xs[1..], r);
      assert xs == [xs[0]] + xs[1..];
      assert xs[0] !in xs[1..];
    }
  }

  /** Nobody refers to a sync that does not exist. */
  lemma NoDanglingSync(t: State, r: Ref)
    requires Reachable(t) && r in Held(t.active)
    ensures r in t.pool.syncs && t.pool.syncs[r].refcount > 0
  {
    ReachableInv(t);
    assert Held(t.active) + multiset{} == Held(t.active);
  }

  /**
   * No lost and no spurious wakeup. An eventfd has been made ready exactly if the requests and signals of
   * the run say so, and then once; it is still listed exactly if its fate is open; otherwise it was closed once.
   */
  lemma WakeupsExact(t: State, fd: EventFd)
    requires Reachable(t)
    ensures multiset(t.log)[Ready(fd)] == if FateOf(t.log, fd).Woken? then 1 else 0
    ensures Fds(t.active)[fd] == if FateOf(t.log, fd).Waiting? then 1 else 0
    ensures multiset(t.log)[Closed(fd)] == if fd < t.nextEvent && !FateOf(t.log, fd).Waiting? then 1 else 0
  {
    ReachableInv(t);
  }

  /** Listed waits have something left to wait for, although signals may have lowered values since. */
  lemma PendingAboveValue(t: State, c: Context, w: Wait, i: nat)
    requires Reachable(t) && c in t.active && w in c.waits && i < |w.slots|
    ensures w.signaledCount == Cleared(w.slots) < |w.slots|
    ensures var f := FateOf(t.log, w.fd);
      && f.Waiting? && |f.entries| == |w.slots|
      && (w.slots[i].sync.None? <==> Reached(f.entries[i], f.seen))
    ensures w.slots[i].sync.Some? ==>
      w.slots[i].sync.value in t.pool.syncs && w.slots[i].value > t.pool.syncs[w.slots[i].sync.value].value
  {
    ReachableInv(t);
    assert WaitValid(t.pool, w) && Linked(w, c.id, FateOf(t.log, w.fd));
  }

  /** Destroying all contexts frees every sync, so cleanup finds only zero counts and leaves no memory behind. */
  lemma CleanupFreesEverything(t: State, orders: seq<seq<Ref>>)
    requires Reachable(t) && Listings(orders, t.active)
    ensures var d := DestroyAll(t, orders);
      forall r :: r in d.pool.syncs ==> d.pool.syncs[r].refcount == 0 && r in d.pool.free
    ensures CleanupRenderer(t, orders).pool == EMPTY_POOL
    ensures forall fd :: !FateOf(CleanupRenderer(t, orders).log, fd).Waiting?
  {
    ReachableInv(t);
    DestroyAllInv(t, orders);
    NoContextNoSync(DestroyAll(t, orders));
    CleanupTotal(t, orders);
    var u := CleanupRenderer(t, orders);
    assert Fds(u.active) == multiset{};
    assert forall fd :: Fds(u.active)[fd] == if FateOf(u.log, fd).Waiting? then 1 else 0;
  }

  // --- merged fences -------------------------------------------------------------------------

  ghost predicate Increasing(q: seq<Submit>) {
    forall i, j :: 0 <= i < j < |q| ==> q[i].serial < q[j].serial
  }

  /** Fence callbacks for the submits with the given serials, one after the other. */
  function Callbacks(s: State, c: nat, ring: nat, serials: seq<nat>, now: nat): State
    requires c < |s.active| && ring < |s.active[c].timelines|
    decreases |serials|
  {
    if serials == [] then s
    else
      TimelineShape(s, c, ring, serials[0], now);
      Callbacks(SignalTimeline(s, c, ring, serials[0], now), c, ring, serials[1..], now)
  }

  lemma {:induction false} TimelineShape(s: State, c: nat, ring: nat, serial: nat, now: nat)
    requires c < |s.active| && ring < |s.active[c].timelines|
    ensures var t := SignalTimeline(s, c, ring, serial, now);
      |t.active| == |s.active| && |t.active[c].timelines| == |s.active[c].timelines|
    decreases |s.active[c].timelines[ring]|
  {
    var q := s.active[c].timelines[ring];
    if q != [] && q[0].serial != serial {
      var popped := s.(active := s.active[c := SetTimeline(s.active[c], ring, q[1..])]);
      TimelineShape(SignalEntries(popped, q[0].entries, now), c, ring, serial, now);
    }
  }

  lemma {:induction false} TimelineSplit(s: State, c: nat, ring: nat, i: nat, j: nat, now: nat)
    requires c < |s.active| && ring < |s.active[c].timelines|
    requires Increasing(s.active[c].timelines[ring]) && i < j < |s.active[c].timelines[ring]|
    ensures var q := s.active[c].timelines[ring];
      var t := SignalTimeline(s, c, ring, q[i].serial, now);
      && |t.active| == |s.active| && |t.active[c].timelines| == |s.active[c].timelines|
      && t.active[c].timelines[ring] == q[i + 1..]
      && SignalTimeline(t, c, ring, q[j].serial, now) == SignalTimeline(s, c, ring, q[j].serial, now)
    decreases i
  {
    var q := s.active[c].timelines[ring];
    var popped := s.(active := s.active[c := SetTimeline(s.active[c], ring, q[1..])]);
    var t := SignalEntries(popped, q[0].entries, now);
    assert t.active[c].timelines[ring] == q[1..];
    if i > 0 {
      TimelineSplit(t, c, ring, i - 1, j - 1, now);
    }
  }

  /** Positions of some queued submits, in queue order. */
  ghost predicate Positions(ks: seq<nat>, n: nat) {
    ks != [] && (forall a, b :: 0 <= a < b < |ks| ==> ks[a] < ks[b]) && ks[|ks| - 1] == n
  }

  function SerialsAt(q: seq<Submit>, ks: seq<nat>): seq<nat>
    requires forall a :: 0 <= a < |ks| ==> ks[a] < |q|
  {
    seq(|ks|, a requires 0 <= a < |ks| => q[ks[a]].serial)
  }

  /**
   * Fence merging is invisible: callbacks for any selection of the queued submits that ends with submit `n`,
   * in particular for each of them in order, have the effect of the single callback for submit `n`.
   */
  lemma {:induction false} MergingInvisible(s: State, c: nat, ring: nat, ks: seq<nat>, n: nat, now: nat)
    requires c < |s.active| && ring < |s.active[c].timelines|
    requires var q := s.active[c].timelines[ring]; Increasing(q) && n < |q|
    requires Positions(ks, n)
    ensures forall a :: 0 <= a < |ks| ==> ks[a] < |s.active[c].timelines[ring]|
    ensures var q := s.active[c].timelines[ring];
      Callbacks(s, c, ring, SerialsAt(q, ks), now) == SignalTimeline(s, c, ring, q[n].serial, now)
    decreases |ks|
  {
    hide SignalTimeline, Increasing;
    PositionsBelow(ks, n);
    var q := s.active[c].timelines[ring];
    var serials := SerialsAt(q, ks);
    TimelineShape(s, c, ring, serials[0], now);
    if |ks| == 1 {
      assert serials[1..] == [];
    } else {
      var i := ks[0];
      TimelineSplit(s, c, ring, i, n, now);
      var rest := Shifted(ks);
      ShiftedPositions(ks, n);
      ShiftedSerials(q, ks, n);
      IncreasingTail(q, i + 1);
      assert q[i + 1..][n - i - 1] == q[n];
      MergingInvisible(SignalTimeline(s, c, ring, q[i].serial, now), c, ring, rest, n - i - 1, now);
    }
  }

  lemma PositionsBelow(ks: seq<nat>, n: nat)
    requires Positions(ks, n)
    ensures forall a :: 0 <= a < |ks| ==> ks[a] <= n
    ensures |ks| > 1 ==> ks[0] < n
  {
  }

  /** The remaining positions, counted from the submit after the first one. */
  function Shifted(ks: seq<nat>): seq<nat>
    requires ks != [] && forall b :: 0 < b < |ks| ==> ks[0] < ks[b]
  {
    seq(|ks| - 1, a requires 0 <= a < |ks| - 1 => ks[a + 1] - ks[0] - 1)
  }

  lemma ShiftedPositions(ks: seq<nat>, n: nat)
    requires Positions(ks, n) && |ks| > 1
    ensures ks[0] < n && Positions(Shifted(ks), n - ks[0] - 1)
  {
  }

  lemma ShiftedSerials(q: seq<Submit>, ks: seq<nat>, n: nat)
    requires Positions(ks, n) && |ks| > 1 && n < |q|
    ensures forall a :: 0 <= a < |ks| ==> ks[a] < |q|
    ensures forall a :: 0 <= a < |Shifted(ks)| ==> Shifted(ks)[a] < |q[ks[0] + 1..]|
    ensures SerialsAt(q, ks)[1..] == SerialsAt(q[ks[0] + 1..], Shifted(ks))
  {
    PositionsBelow(ks, n);
    ShiftedPositions(ks, n);
    PositionsBelow(Shifted(ks), n - ks[0] - 1);
  }

  lemma IncreasingTail(q: seq<Submit>, i: nat)
    requires Increasing(q) && i <= |q|
    ensures Increasing(q[i..])
  {
  }

  // --- queues of reachable states are ordered ----------------------------------------------------

  ghost predicate Ordered(q: seq<Submit>, n: nat) {
    Increasing(q) && forall u :: u in q ==> u.serial < n
  }

  ghost predicate SerialsOk(s: State) {
    forall i, k :: 0 <= i < |s.active| && 0 <= k < |s.active[i].timelines| ==>
      Ordered(s.active[i].timelines[k], s.nextSubmit)
  }

  ghost predicate SameTimelines(s: State, t: State) {
    && |t.active| == |s.active| && s.nextSubmit == t.nextSubmit
    && forall i :: 0 <= i < |s.active| ==> t.active[i].timelines == s.active[i].timelines
  }

  lemma {:induction false} SignalRequestsTimelines(s: State, c: nat, reqs: seq<Request>, now: nat)
    requires c < |s.active|
    ensures SameTimelines(s, SignalRequests(s, c, reqs, now).0)
    decreases |reqs|
  {
    if reqs != [] && reqs[0].id in s.active[c].table {
      SignalRequestsTimelines(SignalSync(s, s.active[c].table[reqs[0].id], reqs[0].value, now), c, reqs[1..], now);
    }
  }

  lemma {:induction false} SignalTimelineSerials(s: State, c: nat, ring: nat, serial: nat, now: nat)
    requires SerialsOk(s) && c < |s.active| && ring < |s.active[c].timelines|
    ensures SerialsOk(SignalTimeline(s, c, ring, serial, now))
    decreases |s.active[c].timelines[ring]|
  {
    var q := s.active[c].timelines[ring];
    if q != [] {
      assert Ordered(q, s.nextSubmit);
      assert Ordered(q[1..], s.nextSubmit);
      var popped := s.(active := s.active[c := SetTimeline(s.active[c], ring, q[1..])]);
      var t := SignalEntries(popped, q[0].entries, now);
      EntriesNext(popped, q[0].entries, now);
      assert SerialsOk(popped);
      if q[0].serial != serial {
        SignalTimelineSerials(t, c, ring, serial, now);
      }
    }
  }

  lemma {:induction false} EntriesNext(s: State, es: seq<Entry>, now: nat)
    ensures SignalEntries(s, es, now).nextSubmit == s.nextSubmit
    decreases |es|
  {
    if es != [] {
      var t := SignalSync(s, es[0].sync, es[0].value, now);
      EntriesNext(t.(pool := Unref(t.pool, es[0].sync)), es[1..], now);
    }
  }

  lemma QueuedSerials(s: State, c: nat, ring: nat, es: seq<Entry>)
    requires SerialsOk(s) && c < |s.active| && ring < |s.active[c].timelines|
    ensures var ctx, u := s.active[c], Submit(s.nextSubmit, es);
      SerialsOk(s.(nextSubmit := s.nextSubmit + 1,
                   active := s.active[c := SetTimeline(ctx, ring, ctx.timelines[ring] + [u])]))
  {
    var q := s.active[c].timelines[ring];
    assert Ordered(q, s.nextSubmit);
    assert Ordered(q + [Submit(s.nextSubmit, es)], s.nextSubmit + 1);
  }

  lemma CreateSerials(s: State, lengthOk: bool, mem: bool, ok: bool)
    requires Inv(s) && SerialsOk(s)
    ensures SerialsOk(CreateContext(s, lengthOk, mem, ok).0)
  {
    hide Counted, WaitsOk, LinksOk, Outputs, Sum;
    assert s.freeContexts != [] ==> s.freeContexts[0] in s.freeContexts;
  }

  lemma BatchSerials(s: State, c: nat, cmdOk: bool, ring: Option<nat>, reqs: seq<Request>, mem: bool,
                     fenceOk: bool, now: nat)
    requires SerialsOk(s) && c < |s.active|
    requires ring.Some? ==> ring.value < |s.active[c].timelines|
    ensures SerialsOk(SubmitBatch(s, c, cmdOk, ring, reqs, mem, fenceOk, now).0)
  {
    hide Resolve, Refs, AddRefs, UnrefAll, SignalRequests;
    SignalRequestsTimelines(s, c, reqs, now);
    if ring.Some? {
      QueuedSerials(s, c, ring.value, Resolve(s.active[c].table, reqs));
    }
  }

  /** The operations that leave all queues alone or drop one context's. */
  lemma OtherSerials(s: State, op: Op)
    requires Inv(s) && SerialsOk(s) && Enabled(s, op)
    requires op.DropClient? || op.SyncCreate? || op.SyncUnref? || op.SyncWrite? || op.SyncWait?
    ensures SerialsOk(Step(s, op))
  {
    hide InvWith, Listing, Ordered, Resolve, Refs, AddRefs, UnrefAll, Release, Unmet, FreshSlots, Current;
  }

  lemma StepSerials(s: State, op: Op)
    requires Inv(s) && SerialsOk(s) && Enabled(s, op)
    ensures SerialsOk(Step(s, op))
  {
    hide InvWith, Listing, Ordered, SignalTimeline;
    match op
    case NewClient(lengthOk, mem, ok) => CreateSerials(s, lengthOk, mem, ok);
    case Batch(c, cmdOk, ring, reqs, mem, fenceOk, now) =>
      TimelineCount(s, c);
      BatchSerials(s, c, cmdOk, ring, reqs, mem, fenceOk, now);
    case Fence(c, ring, serial, now) =>
      TimelineCount(s, c);
      SignalTimelineSerials(s, c, ring, serial, now);
    case Cleanup(orders) => CleanupTotal(s, orders);
    case _ => OtherSerials(s, op);
  }

  lemma {:induction false} RunSerials(s: State, ops: seq<Op>, t: State)
    requires Inv(s) && SerialsOk(s) && Runs(s, ops, t)
    ensures SerialsOk(t)
    decreases |ops|
  {
    if ops != [] {
      StepInv(s, ops[0]);
      StepSerials(s, ops[0]);
      RunSerials(Step(s, ops[0]), ops[1..], t);
    }
  }

  /** In every reachable state a merged fence stands for all the submits before it. */
  lemma ReachableMerging(t: State, c: nat, ring: nat, ks: seq<nat>, n: nat, now: nat)
    requires Reachable(t) && c < |t.active| && ring < |t.active[c].timelines|
    requires n < |t.active[c].timelines[ring]| && Positions(ks, n)
    ensures forall a :: 0 <= a < |ks| ==> ks[a] < |t.active[c].timelines[ring]|
    ensures var q := t.active[c].timelines[ring];
      Callbacks(t, c, ring, SerialsAt(q, ks), now) == SignalTimeline(t, c, ring, q[n].serial, now)
  {
    InitialInv();
    var ops :| Runs(INITIAL, ops, t);
    RunSerials(INITIAL, ops, t);
    assert Ordered(t.active[c].timelines[ring], t.nextSubmit);
    MergingInvisible(t, c, ring, ks, n, now);
  }
}
