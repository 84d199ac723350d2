/** The renderer as the program has it: one object updated in place, loop by loop. */
module VtestRenderer {
  import opened Bags
  import opened SyncPool
  import opened SyncWaits
  import opened VtestMachine
  import opened VtestInvariant
  import opened VtestSteps
  import opened VtestContexts

  class Renderer {
    var pool: Pool
    var active: seq<Context>
    var freeContexts: seq<Context>
    var nextContextId: int
    var nextEvent: nat
    var nextSubmit: nat
    ghost var log: seq<Event>  // what the run has shown so far

    ghost function Abs(): State
      reads this
    {
      State(pool, active, freeContexts, nextContextId, nextEvent, nextSubmit, log)
    }

    ghost predicate Valid()
      reads this
    {
      Inv(Abs())
    }

    constructor ()
      ensures Valid() && Abs() == INITIAL
    {
      pool, active, freeContexts, nextContextId := EMPTY_POOL, [], [], 1;
      nextEvent, nextSubmit, log := 0, 0, [];
      new;
      assert Held(active) + multiset{} == multiset{};
    }

    /** The precondition is the assertion the program makes. */
    method UnrefSync(r: Ref)
      requires r in pool.syncs && pool.syncs[r].refcount > 0
      modifies this`pool
      ensures pool == Unref(old(pool), r)
    {
      var n := pool.syncs[r].refcount - 1;
      pool := pool.(syncs := pool.syncs[r := pool.syncs[r].(refcount := n)]);
      if n == 0 {
        pool := pool.(free := [r] + pool.free);
      }
    }

    method UnrefEach(refs: seq<Ref>, ghost held: multiset<Ref>)
      requires Counted(pool, held + multiset(refs))
      modifies this`pool
      ensures pool == UnrefAll(old(pool), refs) && Counted(pool, held)
    {
      hide Counted, Unref;
      var i := 0;
      assert refs[0..] == refs;
      while i < |refs|
        invariant 0 <= i <= |refs|
        invariant UnrefAll(pool, refs[i..]) == UnrefAll(old(pool), refs)
        invariant Counted(pool, held + multiset(refs[i..]))
      {
        assert refs[i..] == [refs[i]] + refs[i + 1..];
        CountedUnref(pool, held + multiset(refs[i..]), refs[i]);
        KnownRef(pool, held + multiset(refs[i..]), refs[i]);
        UnrefSync(refs[i]);
        assert held + multiset(refs[i..]) - multiset{refs[i]} == held + multiset(refs[i + 1..]);
        i := i + 1;
      }
      assert held + multiset(refs[i..]) == held;
    }

    /** The loop over the slots of a wait; it stops as soon as the wait is ready. */
    method LatchSlots(wait: Wait, r: Ref, value: nat, ghost held: multiset<Ref>) returns (w: Wait, ready: bool)
      requires Counted(pool, held + WaitBag(wait))
      modifies this`pool
      ensures Latched(pool, w, ready) == Latch(old(pool), wait, r, value, 0)
      ensures Counted(pool, held + WaitBag(w))
    {
      w, ready := wait, false;
      var i := 0;
      while i < |w.slots|
        invariant 0 <= i <= |w.slots|
        invariant Latch(pool, w, r, value, i) == Latch(old(pool), wait, r, value, 0)
        invariant Counted(pool, held + WaitBag(w))
      {
        hide Counted;
        if w.slots[i].sync == Some(r) && w.slots[i].value <= value {
          ClearOneCounted(pool, w, i, held);
          UnrefSync(r);
          w := w.(slots := w.slots[i := Slot(None, w.slots[i].value)], signaledCount := w.signaledCount + 1);
          if w.signaledCount == |w.slots| || w.any {
            return w, true;
          }
        }
        i := i + 1;
      }
    }

    /** The effect of a raising signal on wait `wi` of context `ci`; a finished wait is taken off the list. */
    method StepWait(ci: nat, wi: nat, r: Ref, value: nat, now: nat, ghost extra: multiset<Ref>) returns (kept: bool)
      requires ci < |active| && wi < |active[ci].waits| && Counted(pool, Held(active) + extra)
      modifies this`pool, this`active, this`log
      ensures var o, ws := WaitStep(old(pool), old(active[ci].waits[wi]), r, value, now), old(active[ci].waits);
        && pool == o.pool && log == old(log) + o.events && kept == o.kept.Some?
        && active == old(active)[ci := old(active[ci]).(waits :=
             if kept then ws[wi := o.kept.value] else ws[..wi] + ws[wi + 1..])]
      ensures Counted(pool, Held(active) + extra)
    {
      hide Counted, WaitStep, Held, Latch;
      var ws, wait := active[ci].waits, active[ci].waits[wi];
      ghost var others := RestOf(active, ci, wi, extra);
      TakeWait(active, ci, wi, extra);
      StepIs(pool, wait, r, value, now);
      kept := false;
      if wait.validBefore < now {
        active := active[ci := active[ci].(waits := ws[..wi] + ws[wi + 1..])];
        UnrefEach(LiveRefs(wait.slots), others);
        log := log + [Closed(wait.fd)];
      } else {
        var w, ready := LatchSlots(wait, r, value, others);
        if ready {
          active := active[ci := active[ci].(waits := ws[..wi] + ws[wi + 1..])];
          log := log + [Ready(wait.fd)];
          UnrefEach(LiveRefs(w.slots), others);
          log := log + [Closed(wait.fd)];
        } else {
          PutWait(active, ci, wi, w, extra);
          active := active[ci := active[ci].(waits := ws[wi := w])];
          kept := true;
        }
      }
    }

    method SweepWaits(ci: nat, r: Ref, value: nat, now: nat, ghost extra: multiset<Ref>)
      requires ci < |active| && Counted(pool, Held(active) + extra)
      modifies this`pool, this`active, this`log
      ensures var o := Sweep(old(pool), old(active[ci].waits), r, value, now);
        pool == o.pool && active == old(active)[ci := old(active[ci]).(waits := o.kept)] && log == old(log) + o.events
      ensures Counted(pool, Held(active) + extra)
    {
      hide Counted, WaitStep, Held, Sweep;
      ghost var ctx, all := active[ci], Sweep(pool, active[ci].waits, r, value, now);
      ghost var done, todo: seq<Wait> := [], active[ci].waits;
      assert done + todo == active[ci].waits && ctx.(waits := ctx.waits) == ctx && active[ci := ctx] == active;
      var wi := 0;
      while wi < |active[ci].waits|
        invariant |active| == |old(active)| && wi == |done| && active == old(active)[ci := ctx.(waits := done + todo)]
        invariant var o := Sweep(pool, todo, r, value, now);
          all.pool == o.pool && all.kept == done + o.kept && old(log) + all.events == log + o.events
        invariant Counted(pool, Held(active) + extra)
        decreases |todo|
      {
        ghost var ws, log0 := active[ci].waits, log;
        ghost var one := WaitStep(pool, todo[0], r, value, now);
        ghost var rest := Sweep(one.pool, todo[1..], r, value, now);
        SplitAt(done, todo);
        SweepOne(pool, todo, r, value, now);
        Assoc(log, one.events, rest.events);
        var kept := StepWait(ci, wi, r, value, now, extra);
        if kept {
          Assoc(done, [one.kept.value], rest.kept);
          Assoc(done, [one.kept.value], todo[1..]);
          assert active[ci].waits == (done + [one.kept.value]) + todo[1..];
          done := done + [one.kept.value];
          wi := wi + 1;
        } else {
          assert [] + rest.kept == rest.kept;
        }
        todo := todo[1..];
      }
      SweepNone(pool, todo, r, value, now);
    }

    method SignalSync(r: Ref, value: nat, now: nat, ghost extra: multiset<Ref>)
      requires InvWith(Abs(), extra) && r in pool.syncs
      modifies this`pool, this`active, this`log
      ensures Abs() == VtestMachine.SignalSync(old(Abs()), r, value, now) && InvWith(Abs(), extra)
    {
      hide InvWith, Counted, Held, SweepContexts;
      SignalInv(Abs(), r, value, now, extra);
      InvCounted(Abs(), extra);
      if pool.syncs[r].value >= value {
        pool := pool.(syncs := pool.syncs[r := pool.syncs[r].(value := value)]);
        log := log + [Signalled(Signal(r, value, now, false))];
        return;
      }
      CountedSetValue(pool, Held(active) + extra, r, value);
      pool := pool.(syncs := pool.syncs[r := pool.syncs[r].(value := value)]);
      log := log + [Signalled(Signal(r, value, now, true))];
      SweepActive(r, value, now, extra);
    }

    method SweepActive(r: Ref, value: nat, now: nat, ghost extra: multiset<Ref>)
      requires Counted(pool, Held(active) + extra)
      modifies this`pool, this`active, this`log
      ensures var o := SweepContexts(old(pool), old(active), r, value, now);
        pool == o.pool && active == o.kept && log == old(log) + o.events
    {
      hide Counted, Sweep, Held, SweepContexts;
      ghost var before, all := active, SweepContexts(pool, active, r, value, now);
      var ci := 0;
      assert before[0..] == before;
      while ci < |active|
        invariant 0 <= ci <= |active| == |before| && active[ci..] == before[ci..]
        invariant var o := SweepContexts(pool, before[ci..], r, value, now);
          all.pool == o.pool && all.kept == active[..ci] + o.kept && old(log) + all.events == log + o.events
        invariant Counted(pool, Held(active) + extra)
      {
        ghost var pre := active;
        assert active[ci] == active[ci..][0] == before[ci];
        SweepNext(pool, before, ci, r, value, now);
        ghost var one := Sweep(pool, before[ci].waits, r, value, now);
        ghost var rest := SweepContexts(one.pool, before[ci + 1..], r, value, now);
        Assoc(log, one.events, rest.events);
        SweepWaits(ci, r, value, now, extra);
        assert active[..ci + 1] == pre[..ci] + [active[ci]];
        Assoc(pre[..ci], [active[ci]], rest.kept);
        assert active[ci + 1..] == pre[ci..][1..] == before[ci..][1..] == before[ci + 1..];
        ci := ci + 1;
      }
      SweepEnd(pool, before[ci..], r, value, now);
      assert active[..ci] == active;
    }

    /** Fence callback: completes the queued submits up to the one named. */
    method SignalTimeline(c: nat, ring: nat, serial: nat, now: nat)
      requires Valid() && c < |active| && ring < MAX_TIMELINE_COUNT && ring < |active[c].timelines|
      modifies this`pool, this`active, this`log
      ensures Valid() && Abs() == VtestMachine.SignalTimeline(old(Abs()), c, ring, serial, now)
    {
      ghost var target := VtestMachine.SignalTimeline(Abs(), c, ring, serial, now);
      SignalTimelineInv(Abs(), c, ring, serial, now);
      while active[c].timelines[ring] != []
        invariant c < |active| && ring < |active[c].timelines|
        invariant Valid() && VtestMachine.SignalTimeline(Abs(), c, ring, serial, now) == target
        decreases |active[c].timelines[ring]|
      {
        hide InvWith;
        var submit := active[c].timelines[ring][0];
        PopInv(Abs(), c, ring, multiset{});
        active := active[c := active[c].(timelines := active[c].timelines[ring := active[c].timelines[ring][1..]])];
        SignalSubmit(submit.entries, now);
        if submit.serial == serial {
          return;
        }
      }
    }

    method SignalSubmit(es: seq<Entry>, now: nat)
      requires InvWith(Abs(), multiset{} + multiset(Refs(es)))
      modifies this`pool, this`active, this`log
      ensures Abs() == SignalEntries(old(Abs()), es, now) && Valid()
    {
      hide InvWith, VtestMachine.SignalSync, Unref;
      var i := 0;
      assert es[0..] == es;
      while i < |es|
        invariant 0 <= i <= |es|
        invariant SignalEntries(Abs(), es[i..], now) == SignalEntries(old(Abs()), es, now)
        invariant InvWith(Abs(), multiset{} + multiset(Refs(es[i..])))
      {
        ghost var rest := multiset{} + multiset(Refs(es[i + 1..]));
        assert es[i..][1..] == es[i + 1..];
        assert multiset{} + multiset(Refs(es[i..])) == rest + multiset{es[i].sync};
        HandBack(Abs(), es[i].sync, rest);
        SignalSync(es[i].sync, es[i].value, now, rest + multiset{es[i].sync});
        HandBack(Abs(), es[i].sync, rest);
        UnrefSync(es[i].sync);
        i := i + 1;
      }
      assert multiset{} + multiset(Refs(es[i..])) == multiset{};
    }

    /** Looks up the requested syncs and takes a reference for each one that is below its value. */
    method WaitInit(c: nat, reqs: seq<Request>) returns (slots: seq<Slot>, found: nat)
      requires Valid() && c < |active|
      modifies this`pool
      ensures var entries := Resolve(active[c].table, reqs);
        var unmet := Unmet(entries, Current(old(pool), entries));
        found == |entries| && slots == FreshSlots(unmet) && pool == AddRefs(old(pool), Refs(unmet))
    {
      hide InvWith, FreshSlots, Unmet, Current, AddRefs, Refs;
      var table := active[c].table;
      ghost var p0 := pool;
      WaitInitStart(p0);
      ghost var s0 := Abs();
      slots, found := [], 0;
      ResolveMembers(table, reqs);
      assert reqs[0..] == reqs;
      ghost var all := Resolve(table, reqs);
      while found < |reqs|
        invariant 0 <= found <= |reqs| && found <= |all|
        invariant Resolve(table, reqs[found..]) == all[found..]
        invariant SameSyncs(p0, pool)
        invariant var done, rest := all[..found], all[found..];
          && slots == FreshSlots(Unmet(done, Current(p0, done)))
          && pool == AddRefs(p0, Refs(Unmet(done, Current(p0, done))))
      {
        var req := reqs[found];
        assert reqs[found..][0] == req && reqs[found..][1..] == reqs[found + 1..];
        if req.id !in table {
          assert all[found..] == [];
          assert all[..found] == all;
          return;
        }
        var sync := table[req.id];
        assert all[found] == all[found..][0] == Entry(sync, req.value);
        assert all[found + 1..] == all[found..][1..];
        TableKnown(s0, c, req.id);
        UnmetSnoc(p0, all, found);
        if pool.syncs[sync].value < req.value {
          pool := pool.(syncs := pool.syncs[sync := pool.syncs[sync].(refcount := pool.syncs[sync].refcount + 1)]);
          slots := slots + [Slot(Some(sync), req.value)];
        }
        found := found + 1;
      }
      assert all[..found] == all;
    }

    method SyncWait(c: nat, any: bool, timeout: nat, reqs: seq<Request>, mem: bool, eventOk: bool, sent: bool, now: nat)
      returns (ret: Ret)
      requires Valid() && c < |active|
      modifies this`pool, this`active, this`log, this`nextEvent
      ensures (Abs(), ret) == WaitSync(old(Abs()), c, any, timeout, reqs, mem, eventOk, sent, now)
      ensures Valid()
    {
      hide InvWith, Counted, Resolve, Unmet, Refs, AddRefs, FreshSlots, Current, LiveRefs, UnrefAll;
      WaitSyncInv(Abs(), c, any, timeout, reqs, mem, eventOk, sent, now);
      if !mem {
        return ENOMEM;
      }
      if !eventOk {
        return ENODEV;
      }
      WaitInitReady(Abs(), c, reqs);
      var slots, found := WaitInit(c, reqs);
      var fd := nextEvent;
      nextEvent := nextEvent + 1;
      var wait := Wait(fd, any, Deadline(now, timeout), slots, 0);
      if found < |reqs| {
        UnrefEach(LiveRefs(slots), Held(active));
        log := log + [Closed(fd)];
        return EEXIST;
      }
      ghost var entries := Resolve(active[c].table, reqs);
      var ready := |slots| == 0 || (any && |slots| < |reqs|);
      log := log + [Asked(fd, active[c].id, any, wait.validBefore, sent && timeout != 0,
                          Resolve(active[c].table, reqs), Current(old(pool), entries))];
      assert log == log + [];
      if ready {
        log := log + [Ready(fd)];
      }
      ret := if sent then Ok else EIO;
      if !sent || ready || timeout == 0 {
        UnrefEach(LiveRefs(slots), Held(active));
        log := log + [Closed(fd)];
      } else {
        active := active[c := active[c].(waits := active[c].waits + [wait])];
      }
    }

    method SyncCreate(c: nat, value: nat, mem: Option<Ref>, replied: bool) returns (ret: Ret)
      requires Valid() && c < |active|
      requires mem.Some? ==> mem.value !in pool.syncs
      modifies this`pool, this`active
      ensures (forall r :: r in old(pool).free ==> r in old(pool).syncs)
      ensures (Abs(), ret) == NewSync(old(Abs()), c, value, mem, replied)
      ensures Valid()
    {
      hide InvWith, Counted;
      NewReady(Abs(), value, mem);
      NewSyncInv(Abs(), c, value, mem, replied);
      var r: Ref;
      if pool.free == [] {
        if mem.None? {
          return ENOMEM;
        }
        r := mem.value;
        pool := pool.(syncs := pool.syncs[r := Sync(pool.nextId, 1, value)], nextId := pool.nextId + 1);
      } else {
        r := pool.free[0];
        pool := pool.(syncs := pool.syncs[r := Sync(pool.syncs[r].id, 1, value)], free := pool.free[1..]);
      }
      if !replied {
        UnrefSync(r);
        return EIO;
      }
      active := active[c := active[c].(table := active[c].table[pool.syncs[r].id := r])];
      ret := Ok;
    }

    method SyncUnref(c: nat, id: int)
      requires Valid() && c < |active|
      modifies this`pool, this`active
      ensures Abs() == DropSync(old(Abs()), c, id) && Valid()
    {
      hide InvWith;
      DropSyncInv(Abs(), c, id);
      if id in active[c].table {
        var r := active[c].table[id];
        TableHeld(Abs(), c, id);
        active := active[c := active[c].(table := active[c].table - {id})];
        UnrefSync(r);
      }
    }

    method SyncWrite(c: nat, id: int, value: nat, now: nat) returns (ret: Ret)
      requires Valid() && c < |active|
      modifies this`pool, this`active, this`log
      ensures (Abs(), ret) == WriteSync(old(Abs()), c, id, value, now)
      ensures Valid()
    {
      hide InvWith, VtestMachine.SignalSync;
      if id !in active[c].table {
        return EEXIST;
      }
      TableHeld(Abs(), c, id);
      SignalSync(active[c].table[id], value, now, multiset{});
      ret := Ok;
    }

    /** Signals the requested syncs in order, up to the first unknown id. */
    method SignalEach(c: nat, reqs: seq<Request>, now: nat) returns (ret: Ret)
      requires Valid() && c < |active|
      modifies this`pool, this`active, this`log
      ensures (Abs(), ret) == SignalRequests(old(Abs()), c, reqs, now)
      ensures Valid()
    {
      hide InvWith, VtestMachine.SignalSync;
      var i := 0;
      assert reqs[0..] == reqs;
      while i < |reqs|
        invariant 0 <= i <= |reqs| && c < |active| && Valid()
        invariant SignalRequests(Abs(), c, reqs[i..], now) == SignalRequests(old(Abs()), c, reqs, now)
      {
        assert reqs[i..][0] == reqs[i] && reqs[i..][1..] == reqs[i + 1..];
        if reqs[i].id !in active[c].table {
          return EEXIST;
        }
        TableHeld(Abs(), c, reqs[i].id);
        SignalSync(active[c].table[reqs[i].id], reqs[i].value, now, multiset{});
        i := i + 1;
      }
      ret := Ok;
    }

    /** Takes a reference for each requested sync, up to the first unknown id. */
    method TakeEach(c: nat, reqs: seq<Request>) returns (entries: seq<Entry>)
      requires Valid() && c < |active|
      modifies this`pool
      ensures entries == Resolve(active[c].table, reqs) && pool == AddRefs(old(pool), Refs(entries))
    {
      hide InvWith, AddRefs, Refs;
      var table := active[c].table;
      ghost var p0, s0, all := pool, Abs(), Resolve(table, reqs);
      ResolveMembers(table, reqs);
      assert reqs[0..] == reqs;
      WaitInitStart(p0);
      entries := [];
      while |entries| < |reqs|
        invariant |entries| <= |all| <= |reqs| && entries == all[..|entries|]
        invariant Resolve(table, reqs[|entries|..]) == all[|entries|..]
        invariant SameSyncs(p0, pool) && pool == AddRefs(p0, Refs(entries))
      {
        var req := reqs[|entries|];
        assert reqs[|entries|..][0] == req && reqs[|entries|..][1..] == reqs[|entries| + 1..];
        if req.id !in table {
          assert all[|entries|..] == [];
          assert entries == all;
          return;
        }
        var sync := table[req.id];
        assert all[|entries|] == all[|entries|..][0] == Entry(sync, req.value);
        assert all[|entries| + 1..] == all[|entries|..][1..];
        TableKnown(s0, c, req.id);
        RefsAppend(p0, entries, Entry(sync, req.value));
        pool := pool.(syncs := pool.syncs[sync := pool.syncs[sync].(refcount := pool.syncs[sync].refcount + 1)]);
        assert all[..|entries| + 1] == entries + [Entry(sync, req.value)];
        entries := entries + [Entry(sync, req.value)];
      }
      assert entries == all;
    }

    method SubmitBatch(c: nat, cmdOk: bool, ring: Option<nat>, reqs: seq<Request>, mem: bool, fenceOk: bool, now: nat)
      returns (ret: Ret)
      requires Valid() && c < |active|
      requires ring.Some? ==> ring.value < MAX_TIMELINE_COUNT
      requires |active[c].timelines| == MAX_TIMELINE_COUNT
      modifies this`pool, this`active, this`log, this`nextSubmit
      ensures (Abs(), ret) == VtestMachine.SubmitBatch(old(Abs()), c, cmdOk, ring, reqs, mem, fenceOk, now)
      ensures Valid()
    {
      hide InvWith, Counted, Resolve, Refs, AddRefs, UnrefAll, SignalRequests, Held;
      SubmitBatchInv(Abs(), c, cmdOk, ring, reqs, mem, fenceOk, now);
      if !cmdOk {
        return EINVAL;
      }
      if |reqs| == 0 {
        return Ok;
      }
      if ring.None? {
        ret := SignalEach(c, reqs, now);
        return;
      }
      if !mem {
        return ENOMEM;
      }
      TakeReady(Abs(), c, reqs);
      var entries := TakeEach(c, reqs);
      if |entries| < |reqs| || !fenceOk {
        UnrefEach(Refs(entries), Held(active));
        return if |entries| < |reqs| then EEXIST else EINVAL;
      }
      var queue := active[c].timelines[ring.value] + [Submit(nextSubmit, entries)];
      active := active[c := active[c].(timelines := active[c].timelines[ring.value := queue])];
      nextSubmit := nextSubmit + 1;
      ret := Ok;
    }

    method FreeQueue(q: seq<Submit>, ghost held: multiset<Ref>)
      requires Counted(pool, held + multiset(QueueRefs(q)))
      modifies this`pool
      ensures pool == UnrefAll(old(pool), QueueRefs(q)) && Counted(pool, held)
    {
      hide Counted;
      var k := 0;
      assert q[0..] == q;
      while k < |q|
        invariant 0 <= k <= |q|
        invariant UnrefAll(pool, QueueRefs(q[k..])) == UnrefAll(old(pool), QueueRefs(q))
        invariant Counted(pool, held + multiset(QueueRefs(q[k..])))
      {
        ghost var rest := QueueRefs(q[k + 1..]);
        assert q[k..][0] == q[k] && q[k..][1..] == q[k + 1..];
        UnrefConcat(pool, Refs(q[k].entries), rest);
        assert held + multiset(QueueRefs(q[k..])) == (held + multiset(rest)) + multiset(Refs(q[k].entries));
        UnrefEach(Refs(q[k].entries), held + multiset(rest));
        k := k + 1;
      }
      assert held + multiset(QueueRefs(q[k..])) == held;
    }

    method FreeTimelines(ts: seq<seq<Submit>>, ghost held: multiset<Ref>)
      requires Counted(pool, held + multiset(TimelineRefs(ts)))
      modifies this`pool
      ensures pool == UnrefAll(old(pool), TimelineRefs(ts)) && Counted(pool, held)
    {
      hide Counted, QueueRefs;
      var i := 0;
      assert ts[0..] == ts;
      while i < |ts|
        invariant 0 <= i <= |ts|
        invariant UnrefAll(pool, TimelineRefs(ts[i..])) == UnrefAll(old(pool), TimelineRefs(ts))
        invariant Counted(pool, held + multiset(TimelineRefs(ts[i..])))
      {
        ghost var rest := TimelineRefs(ts[i + 1..]);
        assert ts[i..][0] == ts[i] && ts[i..][1..] == ts[i + 1..];
        UnrefConcat(pool, QueueRefs(ts[i]), rest);
        assert held + multiset(TimelineRefs(ts[i..])) == (held + multiset(rest)) + multiset(QueueRefs(ts[i]));
        FreeQueue(ts[i], held + multiset(rest));
        i := i + 1;
      }
      assert held + multiset(TimelineRefs(ts[i..])) == held;
    }

    method FreeWaits(ws: seq<Wait>, ghost held: multiset<Ref>)
      requires Counted(pool, held + multiset(WaitRefs(ws)))
      modifies this`pool, this`log
      ensures pool == UnrefAll(old(pool), WaitRefs(ws)) && log == old(log) + Closings(ws) && Counted(pool, held)
    {
      hide Counted, LiveRefs;
      var i := 0;
      assert ws[0..] == ws;
      while i < |ws|
        invariant 0 <= i <= |ws|
        invariant UnrefAll(pool, WaitRefs(ws[i..])) == UnrefAll(old(pool), WaitRefs(ws))
        invariant log + Closings(ws[i..]) == old(log) + Closings(ws)
        invariant Counted(pool, held + multiset(WaitRefs(ws[i..])))
      {
        ghost var rest := WaitRefs(ws[i + 1..]);
        assert ws[i..][0] == ws[i] && ws[i..][1..] == ws[i + 1..];
        UnrefConcat(pool, LiveRefs(ws[i].slots), rest);
        assert held + multiset(WaitRefs(ws[i..])) == (held + multiset(rest)) + multiset(LiveRefs(ws[i].slots));
        UnrefEach(LiveRefs(ws[i].slots), held + multiset(rest));
        Assoc(log, [Closed(ws[i].fd)], Closings(ws[i + 1..]));
        log := log + [Closed(ws[i].fd)];
        i := i + 1;
      }
      assert held + multiset(WaitRefs(ws[i..])) == held;
    }

    /** Takes a context from the free list or makes one; a client whose name cannot be read gives it back. */
    method CreateContext(lengthOk: bool, mem: bool, ok: bool) returns (ret: Ret)
      requires Valid()
      modifies this`active, this`freeContexts, this`nextContextId
      ensures (Abs(), ret) == VtestMachine.CreateContext(old(Abs()), lengthOk, mem, ok) && Valid()
    {
      hide InvWith;
      CreateContextInv(Abs(), lengthOk, mem, ok);
      if !lengthOk {
        return EINVAL;
      }
      var ctx;
      if freeContexts == [] {
        if !mem {
          return ENOMEM;
        }
        ctx := Context(nextContextId, map[], EmptyTimelines(), []);
        nextContextId := nextContextId + 1;
      } else {
        ctx := freeContexts[0];
        freeContexts := freeContexts[1..];
      }
      if !ok {
        freeContexts := [ctx] + freeContexts;
        return EINVAL;
      }
      active := active + [ctx];
      return Ok;
    }

    method DestroyContext(c: nat, order: seq<Ref>)
      requires Valid() && c < |active| && Listing(order, active[c].table)
      modifies this`pool, this`active, this`log, this`freeContexts
      ensures Abs() == VtestMachine.DestroyContext(old(Abs()), c, order) && Valid()
    {
      hide InvWith, Counted, TimelineRefs, WaitRefs, Closings, UnrefAll, Listing;
      DestroyContextInv(Abs(), c, order);
      var ctx := active[c];
      ghost var ts, ws := TimelineRefs(ctx.timelines), WaitRefs(ctx.waits);
      DestroyReady(Abs(), c, order);
      active := active[..c] + active[c + 1..];
      log := log + [Destroyed(ctx.id)];
      ghost var held := Held(active);
      FreeTimelines(ctx.timelines, held + multiset(order) + multiset(ws));
      FreeWaits(ctx.waits, held + multiset(order));
      UnrefEach(order, held);
      freeContexts := [Context(ctx.id, map[], EmptyTimelines(), [])] + freeContexts;
    }

    /** Frees every sync on the free list; each must be unreferenced, as the program asserts. */
    method FreeAllSyncs()
      requires FreeExact(pool)
      modifies this`pool
      ensures pool == FreeSyncs(old(pool))
    {
      var p0 := pool;
      var i := 0;
      while i < |p0.free|
        invariant 0 <= i <= |p0.free| && pool.syncs == p0.syncs - (set r | r in p0.free[..i])
      {
        assert p0.free[i] in p0.free && p0.syncs[p0.free[i]].refcount == 0;
        assert p0.free[..i + 1] == p0.free[..i] + [p0.free[i]];
        pool := pool.(syncs := pool.syncs - {p0.free[i]});
        i := i + 1;
      }
      assert p0.free[..i] == p0.free;
      pool := Pool(pool.syncs, [], 1);
    }

    method DestroyActive(orders: seq<seq<Ref>>)
      requires Valid() && Listings(orders, active)
      modifies this`pool, this`active, this`log, this`freeContexts
      ensures |orders| == |old(active)| && Abs() == DestroyAll(old(Abs()), orders) && Valid()
    {
      hide InvWith, Listing, VtestMachine.DestroyContext;
      var i := 0;
      assert orders[0..] == orders;
      while active != []
        invariant 0 <= i <= |orders| && Valid() && Listings(orders[i..], active)
        invariant DestroyAll(Abs(), orders[i..]) == DestroyAll(old(Abs()), orders)
        decreases |active|
      {
        assert orders[i..][0] == orders[i] && orders[i..][1..] == orders[i + 1..];
        DestroyShape(Abs(), orders[i]);
        DestroyContext(0, orders[i]);
        i := i + 1;
      }
    }

    method CleanupRenderer(orders: seq<seq<Ref>>)
      requires Valid() && Listings(orders, active)
      modifies this
      ensures Abs() == VtestMachine.CleanupRenderer(old(Abs()), orders) && Valid()
      ensures pool == EMPTY_POOL && active == [] && freeContexts == [] && nextContextId == 1
    {
      hide InvWith, Listings, VtestMachine.DestroyContext, FreeExact, FreeSyncs, DestroyAll;
      CleanupTotal(Abs(), orders);
      if nextContextId > 1 {
        DestroyActive(orders);
        InvFree(Abs());
        freeContexts, nextContextId := [], 1;
      } else {
        InvFree(Abs());
      }
      if pool.nextId > 1 {
        FreeAllSyncs();
      }
    }
  }

  // --- facts for the loops -------------------------------------------------------------------

  lemma InvCounted(s: State, extra: multiset<Ref>)
    requires InvWith(s, extra)
    ensures Counted(s.pool, Held(s.active) + extra)
  {
  }

  lemma KnownRef(p: Pool, held: multiset<Ref>, r: Ref)
    requires Counted(p, held) && r in held
    ensures r in p.syncs
  {
  }

  /** What is held besides wait `wi` of context `ci`. */
  ghost function RestOf(cs: seq<Context>, ci: nat, wi: nat, extra: multiset<Ref>): multiset<Ref>
    requires ci < |cs| && wi < |cs[ci].waits|
  {
    Held(cs[ci := cs[ci].(waits := cs[ci].waits[..wi] + cs[ci].waits[wi + 1..])]) + extra
  }

  lemma TakeWait(cs: seq<Context>, ci: nat, wi: nat, extra: multiset<Ref>)
    requires ci < |cs| && wi < |cs[ci].waits|
    ensures Held(cs) + extra == RestOf(cs, ci, wi, extra) + WaitBag(cs[ci].waits[wi])
  {
    var ctx := cs[ci].(waits := cs[ci].waits[..wi] + cs[ci].waits[wi + 1..]);
    SumRemove(WaitBag, cs[ci].waits, wi);
    assert CtxBag(ctx) + (WaitBag(cs[ci].waits[wi]) + extra) == CtxBag(cs[ci]) + extra;
    SwapHeld(cs, ci, ctx, extra, WaitBag(cs[ci].waits[wi]) + extra);
    assert Held(cs[ci := ctx]) + (WaitBag(cs[ci].waits[wi]) + extra)
      == RestOf(cs, ci, wi, extra) + WaitBag(cs[ci].waits[wi]);
  }

  lemma PutWait(cs: seq<Context>, ci: nat, wi: nat, w: Wait, extra: multiset<Ref>)
    requires ci < |cs| && wi < |cs[ci].waits|
    ensures Held(cs[ci := cs[ci].(waits := cs[ci].waits[wi := w])]) + extra == RestOf(cs, ci, wi, extra) + WaitBag(w)
  {
    var cs' := cs[ci := cs[ci].(waits := cs[ci].waits[wi := w])];
    TakeWait(cs', ci, wi, extra);
    assert cs'[ci].waits[..wi] + cs'[ci].waits[wi + 1..] == cs[ci].waits[..wi] + cs[ci].waits[wi + 1..];
    assert cs'[ci := cs'[ci].(waits := cs'[ci].waits[..wi] + cs'[ci].waits[wi + 1..])]
        == cs[ci := cs[ci].(waits := cs[ci].waits[..wi] + cs[ci].waits[wi + 1..])];
  }

  lemma Assoc<T>(a: seq<T>, b: seq<T>, c: seq<T>)
    ensures (a + b) + c == a + (b + c)
  {
  }

  lemma SplitAt(done: seq<Wait>, todo: seq<Wait>)
    requires todo != []
    ensures var ws, i := done + todo, |done|;
      && ws[i] == todo[0] && ws[..i] + ws[i + 1..] == done + todo[1..]
      && forall w :: ws[i := w] == done + ([w] + todo[1..])
  {
    var ws, i := done + todo, |done|;
    assert ws[i + 1..] == todo[1..];
    forall w ensures ws[i := w] == done + ([w] + todo[1..]) {
      assert todo[0 := w] == [w] + todo[1..];
    }
  }

  lemma SweepOne(p: Pool, ws: seq<Wait>, r: Ref, value: nat, now: nat)
    requires ws != []
    ensures var one := WaitStep(p, ws[0], r, value, now);
      var rest := Sweep(one.pool, ws[1..], r, value, now);
      Sweep(p, ws, r, value, now) ==
        Swept(rest.pool, (if one.kept.Some? then [one.kept.value] else []) + rest.kept, one.events + rest.events)
  {
  }

  lemma SweepNone(p: Pool, ws: seq<Wait>, r: Ref, value: nat, now: nat)
    requires ws == []
    ensures Sweep(p, ws, r, value, now) == Swept(p, [], [])
  {
  }

  lemma SweepNext(p: Pool, cs: seq<Context>, ci: nat, r: Ref, value: nat, now: nat)
    requires ci < |cs|
    ensures var one := Sweep(p, cs[ci].waits, r, value, now);
      var rest := SweepContexts(one.pool, cs[ci + 1..], r, value, now);
      SweepContexts(p, cs[ci..], r, value, now) ==
        Swept(rest.pool, [cs[ci].(waits := one.kept)] + rest.kept, one.events + rest.events)
  {
    assert cs[ci..][0] == cs[ci] && cs[ci..][1..] == cs[ci + 1..];
  }

  lemma SweepEnd(p: Pool, cs: seq<Context>, r: Ref, value: nat, now: nat)
    requires cs == []
    ensures SweepContexts(p, cs, r, value, now) == Swept(p, [], [])
  {
  }

  /** One iteration of the sweep. */
  lemma StepIs(p: Pool, w: Wait, r: Ref, value: nat, now: nat)
    ensures var l := Latch(p, w, r, value, 0);
      WaitStep(p, w, r, value, now) ==
        if w.validBefore < now then Swept(UnrefAll(p, LiveRefs(w.slots)), None, [Closed(w.fd)])
        else if l.ready then Swept(UnrefAll(l.pool, LiveRefs(l.wait.slots)), None, [Ready(w.fd), Closed(w.fd)])
        else Swept(l.pool, Some(l.wait), [])
  {
  }

  lemma TableKnown(s: State, c: nat, id: int)
    requires Inv(s) && c < |s.active| && id in s.active[c].table
    ensures s.active[c].table[id] in s.pool.syncs
  {
    assert s.active[c] in s.active;
  }

  lemma WaitInitStart(p: Pool)
    ensures Unmet([], Current(p, [])) == [] && FreshSlots([]) == [] && AddRefs(p, Refs([])) == p
  {
  }

  /** One more request: either it is met, or it adds a slot and a reference. */
  lemma UnmetSnoc(p: Pool, es: seq<Entry>, i: nat)
    requires i < |es| && es[i].sync in p.syncs
    ensures var before, after := Unmet(es[..i], Current(p, es[..i])), Unmet(es[..i + 1], Current(p, es[..i + 1]));
      if p.syncs[es[i].sync].value < es[i].value
      then && FreshSlots(after) == FreshSlots(before) + [Slot(Some(es[i].sync), es[i].value)]
           && AddRefs(p, Refs(after)) == AddRef(AddRefs(p, Refs(before)), es[i].sync)
      else after == before
  {
    UnmetAppend(p, es[..i], es[i]);
    assert es[..i + 1] == es[..i] + [es[i]];
    var before := Unmet(es[..i], Current(p, es[..i]));
    if p.syncs[es[i].sync].value < es[i].value {
      SlotsAppend(before, es[i]);
      RefsAppend(p, before, es[i]);
    } else {
      assert before + [] == before;
    }
  }

  lemma CurrentTail(p: Pool, es: seq<Entry>)
    requires es != []
    ensures Current(p, es)[1..] == Current(p, es[1..])
  {
  }

  lemma UnmetSplit(es: seq<Entry>, vs: seq<nat>)
    requires |es| == |vs| && es != []
    ensures Unmet(es, vs) == (if vs[0] < es[0].value then [es[0]] else []) + Unmet(es[1..], vs[1..])
  {
  }

  lemma {:induction false} UnmetAppend(p: Pool, es: seq<Entry>, e: Entry)
    requires e.sync in p.syncs
    ensures Unmet(es + [e], Current(p, es + [e])) ==
      Unmet(es, Current(p, es)) + (if p.syncs[e.sync].value < e.value then [e] else [])
  {
    var all := es + [e];
    UnmetSplit(all, Current(p, all));
    CurrentTail(p, all);
    if es == [] {
      assert all == [e] && all[1..] == [];
    } else {
      UnmetSplit(es, Current(p, es));
      CurrentTail(p, es);
      UnmetAppend(p, es[1..], e);
      assert all[1..] == es[1..] + [e];
      hide Unmet;
    }
  }

  lemma {:induction false} SlotsAppend(es: seq<Entry>, e: Entry)
    ensures FreshSlots(es + [e]) == FreshSlots(es) + [Slot(Some(e.sync), e.value)]
  {
    if es == [] {
      assert es + [e] == [e];
    } else {
      SlotsAppend(es[1..], e);
      assert (es + [e])[1..] == es[1..] + [e];
    }
  }

  lemma {:induction false} RefsAppend(p: Pool, es: seq<Entry>, e: Entry)
    ensures AddRefs(p, Refs(es + [e])) == AddRef(AddRefs(p, Refs(es)), e.sync)
    decreases |es|
  {
    if es == [] {
      assert es + [e] == [e] && Refs([e]) == [e.sync];
      assert [e.sync][1..] == [];
    } else {
      RefsAppend(AddRef(p, es[0].sync), es[1..], e);
      assert (es + [e])[1..] == es[1..] + [e];
    }
  }

  /** The references a wait request takes are those its slots show. */
  lemma WaitInitReady(s: State, c: nat, reqs: seq<Request>)
    requires Inv(s) && c < |s.active|
    ensures var entries := Resolve(s.active[c].table, reqs);
      var unmet := Unmet(entries, Current(s.pool, entries));
      && |FreshSlots(unmet)| == |unmet| && |entries| <= |reqs|
      && Counted(AddRefs(s.pool, Refs(unmet)), Held(s.active) + multiset(LiveRefs(FreshSlots(unmet))))
  {
    var entries := Resolve(s.active[c].table, reqs);
    var unmet := Unmet(entries, Current(s.pool, entries));
    ResolveMembers(s.active[c].table, reqs);
    UnmetMembers(entries, Current(s.pool, entries));
    FreshSlotsFacts(unmet);
    TakeInv(s, c, unmet);
  }

  lemma NewReady(s: State, value: nat, mem: Option<Ref>)
    requires Inv(s) && (mem.Some? ==> mem.value !in s.pool.syncs)
    ensures forall r :: r in s.pool.free ==> r in s.pool.syncs
    ensures s.pool.free != [] ==> s.pool.free[0] in s.pool.syncs
  {
    assert s.pool.free != [] ==> s.pool.free[0] in s.pool.free;
  }

  lemma TableHeld(s: State, c: nat, id: int)
    requires Inv(s) && c < |s.active| && id in s.active[c].table
    ensures var r := s.active[c].table[id]; r in s.pool.syncs && s.pool.syncs[r].refcount > 0
  {
    var r := s.active[c].table[id];
    ResolvedHeld(s, c, [Entry(r, 0)]);
    assert r in Refs([Entry(r, 0)]);
    assert r in Held(s.active) + multiset{};
  }

  lemma TakeReady(s: State, c: nat, reqs: seq<Request>)
    requires Inv(s) && c < |s.active|
    ensures var entries := Resolve(s.active[c].table, reqs);
      |entries| <= |reqs| && Counted(AddRefs(s.pool, Refs(entries)), Held(s.active) + multiset(Refs(entries)))
  {
    ResolveMembers(s.active[c].table, reqs);
    TakeInv(s, c, Resolve(s.active[c].table, reqs));
  }

  lemma {:induction false} UnrefConcat(p: Pool, a: seq<Ref>, b: seq<Ref>)
    ensures UnrefAll(p, a + b) == UnrefAll(UnrefAll(p, a), b)
    decreases |a|
  {
    if a == [] {
      assert a + b == b;
    } else {
      UnrefConcat(Unref(p, a[0]), a[1..], b);
      assert (a + b)[1..] == a[1..] + b;
    }
  }

  lemma DestroyReady(s: State, c: nat, order: seq<Ref>)
    requires Inv(s) && c < |s.active| && Listing(order, s.active[c].table)
    ensures var ctx, held := s.active[c], Held(s.active[..c] + s.active[c + 1..]);
      var ts, ws := TimelineRefs(ctx.timelines), WaitRefs(ctx.waits);
      && Counted(s.pool, held + multiset(order) + multiset(ws) + multiset(ts))
      && UnrefAll(s.pool, ts + ws + order) == UnrefAll(UnrefAll(UnrefAll(s.pool, ts), ws), order)
  {
    var ctx := s.active[c];
    var ts, ws := TimelineRefs(ctx.timelines), WaitRefs(ctx.waits);
    SumRemove(CtxBag, s.active, c);
    TimelineRefsBag(ctx.timelines);
    WaitRefsBag(ctx.waits);
    UnrefConcat(s.pool, ts + ws, order);
    UnrefConcat(s.pool, ts, ws);
    assert Held(s.active[..c] + s.active[c + 1..]) + multiset(order) + multiset(ws) + multiset(ts)
        == Held(s.active) + multiset{};
  }

  lemma DestroyShape(s: State, order: seq<Ref>)
    requires s.active != []
    ensures VtestMachine.DestroyContext(s, 0, order).active == s.active[1..]
  {
    assert s.active[..0] + s.active[1..] == s.active[1..];
  }

  lemma InvFree(s: State)
    requires Inv(s)
    ensures FreeExact(s.pool)
  {
  }
}
