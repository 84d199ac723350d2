/** Waits on syncs: how one signal latches, wakes or expires a wait, and what its owner may expect. */
module SyncWaits {
  import opened Bags
  import opened SyncPool

  /** Identity of an eventfd object, never reused. */
  type EventFd = nat

  datatype Entry = Entry(sync: Ref, value: nat)

  /** A slot loses its sync when the entry is latched. */
  datatype Slot = Slot(sync: Option<Ref>, value: nat)

  datatype Wait = Wait(fd: EventFd, any: bool, validBefore: nat, slots: seq<Slot>, signaledCount: nat)

  /** A call of the signal routine; `raised` tells whether it raised the sync's value. */
  datatype Signal = Signal(sync: Ref, value: nat, now: nat, raised: bool)

  /** What a run shows: requests and signals it receives, eventfds it makes ready or closes. */
  datatype Event =
    | Asked(fd: EventFd, ctx: int, any: bool, validBefore: nat, keep: bool, entries: seq<Entry>, current: seq<nat>)
    | Signalled(signal: Signal)
    | Destroyed(ctx: int)
    | Ready(fd: EventFd)
    | Closed(fd: EventFd)

  // --- the routine, for one wait -------------------------------------------------------------

  function LiveRefs(slots: seq<Slot>): seq<Ref> {
    if slots == [] then []
    else (if slots[0].sync.Some? then [slots[0].sync.value] else []) + LiveRefs(slots[1..])
  }

  function WaitBag(w: Wait): multiset<Ref> {
    multiset(LiveRefs(w.slots))
  }

  datatype Latched = Latched(pool: Pool, wait: Wait, ready: bool)

  predicate Matches(slot: Slot, r: Ref, value: nat) {
    slot.sync == Some(r) && slot.value <= value
  }

  /** The test made after each latched slot. */
  predicate IsReady(w: Wait) {
    w.signaledCount == |w.slots| || w.any
  }

  function ClearOne(w: Wait, i: nat): Wait
    requires i < |w.slots|
  {
    w.(slots := w.slots[i := Slot(None, w.slots[i].value)], signaledCount := w.signaledCount + 1)
  }

  /** The loop over the slots from `i` on; it stops as soon as the wait is ready. */
  function Latch(p: Pool, w: Wait, r: Ref, value: nat, i: nat): Latched
    requires i <= |w.slots|
    decreases |w.slots| - i
  {
    if i == |w.slots| then Latched(p, w, false)
    else if !Matches(w.slots[i], r, value) then Latch(p, w, r, value, i + 1)
    else
      var w' := ClearOne(w, i);
      if IsReady(w') then Latched(Unref(p, r), w', true)
      else Latch(Unref(p, r), w', r, value, i + 1)
  }

  datatype Swept<+T> = Swept(pool: Pool, kept: T, events: seq<Event>)

  function Release(p: Pool, w: Wait): Pool {
    UnrefAll(p, LiveRefs(w.slots))
  }

  /** What a raising signal does to one listed wait. */
  function WaitStep(p: Pool, w: Wait, r: Ref, value: nat, now: nat): Swept<Option<Wait>> {
    if w.validBefore < now then Swept(Release(p, w), None, [Closed(w.fd)])
    else
      var l := Latch(p, w, r, value, 0);
      if l.ready then Swept(Release(l.pool, l.wait), None, [Ready(w.fd), Closed(w.fd)])
      else Swept(l.pool, Some(l.wait), [])
  }

  /** What it does to the waits of one context, in order. */
  function Sweep(p: Pool, ws: seq<Wait>, r: Ref, value: nat, now: nat): Swept<seq<Wait>>
    decreases |ws|
  {
    if ws == [] then Swept(p, [], [])
    else
      var one := WaitStep(p, ws[0], r, value, now);
      var rest := Sweep(one.pool, ws[1..], r, value, now);
      Swept(rest.pool, (if one.kept.Some? then [one.kept.value] else []) + rest.kept, one.events + rest.events)
  }

  // --- what the owner of a wait may expect -----------------------------------------------------

  datatype Fate =
    | Unknown
    | Waiting(ctx: int, any: bool, validBefore: nat, entries: seq<Entry>, seen: seq<Signal>)
    | Woken
    | Expired
    | Dropped

  /** Some signal seen so far brought the sync of `e` to at least the awaited value. */
  ghost predicate Reached(e: Entry, seen: seq<Signal>) {
    exists s :: s in seen && s.sync == e.sync && s.value >= e.value
  }

  ghost predicate Complete(entries: seq<Entry>, any: bool, seen: seq<Signal>) {
    if any then exists e :: e in entries && Reached(e, seen)
    else forall e :: e in entries ==> Reached(e, seen)
  }

  /** The requested entries whose sync is below the awaited value. */
  function Unmet(entries: seq<Entry>, current: seq<nat>): (r: seq<Entry>)
    requires |entries| == |current|
  {
    if entries == [] then []
    else (if current[0] < entries[0].value then [entries[0]] else []) + Unmet(entries[1..], current[1..])
  }

  ghost function FateStep(f: Fate, e: Event, fd: EventFd): Fate {
    match e
    case Asked(g, ctx, any, before, keep, entries, current) =>
      if g != fd || |entries| != |current| then f
      else
        var unmet := Unmet(entries, current);
        if unmet == [] || (any && |unmet| < |entries|) then Woken
        else if !keep then Dropped
        else Waiting(ctx, any, before, unmet, [])
    case Signalled(s) =>
      if !f.Waiting? then f
      else if s.raised && f.validBefore < s.now then Expired
      else if Complete(f.entries, f.any, f.seen + [s]) then Woken
      else f.(seen := f.seen + [s])
    case Destroyed(ctx) => if f.Waiting? && f.ctx == ctx then Dropped else f
    case _ => f
  }

  /** The fate of a wait according to the requests, signals and context deaths of a run alone. */
  ghost function FateOf(log: seq<Event>, fd: EventFd): Fate {
    if log == [] then Unknown else FateStep(FateOf(log[..|log| - 1], fd), log[|log| - 1], fd)
  }

  lemma FateAppend(log: seq<Event>, e: Event, fd: EventFd)
    ensures FateOf(log + [e], fd) == FateStep(FateOf(log, fd), e, fd)
  {
    assert (log + [e])[..|log|] == log;
  }

  /** Outputs do not feed back into fates. */
  lemma {:induction false} FateOutputs(log: seq<Event>, out: seq<Event>, fd: EventFd)
    requires forall e :: e in out ==> e.Ready? || e.Closed?
    ensures FateOf(log + out, fd) == FateOf(log, fd)
    decreases |out|
  {
    if out == [] {
      assert log + out == log;
    } else {
      var k := |out| - 1;
      assert log + out == (log + out[..k]) + [out[k]];
      assert out[k] in out;
      FateAppend(log + out[..k], out[k], fd);
      FateOutputs(log, out[..k], fd);
    }
  }

  // --- slots against seen signals ----------------------------------------------------------------

  function Cleared(slots: seq<Slot>): nat {
    if slots == [] then 0 else (if slots[0].sync.None? then 1 else 0) + Cleared(slots[1..])
  }

  /** A slot is empty exactly when its entry has been reached. */
  ghost predicate Mirrors(slots: seq<Slot>, entries: seq<Entry>, seen: seq<Signal>) {
    && |slots| == |entries|
    && (forall i :: 0 <= i < |slots| ==>
          && slots[i].value == entries[i].value
          && slots[i].sync == if Reached(entries[i], seen) then None else Some(entries[i].sync))
  }

  /** A listed wait counts its empty slots, is not complete, and its pending entries lie above their syncs. */
  ghost predicate WaitValid(p: Pool, w: Wait) {
    && w.signaledCount == Cleared(w.slots) < |w.slots|
    && (w.any ==> w.signaledCount == 0)
    && (forall i :: 0 <= i < |w.slots| && w.slots[i].sync.Some? ==>
          w.slots[i].sync.value in p.syncs && w.slots[i].value > p.syncs[w.slots[i].sync.value].value)
  }

  ghost predicate Linked(w: Wait, ctx: int, f: Fate) {
    && f.Waiting? && f.ctx == ctx && f.any == w.any && f.validBefore == w.validBefore
    && Mirrors(w.slots, f.entries, f.seen)
  }

  lemma {:induction false} ClearedBounds(slots: seq<Slot>)
    ensures Cleared(slots) <= |slots|
    ensures Cleared(slots) == |slots| <==> forall i :: 0 <= i < |slots| ==> slots[i].sync.None?
    ensures Cleared(slots) == 0 <==> forall i :: 0 <= i < |slots| ==> slots[i].sync.Some?
  {
    if slots != [] {
      ClearedBounds(slots[1..]);
      assert forall i :: 0 < i < |slots| ==> slots[i] == slots[1..][i - 1];
    }
  }

  lemma {:induction false} ClearSlot(slots: seq<Slot>, i: nat)
    requires i < |slots| && slots[i].sync.Some?
    ensures var after := slots[i := Slot(None, slots[i].value)];
      && Cleared(after) == Cleared(slots) + 1
      && multiset(LiveRefs(slots)) == multiset(LiveRefs(after)) + multiset{slots[i].sync.value}
  {
    var after := slots[i := Slot(None, slots[i].value)];
    if i == 0 {
      assert after[1..] == slots[1..];
    } else {
      ClearSlot(slots[1..], i - 1);
      assert after[1..] == slots[1..][i - 1 := Slot(None, slots[i].value)];
      assert after[0] == slots[0];
    }
  }

  lemma {:induction false} LiveRefIn(slots: seq<Slot>, i: nat)
    requires i < |slots| && slots[i].sync.Some?
    ensures slots[i].sync.value in LiveRefs(slots)
  {
    if i > 0 {
      LiveRefIn(slots[1..], i - 1);
    }
  }

  // --- the loop keeps the counts ---------------------------------------------------------------

  lemma ClearOneCounted(p: Pool, w: Wait, i: nat, held: multiset<Ref>)
    requires i < |w.slots| && w.slots[i].sync.Some?
    requires Counted(p, held + WaitBag(w))
    ensures var r := w.slots[i].sync.value;
      && r in p.syncs && p.syncs[r].refcount > 0
      && Counted(Unref(p, r), held + WaitBag(ClearOne(w, i)))
      && SameSyncs(p, Unref(p, r))
  {
    var r := w.slots[i].sync.value;
    ClearSlot(w.slots, i);
    assert r in held + WaitBag(w);
    CountedUnref(p, held + WaitBag(w), r);
    assert held + WaitBag(w) - multiset{r} == held + WaitBag(ClearOne(w, i));
  }

  lemma {:induction false} LatchCounted(p: Pool, w: Wait, r: Ref, value: nat, i: nat, held: multiset<Ref>)
    requires i <= |w.slots|
    requires Counted(p, held + WaitBag(w))
    ensures var l := Latch(p, w, r, value, i);
      Counted(l.pool, held + WaitBag(l.wait)) && SameSyncs(p, l.pool)
    decreases |w.slots| - i
  {
    if i < |w.slots| {
      if Matches(w.slots[i], r, value) {
        ClearOneCounted(p, w, i, held);
        if !IsReady(ClearOne(w, i)) {
          LatchCounted(Unref(p, r), ClearOne(w, i), r, value, i + 1, held);
        }
      } else {
        LatchCounted(p, w, r, value, i + 1, held);
      }
    }
  }

  lemma WaitStepCounted(p: Pool, w: Wait, r: Ref, value: nat, now: nat, held: multiset<Ref>)
    requires Counted(p, held + WaitBag(w))
    ensures var o := WaitStep(p, w, r, value, now);
      && SameSyncs(p, o.pool)
      && Counted(o.pool, held + (if o.kept.Some? then WaitBag(o.kept.value) else multiset{}))
  {
    if w.validBefore < now {
      CountedUnrefAll(p, held, LiveRefs(w.slots));
      assert held + multiset{} == held;
    } else {
      LatchCounted(p, w, r, value, 0, held);
      var l := Latch(p, w, r, value, 0);
      if l.ready {
        CountedUnrefAll(l.pool, held, LiveRefs(l.wait.slots));
        assert held + multiset{} == held;
      }
    }
  }

  lemma {:induction false} SweepCounted(p: Pool, ws: seq<Wait>, r: Ref, value: nat, now: nat, held: multiset<Ref>)
    requires Counted(p, held + Sum(WaitBag, ws))
    ensures var o := Sweep(p, ws, r, value, now);
      && SameSyncs(p, o.pool)
      && Counted(o.pool, held + Sum(WaitBag, o.kept))
    decreases |ws|
  {
    hide Counted, WaitStep, WaitBag;
    if ws != [] {
      var w, rest := ws[0], ws[1..];
      var one := WaitStep(p, w, r, value, now);
      var kept := if one.kept.Some? then [one.kept.value] else [];
      assert held + Sum(WaitBag, ws) == (held + Sum(WaitBag, rest)) + WaitBag(w);
      WaitStepCounted(p, w, r, value, now, held + Sum(WaitBag, rest));
      assert Sum(WaitBag, kept) == if one.kept.Some? then WaitBag(one.kept.value) else multiset{};
      assert held + Sum(WaitBag, rest) + Sum(WaitBag, kept) == (held + Sum(WaitBag, kept)) + Sum(WaitBag, rest);
      SweepCounted(one.pool, rest, r, value, now, held + Sum(WaitBag, kept));
      var o := Sweep(one.pool, rest, r, value, now);
      SumConcat(WaitBag, kept, o.kept);
      assert held + Sum(WaitBag, kept) + Sum(WaitBag, o.kept) == held + Sum(WaitBag, kept + o.kept);
    }
  }

  // --- the loop computes the fate ----------------------------------------------------------------

  function LatchAll(slots: seq<Slot>, r: Ref, value: nat, i: nat): seq<Slot> {
    seq(|slots|, j requires 0 <= j < |slots| =>
      if i <= j && Matches(slots[j], r, value) then Slot(None, slots[j].value) else slots[j])
  }

  /** The early exit loses nothing: the loop is ready exactly when latching every match would complete the wait. */
  lemma {:induction false} LatchExact(p: Pool, w: Wait, r: Ref, value: nat, i: nat)
    requires i <= |w.slots|
    requires w.signaledCount == Cleared(w.slots) < |w.slots|
    requires w.any ==> w.signaledCount == 0
    ensures var l, all := Latch(p, w, r, value, i), LatchAll(w.slots, r, value, i);
      && (l.ready <==> if w.any then Cleared(all) > 0 else Cleared(all) == |all|)
      && (!l.ready ==> l.wait == w.(slots := all, signaledCount := Cleared(all)))
    decreases |w.slots| - i
  {
    var all := LatchAll(w.slots, r, value, i);
    if i == |w.slots| {
      assert all == w.slots;
    } else if !Matches(w.slots[i], r, value) {
      LatchExact(p, w, r, value, i + 1);
      assert all == LatchAll(w.slots, r, value, i + 1);
    } else {
      var w' := ClearOne(w, i);
      ClearSlot(w.slots, i);
      LatchAllStep(w, r, value, i);
      if !IsReady(w') {
        LatchExact(Unref(p, r), w', r, value, i + 1);
      }
    }
  }

  lemma LatchAllStep(w: Wait, r: Ref, value: nat, i: nat)
    requires i < |w.slots| && Matches(w.slots[i], r, value)
    ensures LatchAll(w.slots, r, value, i) == LatchAll(ClearOne(w, i).slots, r, value, i + 1)
    ensures Cleared(LatchAll(w.slots, r, value, i)) > 0
    ensures Cleared(ClearOne(w, i).slots) == |w.slots| ==> Cleared(LatchAll(w.slots, r, value, i)) == |w.slots|
  {
    var w' := ClearOne(w, i);
    var all := LatchAll(w.slots, r, value, i);
    assert all == LatchAll(w'.slots, r, value, i + 1);
    assert all[i].sync.None?;
    ClearedBounds(all);
    ClearedBounds(w'.slots);
  }

  lemma MirrorsLatch(slots: seq<Slot>, entries: seq<Entry>, seen: seq<Signal>, s: Signal)
    requires Mirrors(slots, entries, seen)
    ensures Mirrors(LatchAll(slots, s.sync, s.value, 0), entries, seen + [s])
  {
    forall i | 0 <= i < |slots|
      ensures Reached(entries[i], seen + [s]) <==>
              Reached(entries[i], seen) || (s.sync == entries[i].sync && s.value >= entries[i].value)
    {
      ReachedAppend(entries[i], seen, s);
    }
  }

  lemma ReachedAppend(e: Entry, seen: seq<Signal>, s: Signal)
    ensures Reached(e, seen + [s]) <==> Reached(e, seen) || (s.sync == e.sync && s.value >= e.value)
  {
    if Reached(e, seen) {
      var t :| t in seen && t.sync == e.sync && t.value >= e.value;
      assert t in seen + [s];
    }
    if s.sync == e.sync && s.value >= e.value {
      assert s in seen + [s];
    }
  }

  lemma CompleteCleared(slots: seq<Slot>, entries: seq<Entry>, any: bool, seen: seq<Signal>)
    requires Mirrors(slots, entries, seen)
    ensures Complete(entries, any, seen) <==> if any then Cleared(slots) > 0 else Cleared(slots) == |slots|
  {
    ClearedBounds(slots);
    if any {
      if Cleared(slots) > 0 {
        var i :| 0 <= i < |slots| && !slots[i].sync.Some?;
        assert entries[i] in entries;
      }
    } else if Complete(entries, any, seen) {
      forall i | 0 <= i < |slots| ensures slots[i].sync.None? {
        assert entries[i] in entries;
      }
    } else {
      var e :| e in entries && !Reached(e, seen);
      var i :| 0 <= i < |entries| && entries[i] == e;
      assert slots[i].sync.Some?;
    }
  }

  /** What is left of `WaitValid` right after the value of `r` was raised. */
  ghost predicate WaitValidBut(p: Pool, w: Wait, r: Ref) {
    && w.signaledCount == Cleared(w.slots) < |w.slots|
    && (w.any ==> w.signaledCount == 0)
    && (forall i :: 0 <= i < |w.slots| && w.slots[i].sync.Some? && w.slots[i].sync.value != r ==>
          w.slots[i].sync.value in p.syncs && w.slots[i].value > p.syncs[w.slots[i].sync.value].value)
  }

  /** One raising signal moves a listed wait exactly as its fate moves. */
  lemma WaitStepFate(p: Pool, run: Pool, w: Wait, ctx: int, f: Fate, s: Signal)
    requires s.raised && Linked(w, ctx, f)
    requires s.sync in p.syncs && p.syncs[s.sync].value == s.value
    requires WaitValidBut(p, w, s.sync)
    ensures var g, o := FateStep(f, Signalled(s), w.fd), WaitStep(run, w, s.sync, s.value, s.now);
      match g
      case Waiting(_, _, _, _, _) =>
        o.kept.Some? && o.kept.value.fd == w.fd && Linked(o.kept.value, ctx, g) && WaitValid(p, o.kept.value)
          && o.events == []
      case Woken => o.kept.None? && o.events == [Ready(w.fd), Closed(w.fd)]
      case Expired => o.kept.None? && o.events == [Closed(w.fd)]
      case _ => false
  {
    if w.validBefore >= s.now {
      var all := LatchAll(w.slots, s.sync, s.value, 0);
      LatchExact(run, w, s.sync, s.value, 0);
      MirrorsLatch(w.slots, f.entries, f.seen, s);
      CompleteCleared(all, f.entries, f.any, f.seen + [s]);
      ClearedBounds(all);
    }
  }

  /** A signal that raises nothing leaves every listed wait as it is. */
  lemma QuietSignalFate(p: Pool, w: Wait, ctx: int, f: Fate, s: Signal)
    requires !s.raised && Linked(w, ctx, f) && WaitValid(p, w)
    requires s.sync in p.syncs && p.syncs[s.sync].value >= s.value
    ensures Linked(w, ctx, FateStep(f, Signalled(s), w.fd))
  {
    assert LatchAll(w.slots, s.sync, s.value, 0) == w.slots;
    MirrorsLatch(w.slots, f.entries, f.seen, s);
    CompleteCleared(w.slots, f.entries, f.any, f.seen + [s]);
  }
}
