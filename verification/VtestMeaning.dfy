/**
 * What each request means to the clients of the vtest renderer, stated on the request alone: which syncs get which
 * values, which signals and waits enter the history, what is queued where, and what the request returns.
 */
module VtestMeaning {
  import opened Bags
  import opened SyncPool
  import opened SyncWaits
  import opened VtestMachine
  import opened VtestInvariant
  import opened VtestSteps
  import opened VtestContexts
  import opened VtestRuns

  // --- what clients see ----------------------------------------------------------------------

  /** A client: its context id, its syncs by id, and what is queued on each of its rings. */
  datatype Client = Client(id: int, table: map<int, Ref>, rings: seq<seq<Submit>>)

  ghost function ClientOf(c: Context): Client {
    Client(c.id, c.table, c.timelines)
  }

  ghost function Clients(s: State): (r: seq<Client>)
    ensures |r| == |s.active|
  {
    seq(|s.active|, i requires 0 <= i < |s.active| => ClientOf(s.active[i]))
  }

  ghost function Values(p: Pool): map<Ref, nat> {
    map r | r in p.syncs :: p.syncs[r].value
  }

  /** The part of a history that comes from outside: requests, signals and context deaths. */
  ghost function Inputs(log: seq<Event>): seq<Event> {
    if log == [] then []
    else Inputs(log[..|log| - 1]) + (if log[|log| - 1].Ready? || log[|log| - 1].Closed? then [] else [log[|log| - 1]])
  }

  lemma {:induction false} InputsConcat(a: seq<Event>, b: seq<Event>)
    ensures Inputs(a + b) == Inputs(a) + Inputs(b)
    decreases |b|
  {
    if b == [] {
      assert a + b == a;
    } else {
      var k := |b| - 1;
      assert (a + b)[..|a + b| - 1] == a + b[..k];
      InputsConcat(a, b[..k]);
    }
  }

  lemma {:induction false} NoInputs(out: seq<Event>)
    requires forall e :: e in out ==> e.Ready? || e.Closed?
    ensures Inputs(out) == []
  {
    if out != [] {
      assert out[|out| - 1] in out;
      NoInputs(out[..|out| - 1]);
    }
  }

  lemma OneInput(e: Event)
    ensures Inputs([e]) == if e.Ready? || e.Closed? then [] else [e]
  {
    assert [e][..0] == [];
  }

  /** An input followed by outputs. */
  lemma InputAndOutputs(log: seq<Event>, e: Event, out: seq<Event>)
    requires !e.Ready? && !e.Closed? && forall x :: x in out ==> x.Ready? || x.Closed?
    ensures Inputs(log + [e] + out) == Inputs(log) + [e]
  {
    InputsConcat(log + [e], out);
    InputsConcat(log, [e]);
    OneInput(e);
    NoInputs(out);
  }

  /** Fates depend on inputs only. */
  lemma {:induction false} FateOfInputs(log: seq<Event>, fd: EventFd)
    ensures FateOf(Inputs(log), fd) == FateOf(log, fd)
  {
    if log != [] {
      var k := |log| - 1;
      FateOfInputs(log[..k], fd);
      FateAppend(Inputs(log[..k]), log[k], fd);
      assert log[k].Ready? || log[k].Closed? ==> Inputs(log[..k]) + [] == Inputs(log[..k]);
    }
  }

  // --- signals -------------------------------------------------------------------------------

  /** The values after some signals, in order. */
  ghost function Signals(values: map<Ref, nat>, es: seq<Entry>): (r: map<Ref, nat>)
    decreases |es|
  {
    if es == [] then values else Signals(values[es[0].sync := es[0].value], es[1..])
  }

  /** No entry from position `from` on names `r`. */
  ghost predicate Unnamed(es: seq<Entry>, r: Ref, from: nat) {
    forall i :: from <= i < |es| ==> es[i].sync != r
  }

  /** A sync that no signal names keeps its value. */
  lemma {:induction false} NoSignal(values: map<Ref, nat>, es: seq<Entry>, r: Ref)
    requires r in values && Unnamed(es, r, 0)
    ensures r in Signals(values, es) && Signals(values, es)[r] == values[r]
    decreases |es|
  {
    if es != [] {
      NoSignal(values[es[0].sync := es[0].value], es[1..], r);
    }
  }

  /** A sync ends with the value of the last signal that names it. */
  lemma {:induction false} LastSignal(values: map<Ref, nat>, es: seq<Entry>, k: nat)
    requires k < |es| && Unnamed(es, es[k].sync, k + 1)
    ensures es[k].sync in Signals(values, es) && Signals(values, es)[es[k].sync] == es[k].value
    decreases |es|
  {
    var next := values[es[0].sync := es[0].value];
    if k == 0 {
      NoSignal(next, es[1..], es[0].sync);
    } else {
      LastSignal(next, es[1..], k - 1);
    }
  }

  /** The history of some signals: each raises its sync iff the value before it was lower. */
  ghost function SignalEvents(values: map<Ref, nat>, es: seq<Entry>, now: nat): (r: seq<Event>)
    requires forall i :: 0 <= i < |es| ==> es[i].sync in values
    ensures |r| == |es|
    decreases |es|
  {
    if es == [] then []
    else
      [Signalled(Signal(es[0].sync, es[0].value, now, values[es[0].sync] < es[0].value))]
      + SignalEvents(values[es[0].sync := es[0].value], es[1..], now)
  }

  lemma {:induction false} SignalEventsExact(values: map<Ref, nat>, es: seq<Entry>, now: nat, i: nat)
    requires i < |es| && forall j :: 0 <= j < |es| ==> es[j].sync in values
    ensures es[i].sync in Signals(values, es[..i])
    ensures SignalEvents(values, es, now)[i] ==
      Signalled(Signal(es[i].sync, es[i].value, now, Signals(values, es[..i])[es[i].sync] < es[i].value))
    decreases |es|
  {
    if i > 0 {
      var next := values[es[0].sync := es[0].value];
      SignalEventsExact(next, es[1..], now, i - 1);
      assert es[..i][1..] == es[1..][..i - 1];
    }
  }

  /** What a step that only signals leaves alone. */
  ghost predicate SameBut(s: State, t: State) {
    && Clients(t) == Clients(s) && t.nextEvent == s.nextEvent && t.nextSubmit == s.nextSubmit
  }

  /** The step signals exactly `es`, in order. */
  ghost predicate Signalling(s: State, t: State, es: seq<Entry>, now: nat) {
    && (forall i :: 0 <= i < |es| ==> es[i].sync in Values(s.pool))
    && Values(t.pool) == Signals(Values(s.pool), es)
    && Inputs(t.log) == Inputs(s.log) + SignalEvents(Values(s.pool), es, now)
  }

  // --- values survive reference counting -----------------------------------------------------

  lemma UnrefValues(p: Pool, r: Ref)
    ensures Values(Unref(p, r)) == Values(p)
  {
  }

  lemma {:induction false} UnrefAllValues(p: Pool, refs: seq<Ref>)
    ensures Values(UnrefAll(p, refs)) == Values(p)
    decreases |refs|
  {
    if refs != [] {
      UnrefValues(p, refs[0]);
      UnrefAllValues(Unref(p, refs[0]), refs[1..]);
    }
  }

  lemma {:induction false} AddRefsValues(p: Pool, refs: seq<Ref>)
    ensures Values(AddRefs(p, refs)) == Values(p)
    decreases |refs|
  {
    if refs != [] {
      AddRefsValues(AddRef(p, refs[0]), refs[1..]);
    }
  }

  lemma {:induction false} LatchValues(p: Pool, w: Wait, r: Ref, value: nat, i: nat)
    requires i <= |w.slots|
    ensures Values(Latch(p, w, r, value, i).pool) == Values(p)
    decreases |w.slots| - i
  {
    hide Values;
    if i < |w.slots| {
      UnrefValues(p, r);
      if !Matches(w.slots[i], r, value) {
        LatchValues(p, w, r, value, i + 1);
      } else if !IsReady(ClearOne(w, i)) {
        LatchValues(Unref(p, r), ClearOne(w, i), r, value, i + 1);
      }
    }
  }

  /** A sweep changes no value and emits only outputs. */
  ghost predicate Quiet<T>(p: Pool, o: Swept<T>) {
    Values(o.pool) == Values(p) && forall e :: e in o.events ==> e.Ready? || e.Closed?
  }

  lemma WaitStepQuiet(p: Pool, w: Wait, r: Ref, value: nat, now: nat)
    ensures Quiet(p, WaitStep(p, w, r, value, now))
  {
    hide Values, Latch;
    var l := Latch(p, w, r, value, 0);
    UnrefAllValues(p, LiveRefs(w.slots));
    LatchValues(p, w, r, value, 0);
    UnrefAllValues(l.pool, LiveRefs(l.wait.slots));
  }

  lemma {:induction false} SweepQuiet(p: Pool, ws: seq<Wait>, r: Ref, value: nat, now: nat)
    ensures Quiet(p, Sweep(p, ws, r, value, now))
    decreases |ws|
  {
    hide Values, WaitStep;
    if ws != [] {
      WaitStepQuiet(p, ws[0], r, value, now);
      SweepQuiet(WaitStep(p, ws[0], r, value, now).pool, ws[1..], r, value, now);
    }
  }

  lemma {:induction false} SweepContextsQuiet(p: Pool, cs: seq<Context>, r: Ref, value: nat, now: nat)
    ensures Quiet(p, SweepContexts(p, cs, r, value, now))
    decreases |cs|
  {
    hide Values, Sweep;
    if cs != [] {
      SweepQuiet(p, cs[0].waits, r, value, now);
      SweepContextsQuiet(Sweep(p, cs[0].waits, r, value, now).pool, cs[1..], r, value, now);
    }
  }

  lemma SetValueValues(p: Pool, r: Ref, value: nat)
    requires r in p.syncs
    ensures Values(SetValue(p, r, value)) == Values(p)[r := value]
  {
  }

  // --- one signal, several signals -----------------------------------------------------------

  lemma SignalOne(s: State, r: Ref, value: nat, now: nat)
    requires r in s.pool.syncs
    ensures var t := SignalSync(s, r, value, now);
      && SameBut(s, t) && Values(t.pool) == Values(s.pool)[r := value]
      && Inputs(t.log) == Inputs(s.log) + [Signalled(Signal(r, value, now, Values(s.pool)[r] < value))]
  {
    hide Inputs, SweepContexts;
    var t := SignalSync(s, r, value, now);
    SetValueValues(s.pool, r, value);
    var raised := s.pool.syncs[r].value < value;
    var e := Signalled(Signal(r, value, now, raised));
    if raised {
      var o := SweepContexts(SetValue(s.pool, r, value), s.active, r, value, now);
      SweepContextsQuiet(SetValue(s.pool, r, value), s.active, r, value, now);
      InputAndOutputs(s.log, e, o.events);
    } else {
      InputAndOutputs(s.log, e, []);
      assert s.log + [e] + [] == s.log + [e];
    }
    SameClients(s, t);
  }

  lemma SameClients(s: State, t: State)
    requires |t.active| == |s.active|
    requires forall i :: 0 <= i < |s.active| ==> t.active[i] == s.active[i].(waits := t.active[i].waits)
    ensures Clients(t) == Clients(s)
  {
    assert forall i :: 0 <= i < |s.active| ==> ClientOf(t.active[i]) == ClientOf(s.active[i]);
  }

  /** The first signal and the rest. */
  lemma SignallingFirst(s: State, t: State, u: State, es: seq<Entry>, now: nat)
    requires es != [] && es[0].sync in Values(s.pool)
    requires Values(t.pool) == Values(s.pool)[es[0].sync := es[0].value]
    requires Inputs(t.log) == Inputs(s.log)
      + [Signalled(Signal(es[0].sync, es[0].value, now, Values(s.pool)[es[0].sync] < es[0].value))]
    requires Signalling(t, u, es[1..], now) && forall i :: 0 <= i < |es| ==> es[i].sync in Values(s.pool)
    ensures Signalling(s, u, es, now)
  {
    hide Values, Inputs;
    var e := Signalled(Signal(es[0].sync, es[0].value, now, Values(s.pool)[es[0].sync] < es[0].value));
    var rest := SignalEvents(Values(t.pool), es[1..], now);
    assert Inputs(s.log) + [e] + rest == Inputs(s.log) + ([e] + rest);
  }

  lemma {:induction false} EntriesSignal(s: State, es: seq<Entry>, now: nat)
    requires forall i :: 0 <= i < |es| ==> es[i].sync in s.pool.syncs
    ensures SameBut(s, SignalEntries(s, es, now)) && Signalling(s, SignalEntries(s, es, now), es, now)
    decreases |es|
  {
    hide SignalSync;
    if es != [] {
      var t := SignalSync(s, es[0].sync, es[0].value, now);
      SignalOne(s, es[0].sync, es[0].value, now);
      SameKeys(s.pool, t.pool, es[0].sync, es[0].value);
      UnrefValues(t.pool, es[0].sync);
      var t' := t.(pool := Unref(t.pool, es[0].sync));
      EntriesSignal(t', es[1..], now);
      assert Clients(t') == Clients(t);
      SignallingFirst(s, t', SignalEntries(s, es, now), es, now);
    }
  }

  lemma SameKeys(p: Pool, q: Pool, r: Ref, value: nat)
    requires Values(q) == Values(p)[r := value]
    ensures forall x :: x in p.syncs ==> x in q.syncs
  {
    forall x | x in p.syncs ensures x in q.syncs {
      assert x in Values(p)[r := value];
    }
  }

  // --- fence callbacks -----------------------------------------------------------------------

  /** The entries of some submits, in order. */
  ghost function Flat(q: seq<Submit>): seq<Entry> {
    if q == [] then [] else q[0].entries + Flat(q[1..])
  }

  /** How many queued submits a callback completes: up to the one named, or all if it is not queued. */
  ghost function Completed(q: seq<Submit>, serial: nat): (n: nat)
    ensures n <= |q| && (forall i :: 0 <= i < n - 1 ==> q[i].serial != serial)
    ensures n < |q| ==> n > 0 && q[n - 1].serial == serial
    ensures (exists i :: 0 <= i < |q| && q[i].serial == serial) ==> n > 0 && q[n - 1].serial == serial
  {
    if q == [] then 0
    else if q[0].serial == serial then 1
    else
      assert forall i :: 0 < i < |q| ==> q[i] == q[1..][i - 1];
      Completed(q[1..], serial) + 1
  }

  ghost function SetRing(cs: seq<Client>, c: nat, ring: nat, q: seq<Submit>): seq<Client>
    requires c < |cs| && ring < |cs[c].rings|
  {
    cs[c := cs[c].(rings := cs[c].rings[ring := q])]
  }

  ghost predicate KnownEntries(p: Pool, q: seq<Submit>) {
    forall j, i :: 0 <= j < |q| && 0 <= i < |q[j].entries| ==> q[j].entries[i].sync in p.syncs
  }

  lemma SignallingConcat(s: State, t: State, u: State, a: seq<Entry>, b: seq<Entry>, now: nat)
    requires Signalling(s, t, a, now) && Signalling(t, u, b, now)
    requires forall i :: 0 <= i < |b| ==> b[i].sync in Values(s.pool)
    ensures Signalling(s, u, a + b, now)
  {
    hide Values, Inputs;
    SignalsConcat(Values(s.pool), a, b, now);
    var x, y := SignalEvents(Values(s.pool), a, now), SignalEvents(Values(t.pool), b, now);
    assert Inputs(s.log) + x + y == Inputs(s.log) + (x + y);
  }

  lemma {:induction false} SignalsConcat(values: map<Ref, nat>, a: seq<Entry>, b: seq<Entry>, now: nat)
    requires forall i :: 0 <= i < |a| ==> a[i].sync in values
    requires forall i :: 0 <= i < |b| ==> b[i].sync in values
    ensures forall i :: 0 <= i < |b| ==> b[i].sync in Signals(values, a)
    ensures Signals(values, a + b) == Signals(Signals(values, a), b)
    ensures SignalEvents(values, a + b, now) == SignalEvents(values, a, now) + SignalEvents(Signals(values, a), b, now)
    decreases |a|
  {
    if a == [] {
      assert a + b == b;
    } else {
      assert (a + b)[1..] == a[1..] + b;
      SignalsConcat(values[a[0].sync := a[0].value], a[1..], b, now);
    }
  }

  lemma {:induction false} TimelineSignals(s: State, c: nat, ring: nat, serial: nat, now: nat)
    requires c < |s.active| && ring < |s.active[c].timelines| && KnownEntries(s.pool, s.active[c].timelines[ring])
    ensures var q, t := s.active[c].timelines[ring], SignalTimeline(s, c, ring, serial, now);
      var n := Completed(q, serial);
      && Signalling(s, t, Flat(q[..n]), now)
      && Clients(t) == SetRing(Clients(s), c, ring, q[n..])
      && t.nextEvent == s.nextEvent && t.nextSubmit == s.nextSubmit
    decreases |s.active[c].timelines[ring]|
  {
    hide SignalEntries, SignalEvents, Values, Inputs;
    var q := s.active[c].timelines[ring];
    if q == [] {
      NothingSignalled(s, now);
      RingKept(Clients(s), c, ring);
    } else {
      var popped := s.(active := s.active[c := SetTimeline(s.active[c], ring, q[1..])]);
      var t := SignalEntries(popped, q[0].entries, now);
      var n := Completed(q, serial);
      PopClients(s, c, ring, q[1..]);
      EntriesSignal(popped, q[0].entries, now);
      Retold(s, popped, t, q[0].entries, now);
      assert q[..n][0] == q[0] && q[..n][1..] == q[1..][..n - 1] && q[n..] == q[1..][n - 1..];
      if q[0].serial == serial {
        assert Flat(q[..1]) == q[0].entries by {
          assert q[..1][1..] == [];
        }
      } else {
        KnownLater(s, t, q, now);
        assert Clients(t)[c].rings[ring] == q[1..];
        TimelineSignals(t, c, ring, serial, now);
        RingAgain(Clients(s), c, ring, q[1..], q[n..]);
        FlatKnown(s, q[1..][..n - 1]);
        SignallingConcat(s, t, SignalTimeline(t, c, ring, serial, now), q[0].entries, Flat(q[1..][..n - 1]), now);
      }
    }
  }

  lemma RingKept(cs: seq<Client>, c: nat, ring: nat)
    requires c < |cs| && ring < |cs[c].rings|
    ensures SetRing(cs, c, ring, cs[c].rings[ring]) == cs
  {
    assert cs[c].rings[ring := cs[c].rings[ring]] == cs[c].rings;
  }

  lemma RingAgain(cs: seq<Client>, c: nat, ring: nat, q: seq<Submit>, q': seq<Submit>)
    requires c < |cs| && ring < |cs[c].rings|
    ensures SetRing(SetRing(cs, c, ring, q), c, ring, q') == SetRing(cs, c, ring, q')
  {
    assert cs[c].rings[ring := q][ring := q'] == cs[c].rings[ring := q'];
  }

  lemma NothingSignalled(s: State, now: nat)
    ensures Signalling(s, s, [], now)
  {
  }

  lemma PopClients(s: State, c: nat, ring: nat, q: seq<Submit>)
    requires c < |s.active| && ring < |s.active[c].timelines|
    ensures Clients(s.(active := s.active[c := SetTimeline(s.active[c], ring, q)])) == SetRing(Clients(s), c, ring, q)
  {
  }

  lemma Retold(s: State, s': State, t: State, es: seq<Entry>, now: nat)
    requires s'.pool == s.pool && s'.log == s.log && Signalling(s', t, es, now)
    ensures Signalling(s, t, es, now)
  {
  }

  lemma KnownLater(s: State, t: State, q: seq<Submit>, now: nat)
    requires q != [] && KnownEntries(s.pool, q) && Signalling(s, t, q[0].entries, now)
    ensures KnownEntries(t.pool, q[1..])
  {
    SignalsKeys(Values(s.pool), q[0].entries);
    forall j, i | 0 <= j < |q[1..]| && 0 <= i < |q[1..][j].entries| ensures q[1..][j].entries[i].sync in t.pool.syncs {
      assert q[j + 1].entries[i].sync in Values(s.pool);
      assert q[j + 1].entries[i].sync in Values(t.pool);
    }
  }

  lemma {:induction false} SignalsKeys(values: map<Ref, nat>, es: seq<Entry>)
    ensures forall r :: r in values ==> r in Signals(values, es)
    decreases |es|
  {
    if es != [] {
      SignalsKeys(values[es[0].sync := es[0].value], es[1..]);
    }
  }

  lemma {:induction false} FlatKnown(s: State, q: seq<Submit>)
    requires KnownEntries(s.pool, q)
    ensures forall i :: 0 <= i < |Flat(q)| ==> Flat(q)[i].sync in Values(s.pool)
  {
    if q != [] {
      assert forall j :: 0 <= j < |q[1..]| ==> q[1..][j] == q[j + 1];
      FlatKnown(s, q[1..]);
      assert forall i :: 0 <= i < |q[0].entries| ==> q[0].entries[i].sync in s.pool.syncs;
    }
  }

  /** Whatever is queued names syncs that exist. */
  lemma QueuedKnown(s: State, c: nat, ring: nat)
    requires Inv(s) && c < |s.active| && ring < |s.active[c].timelines|
    ensures KnownEntries(s.pool, s.active[c].timelines[ring])
  {
    var ctx := s.active[c];
    var q := ctx.timelines[ring];
    forall j, i | 0 <= j < |q| && 0 <= i < |q[j].entries| ensures q[j].entries[i].sync in s.pool.syncs {
      hide Sum, Counted, ContextsOk, WaitsOk, LinksOk, Outputs;
      RefsAll(q[j].entries, i);
      SumContains(SubmitBag, q, q[j]);
      SumContains(QueueBag, ctx.timelines, q);
      SumContains(CtxBag, s.active, ctx);
      var r := q[j].entries[i].sync;
      assert r in SubmitBag(q[j]);
      assert r in QueueBag(q);
      assert r in CtxBag(ctx);
      KnownHeld(s, r);
    }
  }

  lemma {:induction false} RefsAll(es: seq<Entry>, i: nat)
    requires i < |es|
    ensures es[i].sync in Refs(es)
  {
    if i > 0 {
      RefsAll(es[1..], i - 1);
    }
  }

  /**
   * A fence callback signals the entries of the completed submits, with their own values, in queue order, and takes
   * exactly those submits off their ring.
   */
  lemma FenceMeans(s: State, c: nat, ring: nat, serial: nat, now: nat)
    requires Inv(s) && c < |s.active| && ring < |s.active[c].timelines|
    ensures var q, t := s.active[c].timelines[ring], SignalTimeline(s, c, ring, serial, now);
      var n := Completed(q, serial);
      && Signalling(s, t, Flat(q[..n]), now)
      && Clients(t) == SetRing(Clients(s), c, ring, q[n..])
      && t.nextEvent == s.nextEvent && t.nextSubmit == s.nextSubmit
  {
    QueuedKnown(s, c, ring);
    TimelineSignals(s, c, ring, serial, now);
  }

  /**
   * After the callback for queued submit `n` each sync has the value of the last entry that names it in submits 0 to
   * `n`, or its value from before.
   */
  lemma CallbackValues(t: State, c: nat, ring: nat, n: nat, now: nat, r: Ref)
    requires Reachable(t) && c < |t.active| && ring < |t.active[c].timelines| && n < |t.active[c].timelines[ring]|
    requires r in t.pool.syncs
    ensures var q := t.active[c].timelines[ring];
      var u, es := SignalTimeline(t, c, ring, q[n].serial, now), Flat(q[..n + 1]);
      && r in u.pool.syncs
      && (Unnamed(es, r, 0) ==> u.pool.syncs[r].value == t.pool.syncs[r].value)
      && (forall k :: 0 <= k < |es| && es[k].sync == r && Unnamed(es, r, k + 1) ==>
            u.pool.syncs[r].value == es[k].value)
  {
    hide InvWith, SignalTimeline, Signals;
    ReachableInv(t);
    var q := t.active[c].timelines[ring];
    var u, es := SignalTimeline(t, c, ring, q[n].serial, now), Flat(q[..n + 1]);
    FenceMeans(t, c, ring, q[n].serial, now);
    ReachableSerials(t, c, ring);
    assert Completed(q, q[n].serial) == n + 1;
    SignalsKeys(Values(t.pool), es);
    assert r in Values(t.pool);
    assert r in Values(u.pool);
    assert Values(t.pool)[r] == t.pool.syncs[r].value && Values(u.pool)[r] == u.pool.syncs[r].value;
    if Unnamed(es, r, 0) {
      NoSignal(Values(t.pool), es, r);
    }
    forall k | 0 <= k < |es| && es[k].sync == r && Unnamed(es, r, k + 1)
      ensures u.pool.syncs[r].value == es[k].value
    {
      LastSignal(Values(t.pool), es, k);
    }
  }

  lemma ReachableSerials(t: State, c: nat, ring: nat)
    requires Reachable(t) && c < |t.active| && ring < |t.active[c].timelines|
    ensures Increasing(t.active[c].timelines[ring])
  {
    InitialInv();
    var ops :| Runs(INITIAL, ops, t);
    RunSerials(INITIAL, ops, t);
    assert Ordered(t.active[c].timelines[ring], t.nextSubmit);
  }

  // --- requests ------------------------------------------------------------------------------

  /** How many requests come before the first that names no sync of the client. */
  ghost function KnownCount(table: map<int, Ref>, reqs: seq<Request>): (n: nat)
    ensures n <= |reqs| && (forall i :: 0 <= i < n ==> reqs[i].id in table)
    ensures n < |reqs| ==> reqs[n].id !in table
  {
    if reqs == [] || reqs[0].id !in table then 0 else KnownCount(table, reqs[1..]) + 1
  }

  /** The syncs and values that the first `n` requests name. */
  ghost function Named(table: map<int, Ref>, reqs: seq<Request>, n: nat): (r: seq<Entry>)
    requires n <= |reqs| && forall i :: 0 <= i < n ==> reqs[i].id in table
    ensures |r| == n && forall i :: 0 <= i < n ==> r[i] == Entry(table[reqs[i].id], reqs[i].value)
  {
    seq(n, i requires 0 <= i < n => Entry(table[reqs[i].id], reqs[i].value))
  }

  lemma {:induction false} ResolveNamed(table: map<int, Ref>, reqs: seq<Request>)
    ensures Resolve(table, reqs) == Named(table, reqs, KnownCount(table, reqs))
  {
    if reqs != [] && reqs[0].id in table {
      ResolveNamed(table, reqs[1..]);
    }
  }

  lemma TableKnown(s: State, c: nat, id: int)
    requires Inv(s) && c < |s.active| && id in s.active[c].table
    ensures s.active[c].table[id] in s.pool.syncs
  {
    assert s.active[c] in s.active;
  }

  /** A write sets the sync that the client's id names to the value asked for; an unknown id changes nothing. */
  lemma WriteMeans(s: State, c: nat, id: int, value: nat, now: nat)
    requires Inv(s) && c < |s.active|
    ensures var (t, ret) := WriteSync(s, c, id, value, now);
      if id in s.active[c].table then
        ret == Ok && SameBut(s, t) && Signalling(s, t, [Entry(s.active[c].table[id], value)], now)
      else ret == EEXIST && t == s
  {
    hide InvWith, SignalSync, Inputs;
    if id in s.active[c].table {
      var r := s.active[c].table[id];
      TableKnown(s, c, id);
      SignalOne(s, r, value, now);
      var t := SignalSync(s, r, value, now);
      NothingSignalled(t, now);
      SignallingFirst(s, t, t, [Entry(r, value)], now);
    }
  }

  lemma {:induction false} RequestsSignal(s: State, c: nat, reqs: seq<Request>, now: nat)
    requires Inv(s) && c < |s.active|
    ensures var (t, ret) := SignalRequests(s, c, reqs, now);
      var n := KnownCount(s.active[c].table, reqs);
      && ret == (if n == |reqs| then Ok else EEXIST)
      && SameBut(s, t) && Signalling(s, t, Named(s.active[c].table, reqs, n), now)
    decreases |reqs|
  {
    hide InvWith, SignalSync, Inputs, Values, SignalEvents;
    var table := s.active[c].table;
    var n := KnownCount(table, reqs);
    if reqs == [] || reqs[0].id !in table {
      NothingSignalled(s, now);
      assert Named(table, reqs, n) == [];
    } else {
      var r := table[reqs[0].id];
      var t := SignalSync(s, r, reqs[0].value, now);
      TableKnown(s, c, reqs[0].id);
      SignalOne(s, r, reqs[0].value, now);
      SignalInv(s, r, reqs[0].value, now, multiset{});
      RequestsSignal(t, c, reqs[1..], now);
      var es := Named(table, reqs, n);
      assert es[1..] == Named(table, reqs[1..], n - 1);
      NamedKnown(s, c, reqs, n);
      SignallingFirst(s, t, SignalRequests(s, c, reqs, now).0, es, now);
    }
  }

  lemma NamedKnown(s: State, c: nat, reqs: seq<Request>, n: nat)
    requires Inv(s) && c < |s.active| && n <= |reqs| && forall i :: 0 <= i < n ==> reqs[i].id in s.active[c].table
    ensures forall i :: 0 <= i < n ==> Named(s.active[c].table, reqs, n)[i].sync in Values(s.pool)
  {
    forall i | 0 <= i < n ensures Named(s.active[c].table, reqs, n)[i].sync in Values(s.pool) {
      TableKnown(s, c, reqs[i].id);
    }
  }

  /**
   * A batch without a ring signals what it asks for, in order, up to the first unknown id; one with a ring queues all
   * of it at the end of that ring, or nothing.
   */
  lemma BatchMeans(s: State, c: nat, cmdOk: bool, ring: Option<nat>, reqs: seq<Request>, mem: bool, fenceOk: bool,
                   now: nat)
    requires Inv(s) && c < |s.active| && (ring.Some? ==> ring.value < |s.active[c].timelines|)
    ensures var (t, ret) := SubmitBatch(s, c, cmdOk, ring, reqs, mem, fenceOk, now);
      var table := s.active[c].table;
      var n := KnownCount(table, reqs);
      if !cmdOk || reqs == [] then ret == (if cmdOk then Ok else EINVAL) && t == s
      else if ring.None? then
        && ret == (if n == |reqs| then Ok else EEXIST)
        && SameBut(s, t) && Signalling(s, t, Named(table, reqs, n), now)
      else
        && ret == (if !mem then ENOMEM else if n < |reqs| then EEXIST else if !fenceOk then EINVAL else Ok)
        && Values(t.pool) == Values(s.pool) && t.log == s.log && t.nextEvent == s.nextEvent
        && (ret.Ok? ==>
              && t.nextSubmit == s.nextSubmit + 1
              && Clients(t) == SetRing(Clients(s), c, ring.value,
                   s.active[c].timelines[ring.value] + [Submit(s.nextSubmit, Named(table, reqs, |reqs|))]))
        && (!ret.Ok? ==> t.nextSubmit == s.nextSubmit && Clients(t) == Clients(s))
  {
    hide InvWith, Inputs, Values, SignalEvents, SignalRequests, Resolve, Named;
    var table := s.active[c].table;
    if cmdOk && reqs != [] {
      if ring.None? {
        RequestsSignal(s, c, reqs, now);
      } else if mem {
        var entries := Resolve(table, reqs);
        ResolveNamed(table, reqs);
        var p := AddRefs(s.pool, Refs(entries));
        AddRefsValues(s.pool, Refs(entries));
        UnrefAllValues(p, Refs(entries));
        PopClients(s, c, ring.value, s.active[c].timelines[ring.value] + [Submit(s.nextSubmit, entries)]);
      }
    }
  }

  // --- waits ---------------------------------------------------------------------------------

  lemma {:induction false} UnmetKeeps(es: seq<Entry>, current: seq<nat>, i: nat)
    requires |es| == |current| && i < |es| && current[i] < es[i].value
    ensures es[i] in Unmet(es, current)
  {
    if i > 0 {
      UnmetKeeps(es[1..], current[1..], i - 1);
    }
  }

  lemma {:induction false} UnmetShorter(es: seq<Entry>, current: seq<nat>, i: nat)
    requires |es| == |current| && i < |es| && current[i] >= es[i].value
    ensures |Unmet(es, current)| < |es|
  {
    UnmetMembers(es[1..], current[1..]);
    if i > 0 {
      UnmetShorter(es[1..], current[1..], i - 1);
    }
  }

  lemma {:induction false} UnmetAll(es: seq<Entry>, current: seq<nat>)
    requires |es| == |current| && forall i :: 0 <= i < |es| ==> current[i] < es[i].value
    ensures Unmet(es, current) == es
  {
    if es != [] {
      UnmetAll(es[1..], current[1..]);
    }
  }

  /** What is kept of a request is what is not met: nothing iff all is met, and less iff something is. */
  lemma UnmetExact(es: seq<Entry>, current: seq<nat>)
    requires |es| == |current|
    ensures forall i :: 0 <= i < |es| && current[i] < es[i].value ==> es[i] in Unmet(es, current)
    ensures forall e :: e in Unmet(es, current) ==> exists i :: 0 <= i < |es| && es[i] == e && current[i] < e.value
    ensures Unmet(es, current) == [] <==> forall i :: 0 <= i < |es| ==> current[i] >= es[i].value
    ensures |Unmet(es, current)| < |es| <==> exists i :: 0 <= i < |es| && current[i] >= es[i].value
  {
    hide Unmet;
    UnmetMembers(es, current);
    var unmet := Unmet(es, current);
    forall i | 0 <= i < |es| && current[i] < es[i].value ensures es[i] in unmet {
      UnmetKeeps(es, current, i);
    }
    if unmet != [] {
      assert unmet[0] in unmet;
    }
    if i :| 0 <= i < |es| && current[i] >= es[i].value {
      UnmetShorter(es, current, i);
    } else {
      UnmetAll(es, current);
    }
  }

  ghost function Present(values: map<Ref, nat>, es: seq<Entry>): (r: seq<nat>)
    requires forall i :: 0 <= i < |es| ==> es[i].sync in values
    ensures |r| == |es|
  {
    seq(|es|, i requires 0 <= i < |es| => values[es[i].sync])
  }

  /** The sync that request `i` names has the value asked for. */
  ghost predicate Met(s: State, c: nat, req: Request)
    requires c < |s.active|
  {
    req.id in s.active[c].table && s.active[c].table[req.id] in s.pool.syncs
    && s.pool.syncs[s.active[c].table[req.id]].value >= req.value
  }

  /** The request is answered at once. */
  ghost predicate AtOnce(s: State, c: nat, any: bool, reqs: seq<Request>)
    requires c < |s.active|
  {
    || (forall i :: 0 <= i < |reqs| ==> Met(s, c, reqs[i]))
    || (any && exists i :: 0 <= i < |reqs| && Met(s, c, reqs[i]))
  }

  /** The event that a wait request adds to the history if it is well-formed. */
  ghost function AskedOf(s: State, c: nat, any: bool, timeout: nat, reqs: seq<Request>, sent: bool, now: nat): Event
    requires Inv(s) && c < |s.active| && forall i :: 0 <= i < |reqs| ==> reqs[i].id in s.active[c].table
  {
    var es := Named(s.active[c].table, reqs, |reqs|);
    NamedKnown(s, c, reqs, |reqs|);
    var deadline := if timeout > 0x7fff_ffff then 0xffff_ffff_ffff_ffff else now + 1_000_000 * timeout;
    Asked(s.nextEvent, s.active[c].id, any, deadline, sent && timeout != 0, es, Present(Values(s.pool), es))
  }

  lemma CurrentPresent(s: State, c: nat, reqs: seq<Request>)
    requires Inv(s) && c < |s.active| && forall i :: 0 <= i < |reqs| ==> reqs[i].id in s.active[c].table
    ensures var es := Named(s.active[c].table, reqs, |reqs|);
      && (forall i :: 0 <= i < |es| ==> es[i].sync in Values(s.pool))
      && Current(s.pool, es) == Present(Values(s.pool), es)
      && (forall i :: 0 <= i < |es| ==> (Current(s.pool, es)[i] >= es[i].value <==> Met(s, c, reqs[i])))
  {
    hide InvWith;
    NamedKnown(s, c, reqs, |reqs|);
    var es := Named(s.active[c].table, reqs, |reqs|);
    forall i | 0 <= i < |es| ensures es[i].sync in s.pool.syncs {
      TableKnown(s, c, reqs[i].id);
    }
  }

  lemma WaitReady(s: State, c: nat, any: bool, reqs: seq<Request>)
    requires Inv(s) && c < |s.active| && forall i :: 0 <= i < |reqs| ==> reqs[i].id in s.active[c].table
    ensures var es := Named(s.active[c].table, reqs, |reqs|);
      var unmet := Unmet(es, Current(s.pool, es));
      unmet == [] || (any && |unmet| < |reqs|) <==> AtOnce(s, c, any, reqs)
  {
    hide InvWith, Met, Unmet, Current;
    var es := Named(s.active[c].table, reqs, |reqs|);
    CurrentPresent(s, c, reqs);
    UnmetExact(es, Current(s.pool, es));
  }

  /**
   * A wait request on known syncs enters the history with its own flag, deadline, syncs and values; its eventfd is
   * made ready at once iff all that it asks for is met, or with the flag something is.  It changes no value, no
   * table and no ring.
   */
  lemma WaitMeans(s: State, c: nat, any: bool, timeout: nat, reqs: seq<Request>, mem: bool, eventOk: bool, sent: bool,
                  now: nat)
    requires Inv(s) && c < |s.active|
    ensures var (t, ret) := WaitSync(s, c, any, timeout, reqs, mem, eventOk, sent, now);
      var known := forall i :: 0 <= i < |reqs| ==> reqs[i].id in s.active[c].table;
      && ret == (if !mem then ENOMEM else if !eventOk then ENODEV else if !known then EEXIST
                 else if !sent then EIO else Ok)
      && Values(t.pool) == Values(s.pool) && Clients(t) == Clients(s) && t.nextSubmit == s.nextSubmit
      && t.nextEvent == (if mem && eventOk then s.nextEvent + 1 else s.nextEvent)
      && Inputs(t.log) == Inputs(s.log) + (if mem && eventOk && known
                                           then [AskedOf(s, c, any, timeout, reqs, sent, now)] else [])
      && (Ready(s.nextEvent) in t.log <==> mem && eventOk && known && AtOnce(s, c, any, reqs))
  {
    hide InvWith, Inputs, Values, Resolve, Named, Unmet, AddRefs, UnrefAll, Refs, FreshSlots, Current, Present, AtOnce;
    NotReadyYet(s);
    if mem && eventOk {
      var ctx, fd := s.active[c], s.nextEvent;
      var entries := Resolve(ctx.table, reqs);
      ResolveNamed(ctx.table, reqs);
      var unmet := Unmet(entries, Current(s.pool, entries));
      var p := AddRefs(s.pool, Refs(unmet));
      var w := Wait(fd, any, Deadline(now, timeout), FreshSlots(unmet), 0);
      AddRefsValues(s.pool, Refs(unmet));
      UnrefAllValues(p, LiveRefs(w.slots));
      if |entries| < |reqs| {
        OutputsOnly(s.log, [Closed(fd)]);
        assert !(forall i :: 0 <= i < |reqs| ==> reqs[i].id in ctx.table);
      } else {
        assert KnownCount(ctx.table, reqs) == |reqs|;
        CurrentPresent(s, c, reqs);
        WaitReady(s, c, any, reqs);
        var asked := AskedOf(s, c, any, timeout, reqs, sent, now);
        var out := if AtOnce(s, c, any, reqs) then [Ready(fd), Closed(fd)] else [Closed(fd)];
        InputAndOutputs(s.log, asked, out);
        InputAndOutputs(s.log, asked, []);
        assert s.log + [asked] + [] == s.log + [asked];
        assert s.log + [asked] + [Ready(fd)] + [Closed(fd)] == s.log + [asked] + [Ready(fd), Closed(fd)];
      }
    }
  }

  lemma NotReadyYet(s: State)
    requires Inv(s)
    ensures Ready(s.nextEvent) !in s.log && Inputs(s.log) + [] == Inputs(s.log)
  {
    assert multiset(s.log)[Ready(s.nextEvent)] == 0;
    assert Ready(s.nextEvent) !in multiset(s.log);
  }

  lemma OutputsOnly(log: seq<Event>, out: seq<Event>)
    requires forall e :: e in out ==> e.Ready? || e.Closed?
    ensures Inputs(log + out) == Inputs(log) + []
  {
    InputsConcat(log, out);
    NoInputs(out);
  }

  // --- creating and dropping -----------------------------------------------------------------

  /** A new sync has the value asked for, is known to its client alone, and disturbs nothing that is in use. */
  lemma CreateMeans(s: State, c: nat, value: nat, alloc: Option<Ref>, replied: bool)
    requires Inv(s) && c < |s.active| && (alloc.Some? ==> alloc.value !in s.pool.syncs)
    requires forall r :: r in s.pool.free ==> r in s.pool.syncs
    ensures var (t, ret) := NewSync(s, c, value, alloc, replied);
      && ret == (if s.pool.free == [] && alloc.None? then ENOMEM else if !replied then EIO else Ok)
      && t.log == s.log && t.nextEvent == s.nextEvent && t.nextSubmit == s.nextSubmit
      && (forall r :: r in Held(s.active) ==>
            r in s.pool.syncs && r in t.pool.syncs && t.pool.syncs[r].value == s.pool.syncs[r].value)
      && t.pool.nextId == (if s.pool.free == [] && alloc.Some? then s.pool.nextId + 1 else s.pool.nextId)
      && (!ret.Ok? ==> Clients(t) == Clients(s))
      && (ret.Ok? ==> exists id, r :: NewlyKnown(s, t, c, id, r, value))
  {
    hide Sum, ContextsOk, WaitsOk, LinksOk, Outputs;
    var (t, ret) := NewSync(s, c, value, alloc, replied);
    assert Held(s.active) + multiset{} == Held(s.active);
    var (p, r) := New(s.pool, value, alloc);
    if ret.Ok? {
      NewIdUnknown(s, c, value, alloc);
      assert NewlyKnown(s, t, c, p.syncs[r.value].id, r.value, value);
    }
  }

  ghost predicate NewlyKnown(s: State, t: State, c: nat, id: int, r: Ref, value: nat)
    requires c < |s.active|
  {
    && r !in Held(s.active) && id !in s.active[c].table
    && r in t.pool.syncs && t.pool.syncs[r].value == value && t.pool.syncs[r].id == id
    && Clients(t) == Clients(s)[c := Clients(s)[c].(table := s.active[c].table[id := r])]
  }

  lemma NewIdUnknown(s: State, c: nat, value: nat, alloc: Option<Ref>)
    requires Inv(s) && c < |s.active| && (alloc.Some? ==> alloc.value !in s.pool.syncs)
    requires forall r :: r in s.pool.free ==> r in s.pool.syncs
    requires New(s.pool, value, alloc).1.Some?
    ensures var (p, r) := New(s.pool, value, alloc);
      r.value !in Held(s.active) && r.value in p.syncs && p.syncs[r.value].id !in s.active[c].table
  {
    hide Sum, WaitsOk, LinksOk, Outputs;
    assert Held(s.active) + multiset{} == Held(s.active);
    var (p, r) := New(s.pool, value, alloc);
    var ctx := s.active[c];
    assert r.value !in Held(s.active) by {
      if s.pool.free != [] {
        assert r.value in s.pool.free;
      }
    }
    forall k | k in ctx.table ensures ctx.table[k] in Held(s.active) {
      InUse(s, c, k);
    }
    assert ctx in s.active && TableOk(s.pool, ctx);
  }

  lemma InUse(s: State, c: nat, id: int)
    requires c < |s.active| && id in s.active[c].table
    ensures s.active[c].table[id] in Held(s.active)
  {
    hide Sum;
    var ctx := s.active[c];
    SumContains(CtxBag, s.active, ctx);
    assert ctx.table[id] in multiset(TableSet(ctx.table));
    assert ctx.table[id] in CtxBag(ctx);
  }

  /** Dropping a sync takes its id out of the client's table and does nothing else that a client can see. */
  lemma DropMeans(s: State, c: nat, id: int)
    requires c < |s.active|
    ensures var t := DropSync(s, c, id);
      && Clients(t) == Clients(s)[c := Clients(s)[c].(table := s.active[c].table - {id})]
      && Values(t.pool) == Values(s.pool) && t.log == s.log && t.nextEvent == s.nextEvent
      && t.nextSubmit == s.nextSubmit
  {
    var table := s.active[c].table;
    if id in table {
      UnrefValues(s.pool, table[id]);
    } else {
      assert table - {id} == table;
    }
  }

  /** A new client has an id of its own, no sync, and 64 empty rings. */
  lemma ConnectMeans(s: State, lengthOk: bool, mem: bool, ok: bool)
    requires Inv(s)
    ensures var (t, ret) := CreateContext(s, lengthOk, mem, ok);
      && ret == (if !lengthOk then EINVAL else if s.freeContexts == [] && !mem then ENOMEM
                 else if !ok then EINVAL else Ok)
      && t.pool == s.pool && t.log == s.log && t.nextEvent == s.nextEvent && t.nextSubmit == s.nextSubmit
      && (!ret.Ok? ==> Clients(t) == Clients(s))
      && (ret.Ok? ==>
            && |Clients(t)| == |Clients(s)| + 1 && Clients(t)[..|Clients(s)|] == Clients(s)
            && var added := Clients(t)[|Clients(s)|];
               && added.table == map[] && |added.rings| == 64 && (forall k :: 0 <= k < 64 ==> added.rings[k] == [])
               && forall i :: 0 <= i < |Clients(s)| ==> Clients(s)[i].id != added.id)
  {
    hide Counted, WaitsOk, LinksOk, Outputs;
    var (t, ret) := CreateContext(s, lengthOk, mem, ok);
    if s.freeContexts != [] {
      assert s.freeContexts[0] in s.freeContexts;
    }
    if ret.Ok? {
      var ctx := t.active[|s.active|];
      forall i | 0 <= i < |s.active| ensures s.active[i].id != ctx.id {
        NewClientId(s, ctx, i);
      }
    }
  }

  lemma NewClientId(s: State, ctx: Context, i: nat)
    requires Inv(s) && i < |s.active|
    requires if s.freeContexts == [] then ctx.id == s.nextContextId else ctx == s.freeContexts[0]
    ensures s.active[i].id != ctx.id
  {
    hide Sum, Counted, WaitsOk, LinksOk, Outputs;
    var a, f := Sum(CtxId, s.active), Sum(CtxId, s.freeContexts);
    SumContains(CtxId, s.active, s.active[i]);
    assert s.active[i].id in a;
    if s.freeContexts == [] {
      assert s.active[i].id in a + f;
    } else {
      SumContains(CtxId, s.freeContexts, s.freeContexts[0]);
      assert ctx.id in f;
      assert (a + f)[ctx.id] <= 1;
    }
  }

  /** A client that goes leaves the others, and every value, as they are. */
  lemma DisconnectMeans(s: State, c: nat, order: seq<Ref>)
    requires c < |s.active|
    ensures var t := DestroyContext(s, c, order);
      && Clients(t) == Clients(s)[..c] + Clients(s)[c + 1..]
      && Values(t.pool) == Values(s.pool) && Inputs(t.log) == Inputs(s.log) + [Destroyed(s.active[c].id)]
      && t.nextEvent == s.nextEvent && t.nextSubmit == s.nextSubmit
  {
    var ctx := s.active[c];
    UnrefAllValues(s.pool, TimelineRefs(ctx.timelines) + WaitRefs(ctx.waits) + order);
    ClosingsOnly(ctx.waits);
    InputAndOutputs(s.log, Destroyed(ctx.id), Closings(ctx.waits));
  }

  lemma {:induction false} ClosingsOnly(ws: seq<Wait>)
    ensures forall e :: e in Closings(ws) ==> e.Closed?
  {
    if ws != [] {
      ClosingsOnly(ws[1..]);
    }
  }

  ghost function Deaths(cs: seq<Client>): seq<Event> {
    if cs == [] then [] else [Destroyed(cs[0].id)] + Deaths(cs[1..])
  }

  lemma {:induction false} DestroyAllInputs(s: State, orders: seq<seq<Ref>>)
    requires |orders| == |s.active|
    ensures Inputs(DestroyAll(s, orders).log) == Inputs(s.log) + Deaths(Clients(s))
    decreases |s.active|
  {
    hide Inputs, DestroyContext;
    if s.active != [] {
      var t := DestroyContext(s, 0, orders[0]);
      DisconnectMeans(s, 0, orders[0]);
      assert Clients(s)[..0] + Clients(s)[1..] == Clients(s)[1..];
      assert |t.active| == |Clients(t)|;
      DestroyAllInputs(t, orders[1..]);
      var d := Destroyed(s.active[0].id);
      assert Inputs(s.log) + [d] + Deaths(Clients(t)) == Inputs(s.log) + ([d] + Deaths(Clients(t)));
    } else {
      assert Inputs(s.log) + [] == Inputs(s.log);
    }
  }

  /** Cleanup is the death of every client, in order. */
  lemma CleanupMeans(s: State, orders: seq<seq<Ref>>)
    requires Inv(s) && Listings(orders, s.active)
    ensures var t := CleanupRenderer(s, orders);
      && Clients(t) == [] && Inputs(t.log) == Inputs(s.log) + Deaths(Clients(s))
      && t.nextEvent == s.nextEvent && t.nextSubmit == s.nextSubmit
  {
    hide InvWith, Inputs;
    CleanupTotal(s, orders);
    if s.nextContextId > 1 {
      DestroyAllInputs(s, orders);
    } else {
      NoContextYet(s);
      assert Inputs(s.log) + [] == Inputs(s.log);
    }
  }

  // --- the history of a run, from its requests -----------------------------------------------

  /** What an operation adds to the history, by the meaning of the request. */
  ghost function Added(s: State, op: Op): seq<Event>
    requires Inv(s) && Enabled(s, op)
  {
    hide InvWith, Listing, Listings;
    match op
    case NewClient(_, _, _) => []
    case DropClient(c, _) => [Destroyed(s.active[c].id)]
    case SyncCreate(_, _, _, _) => []
    case SyncUnref(_, _) => []
    case SyncWrite(c, id, value, now) =>
      if id !in s.active[c].table then []
      else
        TableKnown(s, c, id);
        SignalEvents(Values(s.pool), [Entry(s.active[c].table[id], value)], now)
    case SyncWait(c, any, timeout, reqs, mem, eventOk, sent, now) =>
      if mem && eventOk && forall i :: 0 <= i < |reqs| ==> reqs[i].id in s.active[c].table
      then [AskedOf(s, c, any, timeout, reqs, sent, now)] else []
    case Batch(c, cmdOk, ring, reqs, _, _, now) =>
      var n := KnownCount(s.active[c].table, reqs);
      NamedKnown(s, c, reqs, n);
      if cmdOk && ring.None? then SignalEvents(Values(s.pool), Named(s.active[c].table, reqs, n), now) else []
    case Fence(c, ring, serial, now) =>
      TimelineCount(s, c);
      var q := s.active[c].timelines[ring];
      FenceMeans(s, c, ring, serial, now);
      SignalEvents(Values(s.pool), Flat(q[..Completed(q, serial)]), now)
    case Cleanup(_) => Deaths(Clients(s))
  }

  lemma StepAdds(s: State, op: Op)
    requires Inv(s) && Enabled(s, op)
    ensures Inputs(Step(s, op).log) == Inputs(s.log) + Added(s, op)
  {
    hide InvWith, Listing, Listings, Inputs, SignalEvents, SignalTimeline, WaitSync, SubmitBatch, WriteSync;
    hide CleanupRenderer, DestroyContext, Values;
    assert Inputs(s.log) + [] == Inputs(s.log);
    match op
    case NewClient(lengthOk, mem, ok) => ConnectMeans(s, lengthOk, mem, ok);
    case DropClient(c, order) => DisconnectMeans(s, c, order);
    case SyncCreate(c, value, alloc, replied) => FreeKnown(s); CreateMeans(s, c, value, alloc, replied);
    case SyncUnref(c, id) => DropMeans(s, c, id);
    case SyncWrite(c, id, value, now) => WriteMeans(s, c, id, value, now);
    case SyncWait(c, any, timeout, reqs, mem, eventOk, sent, now) =>
      WaitMeans(s, c, any, timeout, reqs, mem, eventOk, sent, now);
    case Batch(c, cmdOk, ring, reqs, mem, fenceOk, now) =>
      TimelineCount(s, c);
      BatchMeans(s, c, cmdOk, ring, reqs, mem, fenceOk, now);
      if reqs == [] {
        NoEvents(Values(s.pool), now);
        assert Named(s.active[c].table, reqs, 0) == [];
      }
    case Fence(c, ring, serial, now) =>
      TimelineCount(s, c);
      FenceMeans(s, c, ring, serial, now);
    case Cleanup(orders) => CleanupMeans(s, orders);
  }

  lemma NoEvents(values: map<Ref, nat>, now: nat)
    ensures SignalEvents(values, [], now) == []
  {
  }

  ghost function History(s: State, ops: seq<Op>): seq<Event>
    requires Inv(s)
    decreases |ops|
  {
    if ops == [] || !Enabled(s, ops[0]) then []
    else
      StepInv(s, ops[0]);
      Added(s, ops[0]) + History(Step(s, ops[0]), ops[1..])
  }

  lemma {:induction false} RunHistory(s: State, ops: seq<Op>, t: State)
    requires Inv(s) && Runs(s, ops, t)
    ensures Inputs(t.log) == Inputs(s.log) + History(s, ops)
    decreases |ops|
  {
    hide InvWith, Inputs, Step, Added, Enabled;
    if ops == [] {
      assert Inputs(s.log) + [] == Inputs(s.log);
    } else {
      StepInv(s, ops[0]);
      StepAdds(s, ops[0]);
      var u := Step(s, ops[0]);
      RunHistory(u, ops[1..], t);
      assert Inputs(s.log) + Added(s, ops[0]) + History(u, ops[1..])
        == Inputs(s.log) + (Added(s, ops[0]) + History(u, ops[1..]));
    }
  }

  /**
   * No lost and no spurious wakeup: over every run an eventfd is made ready exactly if the requests of the run say so,
   * and then once; it is listed exactly while they leave it open; otherwise it was closed once.
   */
  lemma WakeupsFollowRequests(ops: seq<Op>, t: State, fd: EventFd)
    requires Inv(INITIAL) && Runs(INITIAL, ops, t)
    ensures multiset(t.log)[Ready(fd)] == if FateOf(History(INITIAL, ops), fd).Woken? then 1 else 0
    ensures Fds(t.active)[fd] == if FateOf(History(INITIAL, ops), fd).Waiting? then 1 else 0
    ensures multiset(t.log)[Closed(fd)] ==
      if fd < t.nextEvent && !FateOf(History(INITIAL, ops), fd).Waiting? then 1 else 0
  {
    hide InvWith, FateOf;
    RunHistory(INITIAL, ops, t);
    assert Inputs(INITIAL.log) + History(INITIAL, ops) == History(INITIAL, ops);
    FateOfInputs(t.log, fd);
    WakeupsExact(t, fd);
  }
}
