/** What every reachable state of the vtest machine satisfies. */
module VtestInvariant {
  import opened Bags
  import opened SyncPool
  import opened SyncWaits
  import opened VtestMachine

  // --- who holds which sync ------------------------------------------------------------------

  function SubmitBag(u: Submit): multiset<Ref> { multiset(Refs(u.entries)) }

  function QueueBag(q: seq<Submit>): multiset<Ref> { Sum(SubmitBag, q) }

  /** The syncs a context's table refers to. */
  function TableSet(t: map<int, Ref>): set<Ref> { set k | k in t :: t[k] }

  function CtxBag(c: Context): multiset<Ref> {
    multiset(TableSet(c.table)) + Sum(QueueBag, c.timelines) + Sum(WaitBag, c.waits)
  }

  function Held(cs: seq<Context>): multiset<Ref> { Sum(CtxBag, cs) }

  function WaitFd(w: Wait): multiset<EventFd> { multiset{w.fd} }

  function CtxFds(c: Context): multiset<EventFd> { Sum(WaitFd, c.waits) }

  /** The eventfds of all listed waits. */
  function Fds(cs: seq<Context>): multiset<EventFd> { Sum(CtxFds, cs) }

  function CtxId(c: Context): multiset<int> { multiset{c.id} }

  // --- the invariant -------------------------------------------------------------------------

  ghost predicate TableOk(p: Pool, c: Context) {
    forall k :: k in c.table ==> c.table[k] in p.syncs && p.syncs[c.table[k]].id == k
  }

  ghost predicate Clean(c: Context) {
    c.table == map[] && c.timelines == EmptyTimelines() && c.waits == []
  }

  ghost predicate ContextsOk(s: State) {
    && s.nextContextId == |s.active| + |s.freeContexts| + 1
    && (forall c :: c in s.active ==> |c.timelines| == MAX_TIMELINE_COUNT && TableOk(s.pool, c))
    && (forall c :: c in s.freeContexts ==> Clean(c))
    && (forall k :: (Sum(CtxId, s.active) + Sum(CtxId, s.freeContexts))[k] <= 1)
    && (forall k :: k in Sum(CtxId, s.active) + Sum(CtxId, s.freeContexts) ==> 1 <= k < s.nextContextId)
  }

  ghost predicate WaitsOk(p: Pool, cs: seq<Context>) {
    forall c, w :: c in cs && w in c.waits ==> WaitValid(p, w)
  }

  ghost predicate LinksOk(log: seq<Event>, cs: seq<Context>) {
    forall c, w :: c in cs && w in c.waits ==> Linked(w, c.id, FateOf(log, w.fd))
  }

  /** Listed waits are those whose fate is open; an eventfd is written once if woken and closed once if not open. */
  ghost predicate Outputs(log: seq<Event>, fds: multiset<EventFd>, nextEvent: nat) {
    && (forall fd :: fds[fd] == if FateOf(log, fd).Waiting? then 1 else 0)
    && (forall fd: EventFd :: multiset(log)[Ready(fd)] == if FateOf(log, fd).Woken? then 1 else 0)
    && (forall fd: EventFd :: multiset(log)[Closed(fd)] ==
          if fd < nextEvent && !FateOf(log, fd).Waiting? then 1 else 0)
    && (forall fd: EventFd :: fd >= nextEvent ==> FateOf(log, fd).Unknown?)
  }

  /** The invariant while references `extra` are in the hands of a running routine. */
  ghost predicate InvWith(s: State, extra: multiset<Ref>) {
    && Counted(s.pool, Held(s.active) + extra)
    && ContextsOk(s)
    && WaitsOk(s.pool, s.active)
    && LinksOk(s.log, s.active)
    && Outputs(s.log, Fds(s.active), s.nextEvent)
  }

  ghost predicate Inv(s: State) {
    InvWith(s, multiset{})
  }

  // --- a raising signal ----------------------------------------------------------------------

  /** `after` and `events` are what the fates under `log` make of the waits `before`. */
  ghost predicate Tally(log: seq<Event>, before: multiset<EventFd>, after: multiset<EventFd>, events: seq<Event>) {
    && (forall e :: e in events ==> e.Ready? || e.Closed?)
    && (forall fd :: after[fd] == if FateOf(log, fd).Waiting? then before[fd] else 0)
    && (forall fd: EventFd :: multiset(events)[Ready(fd)] == if FateOf(log, fd).Woken? then before[fd] else 0)
    && (forall fd: EventFd :: multiset(events)[Closed(fd)] == if FateOf(log, fd).Waiting? then 0 else before[fd])
  }

  lemma TallyAdd(log: seq<Event>, b: multiset<EventFd>, a: multiset<EventFd>, e: seq<Event>,
                 b': multiset<EventFd>, a': multiset<EventFd>, e': seq<Event>)
    requires Tally(log, b, a, e) && Tally(log, b', a', e')
    ensures Tally(log, b + b', a + a', e + e')
  {
  }

  ghost predicate SweepReady(p: Pool, log: seq<Event>, ctx: int, ws: seq<Wait>, r: Ref) {
    forall w :: w in ws ==> WaitValidBut(p, w, r) && Linked(w, ctx, FateOf(log, w.fd))
  }

  ghost predicate SweepDone(p: Pool, log: seq<Event>, ctx: int, ws: seq<Wait>) {
    forall w :: w in ws ==> WaitValid(p, w) && Linked(w, ctx, FateOf(log, w.fd))
  }

  lemma TallyOne(log: seq<Event>, fd: EventFd, after: multiset<EventFd>, events: seq<Event>)
    requires match FateOf(log, fd)
      case Waiting(_, _, _, _, _) => after == multiset{fd} && events == []
      case Woken => after == multiset{} && events == [Ready(fd), Closed(fd)]
      case _ => after == multiset{} && events == [Closed(fd)]
    ensures Tally(log, multiset{fd}, after, events)
  {
  }

  lemma WaitStepTally(p: Pool, run: Pool, log: seq<Event>, ctx: int, w: Wait, s: Signal)
    requires s.raised && s.sync in p.syncs && p.syncs[s.sync].value == s.value
    requires WaitValidBut(p, w, s.sync) && Linked(w, ctx, FateOf(log, w.fd))
    ensures var o, log' := WaitStep(run, w, s.sync, s.value, s.now), log + [Signalled(s)];
      var kept := if o.kept.Some? then [o.kept.value] else [];
      SweepDone(p, log', ctx, kept) && Tally(log', multiset{w.fd}, Sum(WaitFd, kept), o.events)
  {
    FateAppend(log, Signalled(s), w.fd);
    WaitStepFate(p, run, w, ctx, FateOf(log, w.fd), s);
    var o := WaitStep(run, w, s.sync, s.value, s.now);
    var kept := if o.kept.Some? then [o.kept.value] else [];
    assert Sum(WaitFd, kept) == if o.kept.Some? then multiset{o.kept.value.fd} else multiset{};
    TallyOne(log + [Signalled(s)], w.fd, Sum(WaitFd, kept), o.events);
  }

  lemma {:induction false} SweepTally(p: Pool, run: Pool, log: seq<Event>, ctx: int, ws: seq<Wait>, s: Signal)
    requires s.raised && s.sync in p.syncs && p.syncs[s.sync].value == s.value
    requires SweepReady(p, log, ctx, ws, s.sync)
    ensures var o, log' := Sweep(run, ws, s.sync, s.value, s.now), log + [Signalled(s)];
      SweepDone(p, log', ctx, o.kept) && Tally(log', Sum(WaitFd, ws), Sum(WaitFd, o.kept), o.events)
    decreases |ws|
  {
    if ws != [] {
      var one := WaitStep(run, ws[0], s.sync, s.value, s.now);
      var kept := if one.kept.Some? then [one.kept.value] else [];
      var rest := Sweep(one.pool, ws[1..], s.sync, s.value, s.now);
      WaitStepTally(p, run, log, ctx, ws[0], s);
      SweepTally(p, one.pool, log, ctx, ws[1..], s);
      SumConcat(WaitFd, kept, rest.kept);
      TallyAdd(log + [Signalled(s)], multiset{ws[0].fd}, Sum(WaitFd, kept), one.events,
               Sum(WaitFd, ws[1..]), Sum(WaitFd, rest.kept), rest.events);
    }
  }

  lemma {:induction false} SweepContextsTally(p: Pool, run: Pool, log: seq<Event>, cs: seq<Context>, s: Signal)
    requires s.raised && s.sync in p.syncs && p.syncs[s.sync].value == s.value
    requires forall c :: c in cs ==> SweepReady(p, log, c.id, c.waits, s.sync)
    ensures var o, log' := SweepContexts(run, cs, s.sync, s.value, s.now), log + [Signalled(s)];
      && (forall c :: c in o.kept ==> SweepDone(p, log', c.id, c.waits))
      && Tally(log', Fds(cs), Fds(o.kept), o.events)
    decreases |cs|
  {
    if cs != [] {
      var one := Sweep(run, cs[0].waits, s.sync, s.value, s.now);
      var rest := SweepContexts(one.pool, cs[1..], s.sync, s.value, s.now);
      var c := cs[0].(waits := one.kept);
      SweepTally(p, run, log, cs[0].id, cs[0].waits, s);
      SweepContextsTally(p, one.pool, log, cs[1..], s);
      assert ([c] + rest.kept)[1..] == rest.kept;
      assert Fds([c] + rest.kept) == CtxFds(c) + Fds(rest.kept);
      TallyAdd(log + [Signalled(s)], CtxFds(cs[0]), CtxFds(c), one.events, Fds(cs[1..]), Fds(rest.kept), rest.events);
    }
  }

  lemma {:induction false} SweepContextsCounted(p: Pool, cs: seq<Context>, r: Ref, value: nat, now: nat,
                                                extra: multiset<Ref>)
    requires Counted(p, Held(cs) + extra)
    ensures var o := SweepContexts(p, cs, r, value, now);
      SameSyncs(p, o.pool) && Counted(o.pool, Held(o.kept) + extra)
    decreases |cs|
  {
    if cs != [] {
      var c, cs' := cs[0], cs[1..];
      var one := Sweep(p, c.waits, r, value, now);
      var c' := c.(waits := one.kept);
      var rest := SweepContexts(one.pool, cs', r, value, now);
      var others := multiset(TableSet(c.table)) + Sum(QueueBag, c.timelines) + Held(cs') + extra;
      assert Held(cs) + extra == others + Sum(WaitBag, c.waits);
      SweepCounted(p, c.waits, r, value, now, others);
      assert others + Sum(WaitBag, one.kept) == Held(cs') + (extra + CtxBag(c'));
      SweepContextsCounted(one.pool, cs', r, value, now, extra + CtxBag(c'));
      assert ([c'] + rest.kept)[1..] == rest.kept;
      assert Held(rest.kept) + (extra + CtxBag(c')) == Held([c'] + rest.kept) + extra;
    }
  }

  lemma OutputsSweep(log: seq<Event>, s: Signal, fds: multiset<EventFd>, fds': multiset<EventFd>,
                     events: seq<Event>, nextEvent: nat)
    requires Outputs(log, fds, nextEvent) && Tally(log + [Signalled(s)], fds, fds', events)
    ensures Outputs(log + [Signalled(s)] + events, fds', nextEvent)
  {
    forall fd: EventFd
      ensures FateOf(log + [Signalled(s)] + events, fd) == FateStep(FateOf(log, fd), Signalled(s), fd)
      ensures FateOf(log + [Signalled(s)], fd) == FateStep(FateOf(log, fd), Signalled(s), fd)
    {
      FateOutputs(log + [Signalled(s)], events, fd);
      FateAppend(log, Signalled(s), fd);
    }
  }

  /** The contexts of `t` are those of `s` except for their waits. */
  ghost predicate SameButWaits(s: State, t: State) {
    && s.freeContexts == t.freeContexts && s.nextContextId == t.nextContextId
    && s.nextEvent == t.nextEvent && s.nextSubmit == t.nextSubmit
    && |s.active| == |t.active|
    && (forall i :: 0 <= i < |s.active| ==> t.active[i] == s.active[i].(waits := t.active[i].waits))
  }

  /** The pools agree on which syncs exist and on their ids. */
  ghost predicate SameIds(p: Pool, q: Pool) {
    && p.syncs.Keys == q.syncs.Keys
    && (forall r :: r in p.syncs ==> p.syncs[r].id == q.syncs[r].id)
  }

  lemma ContextsOkSame(s: State, t: State)
    requires ContextsOk(s) && SameButWaits(s, t) && SameIds(s.pool, t.pool)
    ensures ContextsOk(t)
  {
    SumPointwise(CtxId, s.active, t.active);
    forall c | c in t.active ensures |c.timelines| == MAX_TIMELINE_COUNT && TableOk(t.pool, c) {
      var i :| 0 <= i < |t.active| && t.active[i] == c;
      assert s.active[i] in s.active;
      assert TableOk(s.pool, s.active[i]);
    }
  }

  lemma RaiseCounted(s: State, r: Ref, value: nat, now: nat, extra: multiset<Ref>)
    requires Counted(s.pool, Held(s.active) + extra) && r in s.pool.syncs
    ensures var p := SetValue(s.pool, r, value);
      var o := SweepContexts(p, s.active, r, value, now);
      Counted(o.pool, Held(o.kept) + extra) && SameSyncs(p, o.pool) && SameIds(s.pool, o.pool)
  {
    hide Counted, Held, SweepContexts;
    CountedSetValue(s.pool, Held(s.active) + extra, r, value);
    SweepContextsCounted(SetValue(s.pool, r, value), s.active, r, value, now, extra);
  }

  lemma RaiseOutputs(s: State, r: Ref, value: nat, now: nat)
    requires r in s.pool.syncs && WaitsOk(s.pool, s.active) && LinksOk(s.log, s.active)
    requires Outputs(s.log, Fds(s.active), s.nextEvent)
    ensures var p := SetValue(s.pool, r, value);
      var sig, o := Signal(r, value, now, true), SweepContexts(p, s.active, r, value, now);
      && (forall c :: c in o.kept ==> SweepDone(p, s.log + [Signalled(sig)], c.id, c.waits))
      && (forall e :: e in o.events ==> e.Ready? || e.Closed?)
      && Outputs(s.log + [Signalled(sig)] + o.events, Fds(o.kept), s.nextEvent)
  {
    var p := SetValue(s.pool, r, value);
    var sig := Signal(r, value, now, true);
    var o := SweepContexts(p, s.active, r, value, now);
    forall c | c in s.active ensures SweepReady(p, s.log, c.id, c.waits, r) {
      forall w | w in c.waits ensures WaitValidBut(p, w, r) && Linked(w, c.id, FateOf(s.log, w.fd)) {
        assert WaitValid(s.pool, w);
      }
    }
    SweepContextsTally(p, p, s.log, s.active, sig);
    OutputsSweep(s.log, sig, Fds(s.active), Fds(o.kept), o.events, s.nextEvent);
  }

  lemma RaiseInv(s: State, r: Ref, value: nat, now: nat, extra: multiset<Ref>)
    requires InvWith(s, extra) && r in s.pool.syncs && s.pool.syncs[r].value < value
    ensures InvWith(SignalSync(s, r, value, now), extra)
  {
    var p := SetValue(s.pool, r, value);
    var o := SweepContexts(p, s.active, r, value, now);
    RaiseCounted(s, r, value, now, extra);
    RaiseOutputs(s, r, value, now);
    ContextsOkSame(s, SignalSync(s, r, value, now));
    SweptLinks(p, o.pool, s.log + [Signalled(Signal(r, value, now, true))], o.events, o.kept);
  }

  lemma SweptLinks(p: Pool, q: Pool, log: seq<Event>, events: seq<Event>, cs: seq<Context>)
    requires SameSyncs(p, q)
    requires forall e :: e in events ==> e.Ready? || e.Closed?
    requires forall c :: c in cs ==> SweepDone(p, log, c.id, c.waits)
    ensures WaitsOk(q, cs) && LinksOk(log + events, cs)
  {
    forall c, w | c in cs && w in c.waits
      ensures WaitValid(q, w) && Linked(w, c.id, FateOf(log + events, w.fd))
    {
      assert SweepDone(p, log, c.id, c.waits);
      assert WaitValid(p, w);
      FateOutputs(log, events, w.fd);
    }
  }

  /** A listed eventfd belongs to some listed wait. */
  lemma ListedWait(cs: seq<Context>, fd: EventFd) returns (c: Context, w: Wait)
    requires fd in Fds(cs)
    ensures c in cs && w in c.waits && w.fd == fd
  {
    SumSource(CtxFds, cs, fd);
    c :| c in cs && fd in CtxFds(c);
    SumSource(WaitFd, c.waits, fd);
    w :| w in c.waits && fd in WaitFd(w);
  }

  lemma QuietLinks(s: State, sig: Signal)
    requires !sig.raised && sig.sync in s.pool.syncs && s.pool.syncs[sig.sync].value >= sig.value
    requires WaitsOk(s.pool, s.active) && LinksOk(s.log, s.active)
    ensures LinksOk(s.log + [Signalled(sig)], s.active)
  {
    forall c, w | c in s.active && w in c.waits
      ensures Linked(w, c.id, FateOf(s.log + [Signalled(sig)], w.fd))
    {
      assert WaitValid(s.pool, w) && Linked(w, c.id, FateOf(s.log, w.fd));
      QuietSignalFate(s.pool, w, c.id, FateOf(s.log, w.fd), sig);
      FateAppend(s.log, Signalled(sig), w.fd);
    }
  }

  lemma QuietOutputs(s: State, sig: Signal)
    requires LinksOk(s.log + [Signalled(sig)], s.active)
    requires Outputs(s.log, Fds(s.active), s.nextEvent)
    ensures Outputs(s.log + [Signalled(sig)], Fds(s.active), s.nextEvent)
  {
    var log := s.log + [Signalled(sig)];
    forall fd: EventFd
      ensures FateOf(log, fd).Waiting? == FateOf(s.log, fd).Waiting?
      ensures !FateOf(s.log, fd).Waiting? ==> FateOf(log, fd) == FateOf(s.log, fd)
    {
      FateAppend(s.log, Signalled(sig), fd);
      if FateOf(s.log, fd).Waiting? {
        var c, w := ListedWait(s.active, fd);
        assert Linked(w, c.id, FateOf(log, w.fd));
      }
    }
  }

  lemma QuietInv(s: State, r: Ref, value: nat, now: nat, extra: multiset<Ref>)
    requires InvWith(s, extra) && r in s.pool.syncs && s.pool.syncs[r].value >= value
    ensures InvWith(SignalSync(s, r, value, now), extra)
  {
    hide Counted, ContextsOk, WaitsOk, LinksOk, Outputs, SetValue, Sum;
    var sig := Signal(r, value, now, false);
    CountedSetValue(s.pool, Held(s.active) + extra, r, value);
    QuietContexts(s, r, value, now);
    QuietLinks(s, sig);
    QuietOutputs(s, sig);
    QuietWaits(s.pool, s.active, r, value);
  }

  lemma QuietContexts(s: State, r: Ref, value: nat, now: nat)
    requires ContextsOk(s) && r in s.pool.syncs && s.pool.syncs[r].value >= value
    ensures ContextsOk(SignalSync(s, r, value, now))
  {
    hide ContextsOk;
    ContextsOkSame(s, SignalSync(s, r, value, now));
  }

  /** A value that falls leaves every pending entry above it. */
  lemma QuietWaits(p: Pool, cs: seq<Context>, r: Ref, value: nat)
    requires WaitsOk(p, cs) && r in p.syncs && p.syncs[r].value >= value
    ensures WaitsOk(SetValue(p, r, value), cs)
  {
    forall c, w | c in cs && w in c.waits ensures WaitValid(SetValue(p, r, value), w) {
      assert WaitValid(p, w);
    }
  }

  lemma SignalInv(s: State, r: Ref, value: nat, now: nat, extra: multiset<Ref>)
    requires InvWith(s, extra)
    ensures InvWith(SignalSync(s, r, value, now), extra)
  {
    if r in s.pool.syncs {
      if s.pool.syncs[r].value >= value {
        QuietInv(s, r, value, now, extra);
      } else {
        RaiseInv(s, r, value, now, extra);
      }
    }
  }
}
