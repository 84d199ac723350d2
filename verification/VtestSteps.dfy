/** Every request, callback and teardown keeps the invariant. */
module VtestSteps {
  import opened Bags
  import opened SyncPool
  import opened SyncWaits
  import opened VtestMachine
  import opened VtestInvariant

  // --- moving references between pool, contexts and hands ------------------------------------

  lemma SwapPool(s: State, q: Pool, extra: multiset<Ref>, extra': multiset<Ref>)
    requires InvWith(s, extra) && SameSyncs(s.pool, q) && Counted(q, Held(s.active) + extra')
    ensures InvWith(s.(pool := q), extra')
  {
    ContextsOkSame(s, s.(pool := q));
    forall c, w | c in s.active && w in c.waits ensures WaitValid(q, w) {
      assert WaitValid(s.pool, w);
    }
  }

  /** Replaces context `c` by one with the same id and waits. */
  lemma SwapContext(s: State, c: nat, ctx: Context, extra: multiset<Ref>, extra': multiset<Ref>)
    requires InvWith(s, extra) && c < |s.active|
    requires ctx.id == s.active[c].id && ctx.waits == s.active[c].waits
    requires |ctx.timelines| == MAX_TIMELINE_COUNT && TableOk(s.pool, ctx)
    requires CtxBag(ctx) + extra' == CtxBag(s.active[c]) + extra
    ensures InvWith(s.(active := s.active[c := ctx]), extra')
  {
    SwapHeld(s.active, c, ctx, extra, extra');
    SwapFds(s.active, c, ctx);
    SwapContextsOk(s, c, ctx);
    SwapMembers(s, c, ctx);
  }

  lemma SwapFds(cs: seq<Context>, c: nat, ctx: Context)
    requires c < |cs| && ctx.waits == cs[c].waits
    ensures Fds(cs[c := ctx]) == Fds(cs)
  {
    SumPointwise(CtxFds, cs, cs[c := ctx]);
  }

  lemma SwapHeld(cs: seq<Context>, c: nat, ctx: Context, extra: multiset<Ref>, extra': multiset<Ref>)
    requires c < |cs| && CtxBag(ctx) + extra' == CtxBag(cs[c]) + extra
    ensures Held(cs[c := ctx]) + extra' == Held(cs) + extra
  {
    SumUpdate(CtxBag, cs, c, ctx);
    HeldSwap(Held(cs[c := ctx]), CtxBag(cs[c]), Held(cs), CtxBag(ctx), extra, extra');
  }

  lemma SwapContextsOk(s: State, c: nat, ctx: Context)
    requires ContextsOk(s) && c < |s.active| && ctx.id == s.active[c].id
    requires |ctx.timelines| == MAX_TIMELINE_COUNT && TableOk(s.pool, ctx)
    ensures ContextsOk(s.(active := s.active[c := ctx]))
  {
    SumPointwise(CtxId, s.active, s.active[c := ctx]);
    forall d | d in s.active[c := ctx] ensures |d.timelines| == MAX_TIMELINE_COUNT && TableOk(s.pool, d) {
      assert d == ctx || d in s.active;
    }
  }

  lemma HeldSwap(after: multiset<Ref>, out: multiset<Ref>, before: multiset<Ref>, into: multiset<Ref>,
                 extra: multiset<Ref>, extra': multiset<Ref>)
    requires after + out == before + into && into + extra' == out + extra
    ensures after + extra' == before + extra
  {
    forall r ensures (after + extra')[r] == (before + extra)[r] {
      assert (after + out)[r] == (before + into)[r];
      assert (into + extra')[r] == (out + extra)[r];
    }
  }

  lemma SwapMembers(s: State, c: nat, ctx: Context)
    requires c < |s.active| && ctx.id == s.active[c].id && ctx.waits == s.active[c].waits
    requires WaitsOk(s.pool, s.active) && LinksOk(s.log, s.active)
    ensures WaitsOk(s.pool, s.active[c := ctx]) && LinksOk(s.log, s.active[c := ctx])
  {
    assert s.active[c] in s.active;
    forall d | d in s.active[c := ctx] ensures d == ctx || d in s.active {}
  }

  // --- timelines -----------------------------------------------------------------------------

  lemma {:induction false} SignalEntriesInv(s: State, es: seq<Entry>, now: nat, extra: multiset<Ref>)
    requires InvWith(s, extra + multiset(Refs(es)))
    ensures InvWith(SignalEntries(s, es, now), extra)
    decreases |es|
  {
    if es == [] {
      assert extra + multiset(Refs(es)) == extra;
    } else {
      var r, rest := es[0].sync, extra + multiset(Refs(es[1..]));
      assert extra + multiset(Refs(es)) == rest + multiset{r};
      SignalInv(s, r, es[0].value, now, rest + multiset{r});
      var t := SignalSync(s, r, es[0].value, now);
      HandBack(t, r, rest);
      SignalEntriesInv(t.(pool := Unref(t.pool, r)), es[1..], now, extra);
    }
  }

  lemma PopInv(s: State, c: nat, ring: nat, extra: multiset<Ref>)
    requires InvWith(s, extra) && c < |s.active| && ring < MAX_TIMELINE_COUNT
    ensures |s.active[c].timelines| == MAX_TIMELINE_COUNT
    ensures var q := s.active[c].timelines[ring];
      q != [] ==> InvWith(s.(active := s.active[c := SetTimeline(s.active[c], ring, q[1..])]),
                          extra + multiset(Refs(q[0].entries)))
  {
    var ctx := s.active[c];
    assert ctx in s.active;
    var q := ctx.timelines[ring];
    if q != [] {
      var ctx' := SetTimeline(ctx, ring, q[1..]);
      SumUpdate(QueueBag, ctx.timelines, ring, q[1..]);
      assert QueueBag(q) == SubmitBag(q[0]) + QueueBag(q[1..]);
      PopBag(Sum(QueueBag, ctx'.timelines), QueueBag(q[1..]), SubmitBag(q[0]), Sum(QueueBag, ctx.timelines));
      assert CtxBag(ctx') + (extra + SubmitBag(q[0])) == CtxBag(ctx) + extra;
      SwapContext(s, c, ctx', extra, extra + SubmitBag(q[0]));
    }
  }

  lemma PopBag(after: multiset<Ref>, rest: multiset<Ref>, head: multiset<Ref>, before: multiset<Ref>)
    requires after + (head + rest) == before + rest
    ensures after + head == before
  {
    forall r ensures (after + head)[r] == before[r] {
      assert (after + (head + rest))[r] == (before + rest)[r];
    }
  }

  lemma {:induction false} SignalTimelineInv(s: State, c: nat, ring: nat, serial: nat, now: nat)
    requires Inv(s) && c < |s.active| && ring < MAX_TIMELINE_COUNT
    ensures |s.active[c].timelines| == MAX_TIMELINE_COUNT
    ensures Inv(SignalTimeline(s, c, ring, serial, now))
    decreases |s.active[c].timelines[ring]|
  {
    PopInv(s, c, ring, multiset{});
    var q := s.active[c].timelines[ring];
    if q != [] {
      var popped := s.(active := s.active[c := SetTimeline(s.active[c], ring, q[1..])]);
      SignalEntriesInv(popped, q[0].entries, now, multiset{});
      var t := SignalEntries(popped, q[0].entries, now);
      if q[0].serial != serial {
        SignalTimelineInv(t, c, ring, serial, now);
      }
    }
  }

  // --- creating, dropping and writing syncs ----------------------------------------------------

  lemma NewSyncInv(s: State, c: nat, value: nat, mem: Option<Ref>, replied: bool)
    requires Inv(s) && c < |s.active|
    requires mem.Some? ==> mem.value !in s.pool.syncs
    ensures Inv(NewSync(s, c, value, mem, replied).0)
  {
    NewHeld(s, value, mem);
    var (p, r) := New(s.pool, value, mem);
    if r.Some? {
      if replied {
        RegisterInv(s.(pool := p), c, r.value);
      } else {
        HandBack(s.(pool := p), r.value, multiset{});
      }
    }
  }

  /** Dropping a reference that is in hand. */
  lemma HandBack(s: State, r: Ref, extra: multiset<Ref>)
    requires InvWith(s, extra + multiset{r})
    ensures r in s.pool.syncs && s.pool.syncs[r].refcount > 0
    ensures InvWith(s.(pool := Unref(s.pool, r)), extra)
  {
    var held := Held(s.active) + (extra + multiset{r});
    assert r in held;
    CountedUnref(s.pool, held, r);
    assert held - multiset{r} == Held(s.active) + extra;
    SwapPool(s, Unref(s.pool, r), extra + multiset{r}, extra);
  }

  /** The fresh sync is held by the routine that made it and by no one else. */
  lemma NewHeld(s: State, value: nat, mem: Option<Ref>)
    requires Inv(s)
    requires mem.Some? ==> mem.value !in s.pool.syncs
    ensures var (p, r) := New(s.pool, value, mem);
      r.Some? ==> InvWith(s.(pool := p), multiset{} + multiset{r.value}) && Held(s.active)[r.value] == 0
  {
    var held := Held(s.active);
    assert held + multiset{} == held;
    CountedNew(s.pool, held, value, mem);
    var (p, r) := New(s.pool, value, mem);
    if r.Some? {
      assert held + multiset{r.value} == held + (multiset{} + multiset{r.value});
      NewContextsOk(s, p);
      NewWaitsOk(s, p);
    }
  }

  lemma NewContextsOk(s: State, p: Pool)
    requires ContextsOk(s)
    requires forall k :: k in s.pool.syncs ==> k in p.syncs && p.syncs[k].id == s.pool.syncs[k].id
    ensures ContextsOk(s.(pool := p))
  {
    forall c | c in s.active ensures TableOk(p, c) {
      assert TableOk(s.pool, c);
    }
  }

  lemma NewWaitsOk(s: State, p: Pool)
    requires WaitsOk(s.pool, s.active)
    requires forall k :: k in Held(s.active) ==> k in p.syncs && k in s.pool.syncs && p.syncs[k] == s.pool.syncs[k]
    ensures WaitsOk(p, s.active)
  {
    forall c, w | c in s.active && w in c.waits ensures WaitValid(p, w) {
      assert WaitValid(s.pool, w);
      forall i | 0 <= i < |w.slots| && w.slots[i].sync.Some?
        ensures w.slots[i].sync.value in Held(s.active)
      {
        LiveRefIn(w.slots, i);
        assert w.slots[i].sync.value in WaitBag(w);
        SumContains(WaitBag, c.waits, w);
        SumContains(CtxBag, s.active, c);
      }
    }
  }

  lemma RegisterInv(s: State, c: nat, r: Ref)
    requires InvWith(s, multiset{} + multiset{r}) && c < |s.active| && Held(s.active)[r] == 0
    ensures r in s.pool.syncs
    ensures var ctx := s.active[c];
      Inv(s.(active := s.active[c := ctx.(table := ctx.table[s.pool.syncs[r].id := r])]))
  {
    var ctx := s.active[c];
    assert ctx in s.active;
    assert r in Held(s.active) + (multiset{} + multiset{r});
    UnlistedSync(s, ctx, r);
    var ctx' := ctx.(table := ctx.table[s.pool.syncs[r].id := r]);
    RegisterBag(ctx, s.pool.syncs[r].id, r);
    assert TableOk(s.pool, ctx');
    SwapContext(s, c, ctx', multiset{} + multiset{r}, multiset{});
  }

  lemma RegisterBag(ctx: Context, id: int, r: Ref)
    requires id !in ctx.table && r !in TableSet(ctx.table)
    ensures CtxBag(ctx.(table := ctx.table[id := r])) + multiset{} == CtxBag(ctx) + (multiset{} + multiset{r})
  {
    TableAdd(ctx.table, id, r);
    assert multiset(TableSet(ctx.table) + {r}) == multiset(TableSet(ctx.table)) + multiset{r};
  }

  /** No table names a sync without holders, neither by address nor by id. */
  lemma UnlistedSync(s: State, ctx: Context, r: Ref)
    requires IdsUnique(s.pool) && r in s.pool.syncs
    requires ctx in s.active && TableOk(s.pool, ctx) && Held(s.active)[r] == 0
    ensures s.pool.syncs[r].id !in ctx.table && r !in TableSet(ctx.table)
  {
    SumContains(CtxBag, s.active, ctx);
    assert r !in CtxBag(ctx);
    assert r !in multiset(TableSet(ctx.table));
    assert forall k :: k in ctx.table ==> ctx.table[k] in TableSet(ctx.table);
  }

  lemma TableAdd(m: map<int, Ref>, k: int, r: Ref)
    requires k !in m
    ensures TableSet(m[k := r]) == TableSet(m) + {r}
  {
    var m' := m[k := r];
    assert m'[k] in TableSet(m');
    forall x | x in TableSet(m) ensures x in TableSet(m') {
      var j :| j in m && m[j] == x;
      assert m'[j] in TableSet(m');
    }
  }

  lemma TableRemove(p: Pool, c: Context, id: int)
    requires TableOk(p, c) && id in c.table
    ensures c.table[id] in TableSet(c.table)
    ensures TableSet(c.table - {id}) == TableSet(c.table) - {c.table[id]}
  {
    var m, m' := c.table, c.table - {id};
    forall x | x in TableSet(m) && x != m[id] ensures x in TableSet(m') {
      var j :| j in m && m[j] == x;
      assert m'[j] in TableSet(m');
    }
    forall x | x in TableSet(m') ensures x in TableSet(m) && x != m[id] {
      var j :| j in m' && m'[j] == x;
      assert m[j] in TableSet(m);
    }
  }

  lemma DropSyncInv(s: State, c: nat, id: int)
    requires Inv(s) && c < |s.active|
    ensures Inv(DropSync(s, c, id))
  {
    hide Counted, WaitsOk, LinksOk, Outputs, Sum, TableSet;
    var ctx := s.active[c];
    if id in ctx.table {
      assert ctx in s.active;
      var r := ctx.table[id];
      var ctx' := ctx.(table := ctx.table - {id});
      TableRemove(s.pool, ctx, id);
      assert multiset(TableSet(ctx.table)) == multiset(TableSet(ctx'.table)) + multiset{r};
      assert CtxBag(ctx') + (multiset{} + multiset{r}) == CtxBag(ctx) + multiset{};
      assert TableOk(s.pool, ctx');
      SwapContext(s, c, ctx', multiset{}, multiset{} + multiset{r});
      HandBack(s.(active := s.active[c := ctx']), r, multiset{});
    }
  }

  lemma {:induction false} SignalRequestsInv(s: State, c: nat, reqs: seq<Request>, now: nat)
    requires Inv(s) && c < |s.active|
    ensures Inv(SignalRequests(s, c, reqs, now).0)
    decreases |reqs|
  {
    if reqs != [] && reqs[0].id in s.active[c].table {
      var r := s.active[c].table[reqs[0].id];
      SignalInv(s, r, reqs[0].value, now, multiset{});
      SignalRequestsInv(SignalSync(s, r, reqs[0].value, now), c, reqs[1..], now);
    }
  }

  // --- waiting -------------------------------------------------------------------------------

  lemma {:induction false} CountedAddRefs(p: Pool, held: multiset<Ref>, refs: seq<Ref>)
    requires Counted(p, held) && forall r :: r in refs ==> r in held
    ensures Counted(AddRefs(p, refs), held + multiset(refs))
    ensures SameSyncs(p, AddRefs(p, refs))
    decreases |refs|
  {
    if refs == [] {
      assert held + multiset(refs) == held;
    } else {
      var r, rest := refs[0], refs[1..];
      assert refs == [r] + rest;
      CountedAddRef(p, held, r);
      CountedAddRefs(AddRef(p, r), held + multiset{r}, rest);
      assert held + multiset{r} + multiset(rest) == held + multiset(refs);
    }
  }

  lemma {:induction false} RefsMembers(es: seq<Entry>)
    ensures forall r :: r in Refs(es) ==> exists e :: e in es && e.sync == r
  {
    if es != [] {
      RefsMembers(es[1..]);
      forall r | r in Refs(es) ensures exists e :: e in es && e.sync == r {
        if r == es[0].sync {
          assert es[0] in es;
        } else {
          assert r in Refs(es[1..]);
          var e :| e in es[1..] && e.sync == r;
          assert e in es;
        }
      }
    }
  }

  lemma {:induction false} ResolveMembers(table: map<int, Ref>, reqs: seq<Request>)
    ensures |Resolve(table, reqs)| <= |reqs|
    ensures forall e :: e in Resolve(table, reqs) ==> e.sync in TableSet(table)
  {
    if reqs != [] && reqs[0].id in table {
      ResolveMembers(table, reqs[1..]);
    }
  }

  lemma {:induction false} UnmetMembers(es: seq<Entry>, current: seq<nat>)
    requires |es| == |current|
    ensures |Unmet(es, current)| <= |es|
    ensures forall e :: e in Unmet(es, current) ==> exists i :: 0 <= i < |es| && es[i] == e && current[i] < e.value
  {
    if es != [] {
      UnmetMembers(es[1..], current[1..]);
      forall e | e in Unmet(es, current)
        ensures exists i :: 0 <= i < |es| && es[i] == e && current[i] < e.value
      {
        if e in Unmet(es[1..], current[1..]) {
          var i :| 0 <= i < |es[1..]| && es[1..][i] == e && current[1..][i] < e.value;
          assert es[i + 1] == e && current[i + 1] < e.value;
        } else {
          assert es[0] == e && current[0] < e.value;
        }
      }
    }
  }

  lemma {:induction false} FreshSlotsFacts(es: seq<Entry>)
    ensures |FreshSlots(es)| == |es| && Cleared(FreshSlots(es)) == 0
    ensures LiveRefs(FreshSlots(es)) == Refs(es)
    ensures forall i :: 0 <= i < |es| ==> FreshSlots(es)[i] == Slot(Some(es[i].sync), es[i].value)
  {
    if es != [] {
      FreshSlotsFacts(es[1..]);
    }
  }

  /** Entries resolved through a context's table refer to held syncs. */
  lemma ResolvedHeld(s: State, c: nat, es: seq<Entry>)
    requires c < |s.active| && forall e :: e in es ==> e.sync in TableSet(s.active[c].table)
    ensures forall r :: r in Refs(es) ==> r in Held(s.active)
  {
    RefsMembers(es);
    SumContains(CtxBag, s.active, s.active[c]);
    forall r | r in Refs(es) ensures r in Held(s.active) {
      var e :| e in es && e.sync == r;
      assert r in multiset(TableSet(s.active[c].table));
      assert r in CtxBag(s.active[c]);
    }
  }

  /** Taking references for `es` puts them in hand. */
  lemma TakeInv(s: State, c: nat, es: seq<Entry>)
    requires Inv(s) && c < |s.active|
    requires forall e :: e in es ==> e.sync in TableSet(s.active[c].table)
    ensures InvWith(s.(pool := AddRefs(s.pool, Refs(es))), multiset(Refs(es)))
    ensures SameSyncs(s.pool, AddRefs(s.pool, Refs(es)))
  {
    ResolvedHeld(s, c, es);
    assert Held(s.active) + multiset{} == Held(s.active);
    CountedAddRefs(s.pool, Held(s.active), Refs(es));
    SwapPool(s, AddRefs(s.pool, Refs(es)), multiset{}, multiset(Refs(es)));
  }

  lemma ReleaseInv(s: State, refs: seq<Ref>)
    requires InvWith(s, multiset(refs))
    ensures Inv(s.(pool := UnrefAll(s.pool, refs)))
  {
    assert Held(s.active) + multiset{} == Held(s.active);
    CountedUnrefAll(s.pool, Held(s.active), refs);
    SwapPool(s, UnrefAll(s.pool, refs), multiset(refs), multiset{});
  }

  /** Outputs after a routine that concerns only the newest eventfd. */
  lemma NewEventOutputs(log: seq<Event>, tail: seq<Event>, fds: multiset<EventFd>, fds': multiset<EventFd>, n: nat)
    requires Outputs(log, fds, n)
    requires forall g: EventFd :: g != n ==>
      && FateOf(log + tail, g) == FateOf(log, g)
      && multiset(tail)[Ready(g)] == 0 && multiset(tail)[Closed(g)] == 0
    requires var f := FateOf(log + tail, n);
      && fds' == fds + (if f.Waiting? then multiset{n} else multiset{})
      && multiset(tail)[Ready(n)] == (if f.Woken? then 1 else 0)
      && multiset(tail)[Closed(n)] == (if f.Waiting? then 0 else 1)
    ensures Outputs(log + tail, fds', n + 1)
  {
    assert multiset(log + tail) == multiset(log) + multiset(tail);
  }

  /** Links survive events that leave the fates of listed waits alone. */
  lemma LinksKept(log: seq<Event>, tail: seq<Event>, cs: seq<Context>)
    requires LinksOk(log, cs)
    requires forall g: EventFd :: FateOf(log, g).Waiting? ==> FateOf(log + tail, g) == FateOf(log, g)
    ensures LinksOk(log + tail, cs)
  {
    forall c, w | c in cs && w in c.waits ensures Linked(w, c.id, FateOf(log + tail, w.fd)) {
      assert Linked(w, c.id, FateOf(log, w.fd));
    }
  }

  /** The events of a request for eventfd `n`: the request, if it was answered, and the outputs. */
  lemma RequestFates(log: seq<Event>, asked: seq<Event>, out: seq<Event>, n: EventFd)
    requires |asked| <= 1 && (asked != [] ==> asked[0].Asked? && asked[0].fd == n)
    requires forall e :: e in out ==> e.Ready? || e.Closed?
    ensures forall g: EventFd ::
      FateOf(log + (asked + out), g) ==
      (if g == n && asked != [] then FateStep(FateOf(log, g), asked[0], n) else FateOf(log, g))
  {
    forall g: EventFd
      ensures FateOf(log + (asked + out), g) ==
        if g == n && asked != [] then FateStep(FateOf(log, g), asked[0], n) else FateOf(log, g)
    {
      assert log + (asked + out) == (log + asked) + out;
      FateOutputs(log + asked, out, g);
      if asked == [] {
        assert log + asked == log;
      } else {
        assert asked == [asked[0]];
        FateAppend(log, asked[0], g);
      }
    }
  }

  /** A request that ends at once: its eventfd is closed and nothing is listed. */
  lemma AnsweredInv(s: State, asked: seq<Event>, out: seq<Event>)
    requires Inv(s)
    requires |asked| <= 1 && (asked != [] ==> asked[0].Asked? && asked[0].fd == s.nextEvent)
    requires var f := if asked == [] then Unknown else FateStep(Unknown, asked[0], s.nextEvent);
      !f.Waiting? && out == if f.Woken? then [Ready(s.nextEvent), Closed(s.nextEvent)] else [Closed(s.nextEvent)]
    ensures Inv(s.(nextEvent := s.nextEvent + 1, log := s.log + (asked + out)))
  {
    hide Counted, ContextsOk, WaitsOk, LinksOk, Outputs, FateOf;
    AnsweredFates(s.log, asked, out, Fds(s.active), s.nextEvent);
    LinksKept(s.log, asked + out, s.active);
    AnsweredOutputs(s.log, asked, out, Fds(s.active), s.nextEvent);
    SameContexts(s, s.(nextEvent := s.nextEvent + 1, log := s.log + (asked + out)));
  }

  lemma SameContexts(s: State, t: State)
    requires t.pool == s.pool && t.active == s.active && t.freeContexts == s.freeContexts
      && t.nextContextId == s.nextContextId
    ensures ContextsOk(t) == ContextsOk(s)
  {
  }

  /** A request that is answered at once touches the fate of no wait that is listed. */
  lemma AnsweredFates(log: seq<Event>, asked: seq<Event>, out: seq<Event>, fds: multiset<EventFd>, n: nat)
    requires Outputs(log, fds, n)
    requires |asked| <= 1 && (asked != [] ==> asked[0].Asked? && asked[0].fd == n)
    requires forall e :: e in out ==> e.Ready? || e.Closed?
    ensures forall g: EventFd :: FateOf(log, g).Waiting? ==> FateOf(log + (asked + out), g) == FateOf(log, g)
  {
    hide FateOf, FateStep;
    RequestFates(log, asked, out, n);
  }

  lemma AnsweredOutputs(log: seq<Event>, asked: seq<Event>, out: seq<Event>, fds: multiset<EventFd>, n: nat)
    requires Outputs(log, fds, n)
    requires |asked| <= 1 && (asked != [] ==> asked[0].Asked? && asked[0].fd == n)
    requires var f := if asked == [] then Unknown else FateStep(Unknown, asked[0], n);
      !f.Waiting? && out == if f.Woken? then [Ready(n), Closed(n)] else [Closed(n)]
    ensures Outputs(log + (asked + out), fds, n + 1)
  {
    RequestFates(log, asked, out, n);
    assert fds == fds + multiset{};
    forall g: EventFd
      ensures multiset(asked + out)[Ready(g)] == multiset(out)[Ready(g)]
      ensures multiset(asked + out)[Closed(g)] == multiset(out)[Closed(g)]
    {
      assert multiset(asked + out) == multiset(asked) + multiset(out);
    }
    NewEventOutputs(log, asked + out, fds, fds, n);
  }

  /** A request that is listed. */
  lemma ListedInv(s: State, c: nat, asked: Event, w: Wait)
    requires InvWith(s, WaitBag(w)) && c < |s.active|
    requires asked.Asked? && asked.fd == s.nextEvent == w.fd
    requires Linked(w, s.active[c].id, FateStep(Unknown, asked, w.fd)) && WaitValid(s.pool, w)
    ensures var ctx := s.active[c];
      Inv(s.(nextEvent := s.nextEvent + 1, log := s.log + ([asked] + []),
             active := s.active[c := ctx.(waits := ctx.waits + [w])]))
  {
    hide Counted, ContextsOk, WaitsOk, LinksOk, Outputs, Sum, WaitValid, FateOf;
    AddWaitSums(s.active, c, w);
    ListedOutputs(s.log, asked, Fds(s.active), s.nextEvent);
    AddWaitContexts(s, c, w, s.nextEvent + 1, s.log + ([asked] + []));
    ListedLinks(s, c, asked, w);
    assert Held(s.active) + WaitBag(w) + multiset{} == Held(s.active) + WaitBag(w);
  }

  lemma AddWaitContexts(s: State, c: nat, w: Wait, nextEvent: nat, log: seq<Event>)
    requires ContextsOk(s) && c < |s.active|
    ensures ContextsOk(s.(nextEvent := nextEvent, log := log,
                          active := s.active[c := s.active[c].(waits := s.active[c].waits + [w])]))
  {
    assert s.active[c] in s.active;
    SwapContextsOk(s, c, s.active[c].(waits := s.active[c].waits + [w]));
  }

  lemma ListedLinks(s: State, c: nat, asked: Event, w: Wait)
    requires WaitsOk(s.pool, s.active) && LinksOk(s.log, s.active) && c < |s.active|
    requires Outputs(s.log, Fds(s.active), s.nextEvent) && asked.Asked? && asked.fd == w.fd == s.nextEvent
    requires Linked(w, s.active[c].id, FateStep(Unknown, asked, w.fd)) && WaitValid(s.pool, w)
    ensures var active := s.active[c := s.active[c].(waits := s.active[c].waits + [w])];
      WaitsOk(s.pool, active) && LinksOk(s.log + ([asked] + []), active)
  {
    RequestFates(s.log, [asked], [], w.fd);
    LinksKept(s.log, [asked] + [], s.active);
    AddWaitMembers(s.pool, s.log + ([asked] + []), s.active, c, w);
  }

  lemma ListedOutputs(log: seq<Event>, asked: Event, fds: multiset<EventFd>, n: nat)
    requires Outputs(log, fds, n) && asked.Asked? && asked.fd == n && FateStep(Unknown, asked, n).Waiting?
    ensures Outputs(log + ([asked] + []), fds + multiset{n}, n + 1)
  {
    RequestFates(log, [asked], [], n);
    assert multiset([asked] + []) == multiset{asked};
    NewEventOutputs(log, [asked] + [], fds, fds + multiset{n}, n);
  }

  lemma AddWaitSums(cs: seq<Context>, c: nat, w: Wait)
    requires c < |cs|
    ensures var cs' := cs[c := cs[c].(waits := cs[c].waits + [w])];
      Held(cs') == Held(cs) + WaitBag(w) && Fds(cs') == Fds(cs) + multiset{w.fd}
  {
    var ctx := cs[c].(waits := cs[c].waits + [w]);
    SumAppend(WaitBag, cs[c].waits, w);
    SumAppend(WaitFd, cs[c].waits, w);
    assert CtxBag(ctx) == CtxBag(cs[c]) + WaitBag(w);
    SumUpdate(CtxBag, cs, c, ctx);
    Cancel(Held(cs[c := ctx]), Held(cs), CtxBag(cs[c]), WaitBag(w));
    SumUpdate(CtxFds, cs, c, ctx);
    Cancel(Fds(cs[c := ctx]), Fds(cs), CtxFds(cs[c]), multiset{w.fd});
  }

  lemma AddWaitMembers(p: Pool, log: seq<Event>, cs: seq<Context>, c: nat, w: Wait)
    requires c < |cs| && WaitsOk(p, cs) && LinksOk(log, cs)
    requires WaitValid(p, w) && Linked(w, cs[c].id, FateOf(log, w.fd))
    ensures var cs' := cs[c := cs[c].(waits := cs[c].waits + [w])];
      WaitsOk(p, cs') && LinksOk(log, cs')
  {
    assert cs[c] in cs;
    var ctx := cs[c].(waits := cs[c].waits + [w]);
    forall d, v | d in cs[c := ctx] && v in d.waits
      ensures WaitValid(p, v) && Linked(v, d.id, FateOf(log, v.fd))
    {
      if d == ctx {
        assert v == w || v in cs[c].waits;
      } else {
        assert d in cs;
      }
    }
  }

  lemma WaitSyncInv(s: State, c: nat, any: bool, timeout: nat, reqs: seq<Request>, mem: bool, eventOk: bool,
                    sent: bool, now: nat)
    requires Inv(s) && c < |s.active|
    ensures Inv(WaitSync(s, c, any, timeout, reqs, mem, eventOk, sent, now).0)
  {
    hide InvWith, TableSet, FateOf, Mirrors, WaitValid, Resolve, Unmet, AddRefs, Refs, FreshSlots, Release, Current,
      WaitBag;
    if mem && eventOk {
      var ctx, fd := s.active[c], s.nextEvent;
      var entries := Resolve(ctx.table, reqs);
      var current := Current(s.pool, entries);
      var unmet := Unmet(entries, current);
      var w := Wait(fd, any, Deadline(now, timeout), FreshSlots(unmet), 0);
      var p := AddRefs(s.pool, Refs(unmet));
      ResolveMembers(ctx.table, reqs);
      WaitTaken(s, c, w, entries, unmet);
      var asked := Asked(fd, ctx.id, any, w.validBefore, sent && timeout != 0, entries, current);
      var ready := unmet == [] || (any && |unmet| < |reqs|);
      if |entries| < |reqs| {
        RefusedInv(s.(pool := Release(p, w)));
      } else if !sent || ready || timeout == 0 {
        AnsweredWaitInv(s.(pool := Release(p, w)), asked, ready);
      } else {
        FreshValid(s, c, w, entries, unmet);
        ListedInv(s.(pool := p), c, asked, w);
        assert s.log + ([asked] + []) == s.log + [asked] + [];
      }
    }
  }

  lemma RefusedInv(s: State)
    requires Inv(s)
    ensures Inv(s.(nextEvent := s.nextEvent + 1, log := s.log + [Closed(s.nextEvent)]))
  {
    AnsweredInv(s, [], [Closed(s.nextEvent)]);
    assert [] + [Closed(s.nextEvent)] == [Closed(s.nextEvent)];
  }

  lemma AnsweredWaitInv(s: State, asked: Event, ready: bool)
    requires Inv(s) && asked.Asked? && asked.fd == s.nextEvent
    requires FateStep(Unknown, asked, s.nextEvent) == if ready then Woken else Dropped
    ensures Inv(s.(nextEvent := s.nextEvent + 1,
                   log := s.log + [asked] + (if ready then [Ready(s.nextEvent)] else []) + [Closed(s.nextEvent)]))
  {
    hide InvWith;
    var fd := s.nextEvent;
    var out := if ready then [Ready(fd), Closed(fd)] else [Closed(fd)];
    AnsweredInv(s, [asked], out);
    assert s.log + ([asked] + out) == s.log + [asked] + (if ready then [Ready(fd)] else []) + [Closed(fd)];
  }

  /** The references taken for a wait are those of its slots, and releasing the wait returns them. */
  lemma WaitTaken(s: State, c: nat, w: Wait, entries: seq<Entry>, unmet: seq<Entry>)
    requires Inv(s) && c < |s.active|
    requires forall e :: e in entries ==> e.sync in TableSet(s.active[c].table)
    requires unmet == Unmet(entries, Current(s.pool, entries)) && w.slots == FreshSlots(unmet)
    ensures InvWith(s.(pool := AddRefs(s.pool, Refs(unmet))), WaitBag(w))
    ensures Inv(s.(pool := Release(AddRefs(s.pool, Refs(unmet)), w)))
  {
    UnmetMembers(entries, Current(s.pool, entries));
    FreshSlotsFacts(unmet);
    TakeInv(s, c, unmet);
    ReleaseInv(s.(pool := AddRefs(s.pool, Refs(unmet))), Refs(unmet));
  }

  /** What is still unmet is known and above its sync's value. */
  lemma UnmetAbove(s: State, c: nat, entries: seq<Entry>, e: Entry)
    requires Inv(s) && c < |s.active|
    requires forall e :: e in entries ==> e.sync in TableSet(s.active[c].table)
    requires e in Unmet(entries, Current(s.pool, entries))
    ensures e.sync in s.pool.syncs && e.value > s.pool.syncs[e.sync].value
  {
    hide Counted, ContextsOk, WaitsOk, LinksOk, Outputs, Sum, TableSet;
    var current := Current(s.pool, entries);
    UnmetMembers(entries, current);
    var k :| 0 <= k < |entries| && entries[k] == e && current[k] < e.value;
    assert entries[k] in entries;
    ResolvedHeld(s, c, [e]);
    assert e.sync in Refs([e]);
    assert e.sync in Held(s.active) + multiset{};
    KnownHeld(s, e.sync);
  }

  lemma KnownHeld(s: State, r: Ref)
    requires Inv(s) && r in Held(s.active)
    ensures r in s.pool.syncs
  {
    assert r in Held(s.active) + multiset{};
  }

  lemma FreshValid(s: State, c: nat, w: Wait, entries: seq<Entry>, unmet: seq<Entry>)
    requires Inv(s) && c < |s.active|
    requires forall e :: e in entries ==> e.sync in TableSet(s.active[c].table)
    requires unmet == Unmet(entries, Current(s.pool, entries)) && unmet != []
    requires w.slots == FreshSlots(unmet) && w.signaledCount == 0
    ensures Mirrors(w.slots, unmet, [])
    ensures WaitValid(AddRefs(s.pool, Refs(unmet)), w)
  {
    hide InvWith, TableSet, Unmet, Current;
    FreshSlotsFacts(unmet);
    UnmetMembers(entries, Current(s.pool, entries));
    ResolvedHeld(s, c, unmet);
    TakeInv(s, c, unmet);
    forall i | 0 <= i < |unmet|
      ensures unmet[i].sync in s.pool.syncs && unmet[i].value > s.pool.syncs[unmet[i].sync].value
    {
      UnmetAbove(s, c, entries, unmet[i]);
    }
  }
}
