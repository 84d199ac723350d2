/** Submits, and contexts coming and going. */
module VtestContexts {
  import opened Bags
  import opened SyncPool
  import opened SyncWaits
  import opened VtestMachine
  import opened VtestInvariant
  import opened VtestSteps

  // --- submits -------------------------------------------------------------------------------

  lemma QueueInv(s: State, c: nat, ring: nat, u: Submit)
    requires InvWith(s, multiset(Refs(u.entries))) && c < |s.active| && ring < MAX_TIMELINE_COUNT
    ensures |s.active[c].timelines| == MAX_TIMELINE_COUNT
    ensures var ctx := s.active[c];
      Inv(s.(active := s.active[c := SetTimeline(ctx, ring, ctx.timelines[ring] + [u])]))
  {
    var ctx := s.active[c];
    assert ctx in s.active;
    var ctx' := SetTimeline(ctx, ring, ctx.timelines[ring] + [u]);
    QueueSums(ctx, ring, u);
    assert TableOk(s.pool, ctx');
    SwapContext(s, c, ctx', SubmitBag(u), multiset{});
  }

  lemma QueueSums(ctx: Context, ring: nat, u: Submit)
    requires ring < |ctx.timelines|
    ensures CtxBag(SetTimeline(ctx, ring, ctx.timelines[ring] + [u])) + multiset{} == CtxBag(ctx) + SubmitBag(u)
  {
    var q := ctx.timelines[ring];
    SumAppend(SubmitBag, q, u);
    SumUpdate(QueueBag, ctx.timelines, ring, q + [u]);
    Cancel(Sum(QueueBag, ctx.timelines[ring := q + [u]]), Sum(QueueBag, ctx.timelines), QueueBag(q), SubmitBag(u));
  }

  lemma SubmitBatchInv(s: State, c: nat, cmdOk: bool, ring: Option<nat>, reqs: seq<Request>, mem: bool,
                       fenceOk: bool, now: nat)
    requires Inv(s) && c < |s.active|
    requires ring.Some? ==> ring.value < MAX_TIMELINE_COUNT
    ensures |s.active[c].timelines| == MAX_TIMELINE_COUNT
    ensures Inv(SubmitBatch(s, c, cmdOk, ring, reqs, mem, fenceOk, now).0)
  {
    hide InvWith, Refs, AddRefs, UnrefAll, Resolve, SignalRequests;
    TimelineCount(s, c);
    if cmdOk && reqs != [] {
      if ring.None? {
        SignalRequestsInv(s, c, reqs, now);
      } else if mem {
        QueueBatchInv(s, c, ring.value, reqs);
      }
    }
  }

  lemma TimelineCount(s: State, c: nat)
    requires Inv(s) && c < |s.active|
    ensures |s.active[c].timelines| == MAX_TIMELINE_COUNT
  {
    assert s.active[c] in s.active;
  }

  lemma QueueBatchInv(s: State, c: nat, ring: nat, reqs: seq<Request>)
    requires Inv(s) && c < |s.active| && ring < MAX_TIMELINE_COUNT
    ensures |s.active[c].timelines| == MAX_TIMELINE_COUNT
    ensures var ctx, entries := s.active[c], Resolve(s.active[c].table, reqs);
      var p, u := AddRefs(s.pool, Refs(entries)), Submit(s.nextSubmit, entries);
      && |entries| <= |reqs|
      && Inv(s.(pool := UnrefAll(p, Refs(entries))))
      && Inv(s.(pool := p, nextSubmit := s.nextSubmit + 1,
                active := s.active[c := SetTimeline(ctx, ring, ctx.timelines[ring] + [u])]))
  {
    var ctx := s.active[c];
    hide InvWith, TableSet, Refs, AddRefs, UnrefAll;
    var entries := Resolve(ctx.table, reqs);
    var t, u := s.(pool := AddRefs(s.pool, Refs(entries))), Submit(s.nextSubmit, entries);
    ResolveMembers(ctx.table, reqs);
    TakeInv(s, c, entries);
    ReleaseInv(t, Refs(entries));
    QueueInv(t, c, ring, u);
    NextSubmitInv(t.(active := t.active[c := SetTimeline(ctx, ring, ctx.timelines[ring] + [u])]), s.nextSubmit + 1);
  }

  lemma NextSubmitInv(s: State, n: nat)
    requires Inv(s)
    ensures Inv(s.(nextSubmit := n))
  {
    hide Counted, WaitsOk, LinksOk, Outputs, Sum;
  }

  // --- creating contexts ---------------------------------------------------------------------

  lemma EmptyBag(c: Context)
    requires Clean(c)
    ensures CtxBag(c) == multiset{} && CtxFds(c) == multiset{} && |c.timelines| == MAX_TIMELINE_COUNT
  {
    SumEmpty(QueueBag, c.timelines);
    assert TableSet(c.table) == {};
  }

  /** A recycled context is as good as a new one. */
  lemma CreateContextInv(s: State, lengthOk: bool, mem: bool, ok: bool)
    requires Inv(s)
    ensures Inv(CreateContext(s, lengthOk, mem, ok).0)
  {
    if lengthOk && (s.freeContexts != [] || mem) {
      var isNew := s.freeContexts == [];
      var ctx := if isNew then Context(s.nextContextId, map[], EmptyTimelines(), []) else s.freeContexts[0];
      var rest := if isNew then [] else s.freeContexts[1..];
      var t := s.(freeContexts := rest, nextContextId := if isNew then s.nextContextId + 1 else s.nextContextId);
      TakenContext(s, t, ctx);
      if ok {
        ActivateInv(s, t, ctx);
      } else {
        ShelveInv(s, t, ctx);
      }
    }
  }

  lemma TakenContext(s: State, t: State, ctx: Context)
    requires ContextsOk(s)
    requires if s.freeContexts == []
             then Clean(ctx) && ctx.id == s.nextContextId && t == s.(nextContextId := s.nextContextId + 1)
             else ctx == s.freeContexts[0] && t == s.(freeContexts := s.freeContexts[1..])
    ensures Clean(ctx)
    ensures ContextsOk(t.(active := t.active + [ctx]))
    ensures ContextsOk(t.(freeContexts := [ctx] + t.freeContexts))
  {
    TakenIds(s, t, ctx);
    EmptyBag(ctx);
    forall d | d in t.active + [ctx] ensures |d.timelines| == MAX_TIMELINE_COUNT && TableOk(t.pool, d) {
      assert d == ctx || d in s.active;
    }
    forall d | d in [ctx] + t.freeContexts ensures Clean(d) {
      assert d == ctx || d in s.freeContexts;
    }
    assert forall d :: d in t.freeContexts ==> d in [ctx] + t.freeContexts;
  }

  lemma FirstId(ctx: Context, cs: seq<Context>)
    ensures Sum(CtxId, [ctx] + cs) == multiset{ctx.id} + Sum(CtxId, cs)
  {
    assert ([ctx] + cs)[1..] == cs;
  }

  lemma TakenIds(s: State, t: State, ctx: Context)
    requires ContextsOk(s)
    requires if s.freeContexts == []
             then Clean(ctx) && ctx.id == s.nextContextId && t == s.(nextContextId := s.nextContextId + 1)
             else ctx == s.freeContexts[0] && t == s.(freeContexts := s.freeContexts[1..])
    ensures Clean(ctx)
    ensures var ids := Sum(CtxId, t.active) + Sum(CtxId, [ctx] + t.freeContexts);
      && Sum(CtxId, t.active + [ctx]) + Sum(CtxId, t.freeContexts) == ids
      && (forall k :: ids[k] <= 1)
      && (forall k :: k in ids ==> 1 <= k < t.nextContextId)
  {
    hide Sum, TableOk, Clean;
    SumAppend(CtxId, s.active, ctx);
    FirstId(ctx, t.freeContexts);
    var before := Sum(CtxId, s.active) + Sum(CtxId, s.freeContexts);
    if s.freeContexts != [] {
      assert [ctx] + t.freeContexts == s.freeContexts;
      assert ctx in s.freeContexts;
    } else {
      assert ctx.id !in before;
      assert Sum(CtxId, t.active) + Sum(CtxId, [ctx] + t.freeContexts) == before + multiset{ctx.id};
    }
  }

  /** A context without waits adds nothing to check. */
  lemma NoNewWaits(s: State, ctx: Context)
    requires WaitsOk(s.pool, s.active) && LinksOk(s.log, s.active) && ctx.waits == []
    ensures WaitsOk(s.pool, s.active + [ctx]) && LinksOk(s.log, s.active + [ctx])
  {
    hide WaitValid, Linked, FateOf;
    forall d, w | d in s.active + [ctx] && w in d.waits
      ensures WaitValid(s.pool, w) && Linked(w, d.id, FateOf(s.log, w.fd))
    {
      assert d in s.active;
    }
  }

  lemma ActivateInv(s: State, t: State, ctx: Context)
    requires Inv(s) && t.pool == s.pool && t.active == s.active && t.log == s.log && t.nextEvent == s.nextEvent
    requires Clean(ctx) && ContextsOk(t.(active := t.active + [ctx]))
    ensures Inv(t.(active := t.active + [ctx]))
  {
    hide Counted, ContextsOk, Outputs, WaitsOk, LinksOk, Sum;
    EmptyBag(ctx);
    SumAppend(CtxBag, s.active, ctx);
    SumAppend(CtxFds, s.active, ctx);
    NoNewWaits(s, ctx);
    assert Held(s.active + [ctx]) == Held(s.active);
    assert Fds(s.active + [ctx]) == Fds(s.active);
  }

  lemma ShelveInv(s: State, t: State, ctx: Context)
    requires Inv(s) && t.pool == s.pool && t.active == s.active && t.log == s.log && t.nextEvent == s.nextEvent
    requires ContextsOk(t.(freeContexts := [ctx] + t.freeContexts))
    ensures Inv(t.(freeContexts := [ctx] + t.freeContexts))
  {
    hide Counted, ContextsOk, WaitsOk, LinksOk, Outputs;
  }

  // --- destroying contexts ---------------------------------------------------------------------

  lemma {:induction false} QueueRefsBag(q: seq<Submit>)
    ensures multiset(QueueRefs(q)) == QueueBag(q)
  {
    if q != [] {
      QueueRefsBag(q[1..]);
    }
  }

  lemma {:induction false} TimelineRefsBag(ts: seq<seq<Submit>>)
    ensures multiset(TimelineRefs(ts)) == Sum(QueueBag, ts)
  {
    if ts != [] {
      QueueRefsBag(ts[0]);
      TimelineRefsBag(ts[1..]);
    }
  }

  lemma {:induction false} WaitRefsBag(ws: seq<Wait>)
    ensures multiset(WaitRefs(ws)) == Sum(WaitBag, ws)
  {
    if ws != [] {
      WaitRefsBag(ws[1..]);
    }
  }

  lemma {:induction false} ClosingsTally(ws: seq<Wait>, fd: EventFd)
    ensures multiset(Closings(ws))[Closed(fd)] == Sum(WaitFd, ws)[fd]
    ensures multiset(Closings(ws))[Ready(fd)] == 0
    ensures forall e :: e in Closings(ws) ==> e.Closed?
  {
    if ws != [] {
      ClosingsTally(ws[1..], fd);
    }
  }

  lemma TwoContexts(cs: seq<Context>, c: Context, d: Context)
    requires c in cs && d in cs && c != d && c.id == d.id
    ensures Sum(CtxId, cs)[c.id] >= 2
  {
    var i :| 0 <= i < |cs| && cs[i] == c;
    SumRemove(CtxId, cs, i);
    var rest := cs[..i] + cs[i + 1..];
    var j :| 0 <= j < |cs| && cs[j] == d;
    assert rest[if j < i then j else j - 1] == d;
    SumContains(CtxId, rest, d);
  }

  /** Active contexts have distinct ids. */
  lemma SameIdSameContext(cs: seq<Context>, c: Context, d: Context)
    requires c in cs && d in cs && c.id == d.id
    requires forall k :: Sum(CtxId, cs)[k] <= 1
    ensures c == d
  {
    if c != d {
      TwoContexts(cs, c, d);
      assert false;
    }
  }

  /** The waits a dying context lists are exactly those whose fate names it. */
  lemma DyingWaits(s: State, ctx: Context, fd: EventFd)
    requires Inv(s) && ctx in s.active
    ensures var f := FateOf(s.log, fd);
      CtxFds(ctx)[fd] == if f.Waiting? && f.ctx == ctx.id then 1 else 0
  {
    var f := FateOf(s.log, fd);
    SumContains(CtxFds, s.active, ctx);
    if fd in CtxFds(ctx) {
      SumSource(WaitFd, ctx.waits, fd);
      var w :| w in ctx.waits && fd in WaitFd(w);
      assert Linked(w, ctx.id, FateOf(s.log, w.fd));
    } else if f.Waiting? && f.ctx == ctx.id {
      var d, w := ListedWait(s.active, fd);
      assert Linked(w, d.id, FateOf(s.log, w.fd));
      assert forall k :: Sum(CtxId, s.active)[k] <= (Sum(CtxId, s.active) + Sum(CtxId, s.freeContexts))[k];
      SameIdSameContext(s.active, ctx, d);
      SumContains(WaitFd, ctx.waits, w);
      assert false;
    }
  }

  lemma DestroyFates(s: State, ctx: Context, fd: EventFd)
    ensures FateOf(s.log + [Destroyed(ctx.id)] + Closings(ctx.waits), fd)
      == FateStep(FateOf(s.log, fd), Destroyed(ctx.id), fd)
  {
    ClosingsTally(ctx.waits, fd);
    FateOutputs(s.log + [Destroyed(ctx.id)], Closings(ctx.waits), fd);
    FateAppend(s.log, Destroyed(ctx.id), fd);
  }

  lemma DestroyOutputs(s: State, c: nat)
    requires Inv(s) && c < |s.active|
    ensures var ctx := s.active[c];
      Outputs(s.log + [Destroyed(ctx.id)] + Closings(ctx.waits), Fds(s.active[..c] + s.active[c + 1..]), s.nextEvent)
  {
    hide Sum, FateStep, FateOf, Outputs, Closings, Counted, ContextsOk, WaitsOk, LinksOk;
    var ctx := s.active[c];
    var tail, fds := [Destroyed(ctx.id)] + Closings(ctx.waits), Fds(s.active[..c] + s.active[c + 1..]);
    SumRemove(CtxFds, s.active, c);
    assert s.log + [Destroyed(ctx.id)] + Closings(ctx.waits) == s.log + tail;
    forall fd: EventFd
      ensures FateOf(s.log + tail, fd) == FateStep(FateOf(s.log, fd), Destroyed(ctx.id), fd)
      ensures fds[fd] + CtxFds(ctx)[fd] == Fds(s.active)[fd]
      ensures multiset(tail)[Ready(fd)] == 0 && multiset(tail)[Closed(fd)] == CtxFds(ctx)[fd]
      ensures CtxFds(ctx)[fd] == if FateOf(s.log, fd).Waiting? && FateOf(s.log, fd).ctx == ctx.id then 1 else 0
    {
      DestroyFates(s, ctx, fd);
      DyingWaits(s, ctx, fd);
      ClosingsTally(ctx.waits, fd);
      assert multiset(tail) == multiset{Destroyed(ctx.id)} + multiset(Closings(ctx.waits));
    }
    TailOutputs(s.log, tail, Fds(s.active), fds, CtxFds(ctx), ctx.id, s.nextEvent);
  }

  lemma TailOutputs(log: seq<Event>, tail: seq<Event>, before: multiset<EventFd>, after: multiset<EventFd>,
                    gone: multiset<EventFd>, id: int, nextEvent: nat)
    requires Outputs(log, before, nextEvent)
    requires forall fd: EventFd ::
      && FateOf(log + tail, fd) == FateStep(FateOf(log, fd), Destroyed(id), fd)
      && after[fd] + gone[fd] == before[fd]
      && multiset(tail)[Ready(fd)] == 0 && multiset(tail)[Closed(fd)] == gone[fd]
      && gone[fd] == if FateOf(log, fd).Waiting? && FateOf(log, fd).ctx == id then 1 else 0
    ensures Outputs(log + tail, after, nextEvent)
  {
    assert multiset(log + tail) == multiset(log) + multiset(tail);
  }

  lemma DestroyLinks(s: State, c: nat)
    requires Inv(s) && c < |s.active|
    ensures var ctx, rest := s.active[c], s.active[..c] + s.active[c + 1..];
      WaitsOk(s.pool, rest) && LinksOk(s.log + [Destroyed(ctx.id)] + Closings(ctx.waits), rest)
  {
    hide Counted, Outputs, Sum, FateOf, Closings, WaitValid, Mirrors;
    var ctx, rest := s.active[c], s.active[..c] + s.active[c + 1..];
    forall d, w | d in rest && w in d.waits
      ensures WaitValid(s.pool, w)
      ensures Linked(w, d.id, FateOf(s.log + [Destroyed(ctx.id)] + Closings(ctx.waits), w.fd))
    {
      assert d in s.active;
      assert Linked(w, d.id, FateOf(s.log, w.fd));
      DestroyFates(s, ctx, w.fd);
      OtherId(s, c, d);
    }
  }

  lemma OtherId(s: State, c: nat, d: Context)
    requires ContextsOk(s) && c < |s.active| && d in s.active[..c] + s.active[c + 1..]
    ensures d.id != s.active[c].id
  {
    var rest, id := s.active[..c] + s.active[c + 1..], s.active[c].id;
    SumRemove(CtxId, s.active, c);
    SumContains(CtxId, rest, d);
    assert (Sum(CtxId, s.active) + Sum(CtxId, s.freeContexts))[id] <= 1;
    assert Sum(CtxId, s.active)[id] == Sum(CtxId, rest)[id] + 1;
  }

  /** The context's id moves from the active to the free ones. */
  lemma MovedIds(s: State, c: nat, t: State)
    requires c < |s.active| && t.active == s.active[..c] + s.active[c + 1..]
    requires t.freeContexts == [Context(s.active[c].id, map[], EmptyTimelines(), [])] + s.freeContexts
    ensures Sum(CtxId, t.active) + Sum(CtxId, t.freeContexts) == Sum(CtxId, s.active) + Sum(CtxId, s.freeContexts)
  {
    SumRemove(CtxId, s.active, c);
    assert t.freeContexts[1..] == s.freeContexts;
    assert Sum(CtxId, t.freeContexts) == CtxId(s.active[c]) + Sum(CtxId, s.freeContexts);
  }

  lemma RemainingTables(s: State, c: nat, p: Pool, d: Context)
    requires ContextsOk(s) && c < |s.active| && SameIds(s.pool, p) && d in s.active[..c] + s.active[c + 1..]
    ensures |d.timelines| == MAX_TIMELINE_COUNT && TableOk(p, d)
  {
    hide Sum;
    assert d in s.active;
    assert TableOk(s.pool, d);
  }

  lemma FreedClean(s: State, ctx: Context)
    requires ContextsOk(s)
    ensures forall d :: d in [Context(ctx.id, map[], EmptyTimelines(), [])] + s.freeContexts ==> Clean(d)
  {
    hide Sum, Clean;
    CleanEmpty(ctx.id);
  }

  lemma CleanEmpty(id: int)
    ensures Clean(Context(id, map[], EmptyTimelines(), []))
  {
  }

  lemma DestroyContexts(s: State, c: nat, t: State)
    requires ContextsOk(s) && c < |s.active| && SameIds(s.pool, t.pool) && t.nextContextId == s.nextContextId
    requires t.active == s.active[..c] + s.active[c + 1..]
    requires t.freeContexts == [Context(s.active[c].id, map[], EmptyTimelines(), [])] + s.freeContexts
    ensures ContextsOk(t)
  {
    hide Sum, TableOk, Clean, SameIds, EmptyTimelines;
    MovedIds(s, c, t);
    FreedClean(s, s.active[c]);
    forall d | d in t.active ensures |d.timelines| == MAX_TIMELINE_COUNT && TableOk(t.pool, d) {
      RemainingTables(s, c, t.pool, d);
    }
  }

  /** The order in which a hash table is emptied may be any listing of its values. */
  predicate Listing(order: seq<Ref>, table: map<int, Ref>) {
    multiset(order) == multiset(TableSet(table))
  }

  lemma DestroyCounted(s: State, c: nat, order: seq<Ref>)
    requires Counted(s.pool, Held(s.active)) && c < |s.active| && Listing(order, s.active[c].table)
    ensures var t := DestroyContext(s, c, order);
      Counted(t.pool, Held(t.active)) && SameSyncs(s.pool, t.pool)
  {
    var ctx, rest := s.active[c], s.active[..c] + s.active[c + 1..];
    var refs := TimelineRefs(ctx.timelines) + WaitRefs(ctx.waits) + order;
    TimelineRefsBag(ctx.timelines);
    WaitRefsBag(ctx.waits);
    SumRemove(CtxBag, s.active, c);
    assert multiset(refs) == CtxBag(ctx);
    assert Held(rest) + multiset(refs) == Held(s.active);
    CountedUnrefAll(s.pool, Held(rest), refs);
  }

  lemma DestroyContextInv(s: State, c: nat, order: seq<Ref>)
    requires Inv(s) && c < |s.active| && Listing(order, s.active[c].table)
    ensures Inv(DestroyContext(s, c, order))
  {
    hide Counted, ContextsOk, WaitValid, LinksOk, Outputs, Sum, FateOf, UnrefAll;
    var t := DestroyContext(s, c, order);
    assert Held(s.active) + multiset{} == Held(s.active);
    assert Held(t.active) + multiset{} == Held(t.active);
    DestroyCounted(s, c, order);
    DestroyContexts(s, c, t);
    DestroyOutputs(s, c);
    DestroyLinks(s, c);
    SameWaits(s.pool, t.pool, t.active);
  }

  lemma SameWaits(p: Pool, q: Pool, cs: seq<Context>)
    requires WaitsOk(p, cs) && SameSyncs(p, q)
    ensures WaitsOk(q, cs)
  {
    forall c, w | c in cs && w in c.waits ensures WaitValid(q, w) {
      assert WaitValid(p, w);
    }
  }

  ghost predicate Listings(orders: seq<seq<Ref>>, cs: seq<Context>) {
    |orders| == |cs| && forall i :: 0 <= i < |cs| ==> Listing(orders[i], cs[i].table)
  }

  lemma {:induction false} DestroyAllInv(s: State, orders: seq<seq<Ref>>)
    requires Inv(s) && Listings(orders, s.active)
    ensures var t := DestroyAll(s, orders);
      Inv(t) && t.active == [] && t.nextEvent == s.nextEvent && t.nextSubmit == s.nextSubmit
    decreases |s.active|
  {
    hide InvWith, Listing;
    if s.active != [] {
      DestroyContextInv(s, 0, orders[0]);
      assert s.active[..0] + s.active[1..] == s.active[1..];
      DestroyAllInv(DestroyContext(s, 0, orders[0]), orders[1..]);
    }
  }

  lemma Inhabited(xs: seq<Ref>)
    requires xs != []
    ensures exists r :: r in xs
  {
    assert xs[0] in xs;
  }

  /** With no context left every count is zero, so the free list holds every sync and cleanup frees them all. */
  lemma NoContextNoSync(s: State)
    requires Inv(s) && s.active == []
    ensures forall r :: r in s.pool.syncs ==> s.pool.syncs[r].refcount == 0 && r in s.pool.free
    ensures FreeSyncs(s.pool) == EMPTY_POOL
    ensures s.pool.nextId == 1 ==> s.pool == EMPTY_POOL
  {
    assert Held(s.active) + multiset{} == multiset{};
    assert s.pool.syncs - (set r | r in s.pool.free) == map[];
    if s.pool.nextId == 1 {
      assert s.pool.syncs == map[];
      if s.pool.free != [] {
        Inhabited(s.pool.free);
        assert false;
      }
    }
  }

  /** Before the first context nothing exists. */
  lemma NoContextYet(s: State)
    requires ContextsOk(s) && s.nextContextId == 1
    ensures s.active == [] && s.freeContexts == []
  {
  }

  /** Cleanup returns to the initial state, whatever came before; only the history remains. */
  lemma CleanupTotal(s: State, orders: seq<seq<Ref>>)
    requires Inv(s) && Listings(orders, s.active)
    ensures var t := CleanupRenderer(s, orders);
      Inv(t) && t == INITIAL.(nextEvent := s.nextEvent, nextSubmit := s.nextSubmit, log := t.log)
  {
    var t := if s.nextContextId > 1 then DestroyAll(s, orders).(freeContexts := [], nextContextId := 1) else s;
    if s.nextContextId > 1 {
      DestroyAllInv(s, orders);
      var u := DestroyAll(s, orders);
      NoContextNoSync(u);
      ResetInv(u);
    } else {
      NoContextYet(s);
      NoContextNoSync(s);
      ResetInv(s);
    }
  }

  lemma ResetInv(s: State)
    requires Inv(s) && s.active == []
    ensures Inv(s.(pool := EMPTY_POOL, freeContexts := [], nextContextId := 1))
  {
    hide Outputs;
    assert Held(s.active) + multiset{} == multiset{};
  }
}
