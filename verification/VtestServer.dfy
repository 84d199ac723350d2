/**
 * The vtest server's main loop: client lists, the renderer's lifetime, and who owns which context, in the parent and
 * in every forked child.
 */
module VtestServer {
  import opened Bags

  type CtxId = nat

  datatype Client = Client(id: nat, context: Option<CtxId>)

  /** What happens to the renderer, in order. */
  datatype Event = Init | Created(ctx: CtxId) | Destroyed(ctx: CtxId) | CleanedUp

  datatype Server = Server(
    doFork: bool, loop: bool, multiClients: bool, socketOpen: bool, running: bool,
    waiting: seq<Client>, active: seq<Client>, inactive: seq<Client>,
    initialised: bool, live: seq<CtxId>, free: seq<CtxId>, nextContext: CtxId, log: seq<Event>)

  /** What a client's next command does; `Abandons` is a context creation that fails after taking a context. */
  datatype Dispatch = Idle | Succeeds | Fails | Abandons

  datatype Fork = Parent | Child | Failed

  /** What the environment decides during one turn of the loop, per client id. */
  datatype Env = Env(accepted: Option<nat>, dispatch: nat -> Dispatch, fork: nat -> Fork, initWorks: bool)

  // --- contexts ------------------------------------------------------------------------------

  function RemoveAt<T>(xs: seq<T>, i: nat): seq<T>
    requires i < |xs|
  {
    xs[..i] + xs[i + 1..]
  }

  function IndexOf(xs: seq<CtxId>, c: CtxId): (r: Option<nat>)
    ensures r.Some? ==> r.value < |xs| && xs[r.value] == c
    ensures r.None? ==> c !in xs
  {
    if xs == [] then None
    else if xs[0] == c then Some(0)
    else
      var rest := IndexOf(xs[1..], c);
      if rest.None? then None else Some(rest.value + 1)
  }

  /** Takes a context from the free list, or allocates the next id. */
  function TakeContext(s: Server): (Server, CtxId) {
    if s.free == [] then (s.(nextContext := s.nextContext + 1), s.nextContext)
    else (s.(free := s.free[1..]), s.free[0])
  }

  /** The parts that serving a client's command leaves alone. */
  predicate Kept(s: Server, t: Server) {
    t.waiting == s.waiting && t.doFork == s.doFork && t.running == s.running && t.loop == s.loop
      && t.initialised == s.initialised
  }

  function CreateContext(s: Server): (r: (Server, CtxId))
    ensures Kept(s, r.0) && r.0.active == s.active
  {
    var (t, c) := TakeContext(s);
    (t.(live := t.live + [c], log := t.log + [Created(c)]), c)
  }

  function AbandonContext(s: Server): (r: Server)
    ensures Kept(s, r) && r.active == s.active
  {
    var (t, c) := TakeContext(s);
    t.(free := [c] + t.free)
  }

  function DestroyContext(s: Server, c: CtxId): Server {
    var i := IndexOf(s.live, c);
    s.(live := if i.Some? then RemoveAt(s.live, i.value) else s.live, free := [c] + s.free,
       log := s.log + [Destroyed(c)])
  }

  // --- the phases of a turn ------------------------------------------------------------------

  /** A new client is accepted only when there is none, or when several are allowed. */
  function Wait(s: Server, accepted: Option<nat>): Server {
    if accepted.Some? && s.socketOpen && (s.active == [] || s.multiClients)
    then s.(waiting := s.waiting + [Client(accepted.value, None)]) else s
  }

  function Deactivate(s: Server, i: nat): (r: Server)
    requires i < |s.active|
    ensures Kept(s, r) && |r.active| == |s.active| - 1
  {
    s.(active := RemoveAt(s.active, i), inactive := s.inactive + [s.active[i]])
  }

  /** What becomes of the client at position `i`, and the position to go on with. */
  function DispatchOne(s: Server, i: nat, d: Dispatch): (r: (Server, nat))
    requires i < |s.active|
    ensures |r.0.active| - r.1 < |s.active| - i && Kept(s, r.0)
  {
    hide CreateContext, AbandonContext, Deactivate;
    var client := s.active[i];
    match d
    case Idle => (s, i + 1)
    case Succeeds =>
      if client.context.Some? then (s, i + 1)
      else
        var (t, c) := CreateContext(s);
        (t.(active := s.active[i := client.(context := Some(c))]), i + 1)
    case Fails => (Deactivate(s, i), i)
    case Abandons =>
      if client.context.None? then (Deactivate(AbandonContext(s), i), i) else (Deactivate(s, i), i)
  }

  /** The active clients from position `i` on; a client that fails moves to the inactive list. */
  function DispatchFrom(s: Server, i: nat, dispatch: nat -> Dispatch): Server
    decreases |s.active| - i
  {
    hide DispatchOne;
    if i >= |s.active| then s
    else
      var (t, j) := DispatchOne(s, i, dispatch(s.active[i].id));
      DispatchFrom(t, j, dispatch)
  }

  function BecomeChild(s: Server): Server
    requires s.waiting != []
  {
    s.(active := s.active + [s.waiting[0]], inactive := s.inactive + s.waiting[1..], waiting := [],
       doFork := false, loop := false, multiClients := false, socketOpen := false)
  }

  /** Each new client gets a process of its own; a child keeps its one client and drops the others. */
  function ForkClients(s: Server, fork: nat -> Fork): Server
    decreases |s.waiting|
  {
    if s.waiting == [] then s
    else
      var client := s.waiting[0];
      if fork(client.id).Child? then BecomeChild(s)
      else ForkClients(s.(waiting := s.waiting[1..], inactive := s.inactive + [client]), fork)
  }

  function ActivateClients(s: Server): Server {
    s.(active := s.active + s.waiting, waiting := [])
  }

  /** Starting the renderer clears its lists; when it fails every client is dropped and the loop ends. */
  function StartRenderer(s: Server, works: bool): Server {
    var t := s.(live := [], free := []);
    if works then t.(initialised := true, log := s.log + [Init])
    else t.(inactive := s.inactive + s.active, active := [], running := false)
  }

  function TidyClients(s: Server): Server
    decreases |s.inactive|
  {
    if s.inactive == [] then s
    else
      var client := s.inactive[0];
      var t := s.(inactive := s.inactive[1..]);
      TidyClients(if client.context.Some? then DestroyContext(t, client.context.value) else t)
  }

  function DestroyLive(s: Server): Server
    decreases |s.live|
  {
    if s.live == [] then s else DestroyLive(s.(live := s.live[1..], free := [s.live[0]] + s.free,
                                               log := s.log + [Destroyed(s.live[0])]))
  }

  function CleanupRenderer(s: Server): Server {
    var t := if s.nextContext > 1 then DestroyLive(s).(free := [], nextContext := 1) else s;
    t.(initialised := false, log := t.log + [CleanedUp])
  }

  /** The first part of a turn: waiting, dispatching, and placing the new clients. */
  function Serve(s: Server, env: Env): Server {
    var a := DispatchFrom(Wait(s, env.accepted), 0, env.dispatch);
    if a.doFork then ForkClients(a, env.fork) else ActivateClients(a)
  }

  function Turn(s: Server, env: Env): Server {
    var wasEmpty := s.active == [];
    var b := Serve(s, env);
    var isEmpty := b.active == [];
    var c := if wasEmpty && !isEmpty then StartRenderer(b, env.initWorks) else b;
    var d := TidyClients(c);
    if !wasEmpty && isEmpty then
      var e := CleanupRenderer(d);
      if e.loop then e else e.(running := false)
    else d
  }

  // --- what the renderer's history must look like --------------------------------------------

  datatype Ledger = Ledger(up: bool, live: set<CtxId>)

  /** One event on a ledger, or nothing when the event is out of order. */
  function Apply(l: Ledger, e: Event): Option<Ledger> {
    match e
    case Init => if !l.up && l.live == {} then Some(Ledger(true, {})) else None
    case Created(c) => if l.up && c !in l.live then Some(Ledger(l.up, l.live + {c})) else None
    case Destroyed(c) => if l.up && c in l.live then Some(Ledger(l.up, l.live - {c})) else None
    case CleanedUp => if l.up && l.live == {} then Some(Ledger(false, {})) else None
  }

  function Replay(log: seq<Event>): Option<Ledger> {
    if log == [] then Some(Ledger(false, {}))
    else
      var before := Replay(log[..|log| - 1]);
      if before.None? then None else Apply(before.value, log[|log| - 1])
  }

  lemma ReplayAppend(log: seq<Event>, e: Event)
    requires Replay(log).Some?
    ensures Replay(log + [e]) == Apply(Replay(log).value, e)
  {
    assert (log + [e])[..|log|] == log;
  }

  // --- the invariant -------------------------------------------------------------------------

  function Own(c: Client): multiset<CtxId> {
    if c.context.Some? then multiset{c.context.value} else multiset{}
  }

  /** Every live context belongs to exactly one client. */
  ghost predicate OwnersOk(s: Server) {
    && Sum(Own, s.active) + Sum(Own, s.inactive) == multiset(s.live)
    && forall i :: 0 <= i < |s.waiting| ==> s.waiting[i].context.None?
  }

  /** Ids are the numbers from 1 on, each once. */
  ghost predicate BagOk(ids: multiset<CtxId>, next: CtxId) {
    next == |ids| + 1 && forall c: CtxId :: ids[c] <= 1 && (c in ids ==> 1 <= c < next)
  }

  /** Ids are in use once, live or free. */
  ghost predicate IdsOk(s: Server) {
    BagOk(multiset(s.live) + multiset(s.free), s.nextContext)
  }

  ghost function Members(xs: seq<CtxId>): set<CtxId> {
    set c | c in xs
  }

  ghost predicate HistoryOk(s: Server) {
    Replay(s.log) == Some(Ledger(s.initialised, Members(s.live)))
  }

  ghost predicate Mid(s: Server) {
    OwnersOk(s) && IdsOk(s) && HistoryOk(s) && (!s.initialised ==> s.live == [] && s.free == [])
  }

  /** At the head of the loop. */
  ghost predicate Head(s: Server) {
    && Mid(s) && s.inactive == []
    && (s.initialised <==> s.active != [])
    && (s.doFork ==> s.active == [])
  }

  // --- one client at a time ------------------------------------------------------------------

  /** What is not about clients stays as it is. */
  ghost predicate SameRenderer(s: Server, t: Server) {
    && t.live == s.live && t.free == s.free && t.nextContext == s.nextContext && t.log == s.log
      && t.initialised == s.initialised
  }

  lemma MidFrame(s: Server, t: Server)
    requires Mid(s) && SameRenderer(s, t) && OwnersOk(t)
    ensures Mid(t)
  {
  }

  lemma Head1(xs: seq<CtxId>)
    requires xs != []
    ensures multiset(xs) == multiset{xs[0]} + multiset(xs[1..])
  {
    assert xs == [xs[0]] + xs[1..];
  }

  /** A taken context is neither live nor free, and putting it in either place keeps the ids in order. */
  lemma TakeContextIds(s: Server)
    requires IdsOk(s)
    ensures var (t, c) := TakeContext(s);
      && t.live == s.live && BagOk(multiset(t.live) + multiset(t.free) + multiset{c}, t.nextContext)
  {
    var (t, c) := TakeContext(s);
    if s.free != [] {
      Head1(s.free);
      assert multiset(t.live) + multiset(t.free) + multiset{c} == multiset(s.live) + multiset(s.free);
    } else {
      assert multiset(t.free) == multiset{};
      assert s.nextContext !in multiset(s.live) + multiset(s.free);
    }
  }

  lemma TakenNotLive(s: Server)
    requires IdsOk(s)
    ensures TakeContext(s).1 !in s.live
  {
    TakeContextIds(s);
    var (t, c) := TakeContext(s);
    assert (multiset(t.live) + multiset(t.free) + multiset{c})[c] <= 1;
    assert c !in multiset(s.live);
  }

  lemma CreateOwners(s: Server, i: nat, c: CtxId)
    requires OwnersOk(s) && i < |s.active| && s.active[i].context.None?
    ensures OwnersOk(s.(active := s.active[i := s.active[i].(context := Some(c))], live := s.live + [c]))
  {
    var client := s.active[i].(context := Some(c));
    SumUpdate(Own, s.active, i, client);
    assert Own(s.active[i]) == multiset{} && Own(client) == multiset{c};
    hide Sum;
    assert Sum(Own, s.active[i := client]) == Sum(Own, s.active) + multiset{c};
    assert multiset(s.live + [c]) == multiset(s.live) + multiset{c};
  }

  lemma CreateHistory(s: Server, c: CtxId)
    requires HistoryOk(s) && s.initialised && c !in s.live
    ensures HistoryOk(s.(live := s.live + [c], log := s.log + [Created(c)]))
  {
    hide Replay;
    ReplayAppend(s.log, Created(c));
    assert Members(s.live + [c]) == Members(s.live) + {c};
  }

  lemma CreateIds(s: Server)
    requires IdsOk(s)
    ensures IdsOk(CreateContext(s).0) && IdsOk(AbandonContext(s))
  {
    hide BagOk;
    TakeContextIds(s);
    var (t, c) := TakeContext(s);
    var u, v := CreateContext(s).0, AbandonContext(s);
    assert multiset(u.live) + multiset(u.free) == multiset(t.live) + multiset(t.free) + multiset{c};
    assert multiset(v.live) + multiset(v.free) == multiset(t.live) + multiset(t.free) + multiset{c};
  }

  lemma CreateMid(s: Server, i: nat)
    requires Mid(s) && s.initialised && i < |s.active| && s.active[i].context.None?
    ensures var (t, c) := CreateContext(s); Mid(t.(active := s.active[i := s.active[i].(context := Some(c))]))
  {
    var (t, c) := CreateContext(s);
    var u := t.(active := s.active[i := s.active[i].(context := Some(c))]);
    CreateOwners(s, i, c);
    TakenNotLive(s);
    CreateHistory(s, c);
    CreateIds(s);
    assert IdsOk(u) by {
      SameIds(t, u);
    }
    assert HistoryOk(u) && OwnersOk(u);
  }

  lemma AbandonMid(s: Server)
    requires Mid(s) && s.initialised
    ensures Mid(AbandonContext(s)) && AbandonContext(s).initialised
  {
    hide Sum, BagOk, Replay, IdsOk;
    CreateIds(s);
  }

  lemma DeactivateMid(s: Server, i: nat)
    requires Mid(s) && i < |s.active|
    ensures Mid(Deactivate(s, i))
  {
    hide Sum, IdsOk, HistoryOk;
    SumRemove(Own, s.active, i);
    SumAppend(Own, s.inactive, s.active[i]);
    MidFrame(s, Deactivate(s, i));
  }

  lemma TakenOut(xs: seq<CtxId>, c: CtxId)
    requires c in xs
    ensures multiset(RemoveAt(xs, IndexOf(xs, c).value)) + multiset{c} == multiset(xs)
  {
    hide IndexOf;
    var i := IndexOf(xs, c).value;
    var a, b := xs[..i], xs[i + 1..];
    assert xs == a + [c] + b;
    assert multiset(a + [c] + b) == multiset(a) + multiset{c} + multiset(b);
    assert multiset(a + b) == multiset(a) + multiset(b);
  }

  /** The first inactive client's context is live. */
  lemma FirstOwns(s: Server, c: CtxId, client: Client, rest: seq<Client>)
    requires OwnersOk(s) && s.inactive == [client] + rest && client.context == Some(c)
    ensures c in s.live && Sum(Own, s.inactive) == multiset{c} + Sum(Own, rest)
  {
    assert s.inactive[1..] == rest;
    assert c in multiset(s.live);
  }

  lemma DestroyOwners(s: Server, c: CtxId, client: Client, rest: seq<Client>)
    requires OwnersOk(s) && s.inactive == [client] + rest && client.context == Some(c)
    ensures OwnersOk(DestroyContext(s.(inactive := rest), c))
  {
    FirstOwns(s, c, client, rest);
    TakenOut(s.live, c);
    hide Sum;
    var t := DestroyContext(s.(inactive := rest), c);
    assert Sum(Own, t.active) + Sum(Own, t.inactive) + multiset{c} == multiset(t.live) + multiset{c};
    Cancel(Sum(Own, t.active) + Sum(Own, t.inactive), multiset(t.live), multiset{c}, multiset{});
  }

  lemma DestroyIds(s: Server, c: CtxId)
    requires IdsOk(s) && c in s.live
    ensures IdsOk(DestroyContext(s, c))
  {
    hide BagOk;
    TakenOut(s.live, c);
    var t := DestroyContext(s, c);
    assert multiset(t.live) + multiset(t.free) == multiset(s.live) + multiset(s.free);
  }

  lemma DestroyHistory(s: Server, c: CtxId)
    requires IdsOk(s) && HistoryOk(s) && s.initialised && c in s.live
    ensures HistoryOk(DestroyContext(s, c))
  {
    hide BagOk, Replay;
    TakenOut(s.live, c);
    ReplayAppend(s.log, Destroyed(c));
    DestroyedSet(s, DestroyContext(s, c), c);
  }

  lemma DestroyMid(s: Server, c: CtxId, client: Client, rest: seq<Client>)
    requires Mid(s) && s.inactive == [client] + rest && client.context == Some(c)
    ensures Mid(DestroyContext(s.(inactive := rest), c)) && s.initialised && c in s.live
  {
    hide IdsOk, HistoryOk, OwnersOk, Sum;
    FirstOwns(s, c, client, rest);
    var t := s.(inactive := rest);
    SameIds(s, t);
    SameHistory(s, t);
    DestroyOwners(s, c, client, rest);
    DestroyIds(t, c);
    DestroyHistory(t, c);
  }

  lemma SameHistory(s: Server, t: Server)
    requires t.live == s.live && t.log == s.log && t.initialised == s.initialised
    ensures HistoryOk(t) == HistoryOk(s)
  {
  }

  lemma DestroyedSet(s: Server, t: Server, c: CtxId)
    requires IdsOk(s) && multiset(s.live) == multiset(t.live) + multiset{c}
    ensures Members(t.live) == Members(s.live) - {c}
  {
    forall x: CtxId ensures x in t.live <==> x in s.live && x != c {
      assert (multiset(s.live) + multiset(s.free))[x] <= 1;
      assert multiset(s.live)[x] == multiset(t.live)[x] + multiset{c}[x];
      assert x in t.live <==> x in multiset(t.live);
      assert x in s.live <==> x in multiset(s.live);
    }
  }

  // --- the phases ----------------------------------------------------------------------------

  lemma DispatchStep(s: Server, i: nat, dispatch: nat -> Dispatch)
    requires i < |s.active|
    ensures var (t, j) := DispatchOne(s, i, dispatch(s.active[i].id));
      DispatchFrom(s, i, dispatch) == DispatchFrom(t, j, dispatch)
  {
    hide DispatchOne;
  }

  lemma DispatchOneMid(s: Server, i: nat, d: Dispatch)
    requires Mid(s) && s.initialised && i < |s.active|
    ensures Mid(DispatchOne(s, i, d).0)
  {
    hide Mid, Deactivate, AbandonContext, CreateContext;
    match d
    case Idle =>
    case Succeeds =>
      if s.active[i].context.None? {
        CreateMid(s, i);
      }
    case Fails => DeactivateMid(s, i);
    case Abandons =>
      if s.active[i].context.None? {
        AbandonMid(s);
        DeactivateMid(AbandonContext(s), i);
      } else {
        DeactivateMid(s, i);
      }
  }

  lemma {:induction false} DispatchMid(s: Server, i: nat, dispatch: nat -> Dispatch)
    requires Mid(s) && (s.initialised || i >= |s.active|)
    ensures var t := DispatchFrom(s, i, dispatch);
      && Mid(t) && t.initialised == s.initialised && t.waiting == s.waiting && t.doFork == s.doFork
        && t.running == s.running
      && t.loop == s.loop
    decreases |s.active| - i
  {
    hide Mid, DispatchFrom, DispatchOne;
    if i < |s.active| {
      var (t, j) := DispatchOne(s, i, dispatch(s.active[i].id));
      DispatchStep(s, i, dispatch);
      DispatchOneMid(s, i, dispatch(s.active[i].id));
      DispatchMid(t, j, dispatch);
    } else {
      DispatchDone(s, i, dispatch);
    }
  }

  lemma DispatchDone(s: Server, i: nat, dispatch: nat -> Dispatch)
    requires i >= |s.active|
    ensures DispatchFrom(s, i, dispatch) == s
  {
  }

  lemma ForkEnds(s: Server, fork: nat -> Fork)
    ensures s.waiting == [] ==> ForkClients(s, fork) == s
    ensures s.waiting != [] && fork(s.waiting[0].id).Child? ==> ForkClients(s, fork) == BecomeChild(s)
  {
  }

  lemma ForkStep(s: Server, fork: nat -> Fork)
    requires s.waiting != [] && !fork(s.waiting[0].id).Child?
    ensures ForkClients(s, fork) == ForkClients(s.(waiting := s.waiting[1..], inactive := s.inactive + [s.waiting[0]]),
                                                fork)
  {
  }

  lemma NoContexts(cs: seq<Client>)
    requires forall i :: 0 <= i < |cs| ==> cs[i].context.None?
    ensures Sum(Own, cs) == multiset{}
  {
    SumEmpty(Own, cs);
  }

  lemma {:induction false} ForkMid(s: Server, fork: nat -> Fork)
    requires Mid(s) && s.doFork && s.active == [] && !s.initialised
    ensures var t := ForkClients(s, fork);
      && Mid(t) && t.waiting == [] && !t.initialised && t.running == s.running && (t.doFork ==> t.active == [])
    decreases |s.waiting|
  {
    hide Sum, IdsOk, HistoryOk;
    if s.waiting != [] {
      var client := s.waiting[0];
      NoContexts([client]);
      if fork(client.id).Child? {
        NoContexts(s.waiting[1..]);
        SumConcat(Own, s.inactive, s.waiting[1..]);
        SumConcat(Own, s.active, [client]);
        MidFrame(s, ForkClients(s, fork));
      } else {
        SumConcat(Own, s.inactive, [client]);
        var t := s.(waiting := s.waiting[1..], inactive := s.inactive + [client]);
        MidFrame(s, t);
        ForkMid(t, fork);
      }
    }
  }

  lemma ActivateMid(s: Server)
    requires Mid(s)
    ensures Mid(ActivateClients(s))
  {
    hide Sum, IdsOk, HistoryOk;
    NoContexts(s.waiting);
    SumConcat(Own, s.active, s.waiting);
    MidFrame(s, ActivateClients(s));
  }

  lemma StartMid(s: Server, works: bool)
    requires Mid(s) && !s.initialised
    ensures Mid(StartRenderer(s, works))
  {
    hide Sum, IdsOk, Replay;
    NoContexts([]);
    var t := StartRenderer(s, works);
    if works {
      ReplayAppend(s.log, Init);
      assert Members(s.live) == {};
      assert IdsOk(t) == IdsOk(s) by {
        SameIds(s, t);
      }
    } else {
      SumConcat(Own, s.inactive, s.active);
      MidFrame(s, t);
    }
  }

  lemma SameIds(s: Server, t: Server)
    requires t.live == s.live && t.free == s.free && t.nextContext == s.nextContext
    ensures IdsOk(t) == IdsOk(s)
  {
  }

  lemma {:induction false} TidyMid(s: Server)
    requires Mid(s)
    ensures var t := TidyClients(s);
      && Mid(t) && t.inactive == [] && t.initialised == s.initialised && t.active == s.active && t.waiting == s.waiting
      && t.doFork == s.doFork && t.running == s.running && t.loop == s.loop
    decreases |s.inactive|
  {
    hide IdsOk, HistoryOk;
    if s.inactive != [] {
      var client := s.inactive[0];
      var t := s.(inactive := s.inactive[1..]);
      assert s.inactive == [client] + s.inactive[1..];
      if client.context.Some? {
        hide Sum, OwnersOk, Mid;
        DestroyMid(s, client.context.value, client, s.inactive[1..]);
        TidyMid(DestroyContext(t, client.context.value));
      } else {
        assert Sum(Own, s.inactive) == Sum(Own, t.inactive);
        hide Sum;
        MidFrame(s, t);
        TidyMid(t);
      }
    }
  }

  /** With no client left there is no context left, so the renderer is cleaned up with nothing alive. */
  lemma CleanupMid(s: Server)
    requires Mid(s) && s.initialised && s.active == [] && s.inactive == []
    ensures s.live == []
    ensures Mid(CleanupRenderer(s)) && !CleanupRenderer(s).initialised && CleanupRenderer(s).nextContext == 1
  {
    assert multiset(s.live) == multiset{};
    assert |multiset(s.live)| == |s.live|;
    ReplayAppend(s.log, CleanedUp);
    assert Members(s.live) == {};
    if s.nextContext == 1 {
      NothingFree(s);
    }
  }

  lemma NothingFree(s: Server)
    requires IdsOk(s) && s.nextContext == 1
    ensures s.free == []
  {
    var bag := multiset(s.live) + multiset(s.free);
    assert forall c: CtxId :: c !in bag;
    assert bag == multiset{};
    assert |multiset(s.free)| == |s.free|;
    assert multiset(s.free) == multiset{} by {
      forall c: CtxId ensures multiset(s.free)[c] == 0 {
        assert c !in bag;
      }
    }
  }

  // --- whole turns and runs ------------------------------------------------------------------

  lemma WaitMid(s: Server, accepted: Option<nat>)
    requires Mid(s)
    ensures Mid(Wait(s, accepted)) && SameRenderer(s, Wait(s, accepted))
    ensures var t := Wait(s, accepted);
      t.active == s.active && t.inactive == s.inactive && t.doFork == s.doFork && t.running == s.running
  {
    hide Sum, IdsOk, HistoryOk;
    MidFrame(s, Wait(s, accepted));
  }

  lemma ServeMid(s: Server, env: Env)
    requires Head(s)
    ensures var b := Serve(s, env);
      && Mid(b) && b.initialised == s.initialised && b.waiting == [] && b.running == s.running
      && (b.doFork ==> b.active == [])
  {
    hide Mid, DispatchFrom, ForkClients, Wait, SameRenderer;
    assert s.doFork ==> s.active == [] && !s.initialised;
    assert Mid(s);
    WaitMid(s, env.accepted);
    SameInit(s, Wait(s, env.accepted));
    var w := Wait(s, env.accepted);
    var a := DispatchFrom(w, 0, env.dispatch);
    DispatchMid(w, 0, env.dispatch);
    if a.doFork {
      DispatchDone(w, 0, env.dispatch);
      ForkMid(a, env.fork);
    } else {
      ActivateMid(a);
    }
  }

  lemma SameInit(s: Server, t: Server)
    requires SameRenderer(s, t)
    ensures t.initialised == s.initialised
  {
  }

  /** One turn leads from loop head to loop head; when it is the last one, the renderer is down and nothing is left. */
  lemma TurnHead(s: Server, env: Env)
    requires Head(s) && s.running
    ensures Head(Turn(s, env)) && Turn(s, env).waiting == []
    ensures !Turn(s, env).running ==> Turn(s, env).active == [] && Turn(s, env).live == [] && !Turn(s, env).initialised
  {
    hide Mid, Serve, TidyClients, CleanupRenderer;
    ServeMid(s, env);
    var wasEmpty := s.active == [];
    var b := Serve(s, env);
    var isEmpty := b.active == [];
    var c := if wasEmpty && !isEmpty then StartRenderer(b, env.initWorks) else b;
    if wasEmpty && !isEmpty {
      StartMid(b, env.initWorks);
    }
    TidyMid(c);
    var d := TidyClients(c);
    if !wasEmpty && isEmpty {
      CleanupMid(d);
      CleanupKeeps(d);
      StoppedMid(CleanupRenderer(d));
    }
    DownIsEmpty(Turn(s, env));
  }

  lemma CleanupKeeps(s: Server)
    requires s.live == []
    ensures var t := CleanupRenderer(s);
      t.active == s.active && t.inactive == s.inactive && t.waiting == s.waiting && t.doFork == s.doFork
        && t.running == s.running
  {
  }

  lemma StoppedMid(s: Server)
    requires Mid(s)
    ensures Mid(s.(running := false))
  {
    MidFrame(s, s.(running := false));
  }

  lemma DownIsEmpty(s: Server)
    requires Mid(s)
    ensures !s.initialised ==> s.live == []
  {
  }

  /** The loop, one turn per decision of the environment, until it stops. */
  function After(s: Server, envs: seq<Env>): Server
    decreases |envs|
  {
    if envs == [] || !s.running then s else After(Turn(s, envs[0]), envs[1..])
  }

  /** Start of the loop: a socket, or a file as the one client. */
  function Start(doFork: bool, loop: bool, multiClients: bool, socketOpen: bool): Server {
    Server(doFork, loop, multiClients, socketOpen, true, if socketOpen then [] else [Client(0, None)], [], [],
           false, [], [], 1, [])
  }

  lemma StartHead(doFork: bool, loop: bool, multiClients: bool, socketOpen: bool)
    ensures Head(Start(doFork, loop, multiClients, socketOpen)) && Start(doFork, loop, multiClients, socketOpen).running
  {
    assert Members([]) == {};
  }

  lemma {:induction false} AfterHead(s: Server, envs: seq<Env>)
    requires Head(s)
    ensures Head(After(s, envs))
    decreases |envs|
  {
    hide Head, Turn;
    if envs != [] && s.running {
      TurnHead(s, envs[0]);
      AfterHead(Turn(s, envs[0]), envs[1..]);
    }
  }

  /**
   * At every loop head, in the first process and in every forked child: the renderer is up iff some client is active,
   * every live context belongs to exactly one client and every client's context is live, and no context id is in
   * use twice.
   */
  lemma RendererUpIffActive(doFork: bool, loop: bool, multiClients: bool, socketOpen: bool, envs: seq<Env>)
    ensures var s := After(Start(doFork, loop, multiClients, socketOpen), envs);
      && (s.initialised <==> s.active != [])
      && Sum(Own, s.active) == multiset(s.live) && (forall c: CtxId :: multiset(s.live)[c] <= 1)
  {
    StartHead(doFork, loop, multiClients, socketOpen);
    AfterHead(Start(doFork, loop, multiClients, socketOpen), envs);
    var s := After(Start(doFork, loop, multiClients, socketOpen), envs);
    hide After;
    forall c: CtxId ensures multiset(s.live)[c] <= 1 {
      assert (multiset(s.live) + multiset(s.free))[c] <= 1;
    }
  }

  /** What must hold of event `i` of a history for it to replay. */
  lemma {:induction false} ReplayedEvent(log: seq<Event>, i: nat)
    requires Replay(log).Some? && i < |log|
    ensures Replay(log[..i]).Some? && Apply(Replay(log[..i]).value, log[i]).Some?
    decreases |log|
  {
    if i < |log| - 1 {
      ReplayedEvent(log[..|log| - 1], i);
      assert log[..|log| - 1][..i] == log[..i];
    }
  }

  /**
   * Over whole runs: a context is created only while the renderer is up and only if it is not alive, destroyed only
   * if it is alive, hence once per creation; and the renderer is started and cleaned up in turn, always with no
   * context alive.
   */
  lemma HistoryInOrder(doFork: bool, loop: bool, multiClients: bool, socketOpen: bool, envs: seq<Env>, i: nat)
    requires i < |After(Start(doFork, loop, multiClients, socketOpen), envs).log|
    ensures var log := After(Start(doFork, loop, multiClients, socketOpen), envs).log;
      var before := Replay(log[..i]);
      && before.Some?
      && match log[i]
         case Init => !before.value.up && before.value.live == {}
         case Created(c) => before.value.up && c !in before.value.live
         case Destroyed(c) => before.value.up && c in before.value.live
         case CleanedUp => before.value.up && before.value.live == {}
  {
    StartHead(doFork, loop, multiClients, socketOpen);
    AfterHead(Start(doFork, loop, multiClients, socketOpen), envs);
    var s := After(Start(doFork, loop, multiClients, socketOpen), envs);
    ReplayedEvent(s.log, i);
  }
}
