/** What one turn of the vtest server's loop means to each client: who is served, who stays, who goes, and who stops. */
module ServerMeaning {
  import opened Bags
  import opened VtestServer

  /** The client's command, if any, does not fail. */
  predicate Stays(d: Dispatch) {
    d.Idle? || d.Succeeds?
  }

  ghost function Staying(cs: seq<Client>, dispatch: nat -> Dispatch): seq<Client> {
    if cs == [] then []
    else (if Stays(dispatch(cs[0].id)) then [cs[0]] else []) + Staying(cs[1..], dispatch)
  }

  ghost function Leaving(cs: seq<Client>, dispatch: nat -> Dispatch): seq<Client> {
    if cs == [] then []
    else (if Stays(dispatch(cs[0].id)) then [] else [cs[0]]) + Leaving(cs[1..], dispatch)
  }

  /** The same clients in the same order; one gets a context exactly if it had none and its command succeeded. */
  ghost predicate Served(before: seq<Client>, after: seq<Client>, dispatch: nat -> Dispatch) {
    && |after| == |before|
    && forall i :: 0 <= i < |before| ==>
         && after[i].id == before[i].id
         && (before[i].context.Some? ==> after[i].context == before[i].context)
         && (before[i].context.None? ==> (after[i].context.Some? <==> dispatch(before[i].id).Succeeds?))
  }

  ghost predicate SameFlags(s: Server, t: Server) {
    t.doFork == s.doFork && t.loop == s.loop && t.multiClients == s.multiClients && t.socketOpen == s.socketOpen
  }

  // --- dispatching ---------------------------------------------------------------------------

  /** What dispatching from position `i` on has done. */
  ghost predicate Dispatched(s: Server, i: nat, dispatch: nat -> Dispatch, t: Server)
    requires i <= |s.active|
  {
    && |t.active| >= i && t.active[..i] == s.active[..i]
    && Served(Staying(s.active[i..], dispatch), t.active[i..], dispatch)
    && t.inactive == s.inactive + Leaving(s.active[i..], dispatch)
    && t.waiting == s.waiting && t.running == s.running && SameFlags(s, t)
  }

  lemma ContextMeans(s: Server)
    ensures var t := CreateContext(s).0; t.inactive == s.inactive && t.active == s.active && SameFlags(s, t)
    ensures var t := AbandonContext(s); t.inactive == s.inactive && t.active == s.active && SameFlags(s, t)
  {
  }

  /** A client that stays may get a context. */
  ghost predicate ServedOne(a: Client, b: Client, d: Dispatch) {
    && b.id == a.id && (a.context.Some? ==> b.context == a.context)
    && (a.context.None? ==> (b.context.Some? <==> d.Succeeds?))
  }

  lemma StaysMeans(s: Server, i: nat, d: Dispatch)
    requires i < |s.active| && Stays(d)
    ensures var (t, j) := DispatchOne(s, i, d);
      && t.waiting == s.waiting && t.running == s.running && SameFlags(s, t) && t.inactive == s.inactive
      && j == i + 1 && |t.active| == |s.active| && t.active == s.active[i := t.active[i]]
      && ServedOne(s.active[i], t.active[i], d)
  {
    hide CreateContext, AbandonContext, Deactivate;
    ContextMeans(s);
  }

  lemma LeavesMeans(s: Server, i: nat, d: Dispatch)
    requires i < |s.active| && !Stays(d)
    ensures var (t, j) := DispatchOne(s, i, d);
      && t.waiting == s.waiting && t.running == s.running && SameFlags(s, t)
      && j == i && t.active == s.active[..i] + s.active[i + 1..] && t.inactive == s.inactive + [s.active[i]]
  {
    hide CreateContext, AbandonContext;
    ContextMeans(s);
  }

  lemma ServedFirst(a: Client, b: Client, before: seq<Client>, after: seq<Client>, dispatch: nat -> Dispatch)
    requires Served(before, after, dispatch) && ServedOne(a, b, dispatch(a.id))
    ensures Served([a] + before, [b] + after, dispatch)
  {
  }

  lemma Unfold(cs: seq<Client>, i: nat, dispatch: nat -> Dispatch)
    requires i < |cs|
    ensures Staying(cs[i..], dispatch) ==
      (if Stays(dispatch(cs[i].id)) then [cs[i]] else []) + Staying(cs[i + 1..], dispatch)
    ensures Leaving(cs[i..], dispatch) ==
      (if Stays(dispatch(cs[i].id)) then [] else [cs[i]]) + Leaving(cs[i + 1..], dispatch)
  {
    assert cs[i..][1..] == cs[i + 1..];
  }

  lemma DispatchedStay(s: Server, i: nat, dispatch: nat -> Dispatch, t: Server, u: Server)
    requires i < |s.active| && Stays(dispatch(s.active[i].id))
    requires t.waiting == s.waiting && t.running == s.running && SameFlags(s, t) && t.inactive == s.inactive
    requires |t.active| == |s.active| && t.active == s.active[i := t.active[i]]
    requires ServedOne(s.active[i], t.active[i], dispatch(s.active[i].id)) && Dispatched(t, i + 1, dispatch, u)
    ensures Dispatched(s, i, dispatch, u)
  {
    hide Staying, Leaving, Served, ServedOne;
    Unfold(s.active, i, dispatch);
    assert t.active[i + 1..] == s.active[i + 1..];
    assert u.active[..i] == u.active[..i + 1][..i] && u.active[i] == u.active[..i + 1][i];
    assert t.active[..i + 1][..i] == s.active[..i];
    assert u.active[i..] == [u.active[i]] + u.active[i + 1..];
    var rest := Staying(s.active[i + 1..], dispatch);
    ServedFirst(s.active[i], u.active[i], rest, u.active[i + 1..], dispatch);
    assert [] + Leaving(s.active[i + 1..], dispatch) == Leaving(s.active[i + 1..], dispatch);
  }

  lemma DispatchedLeave(s: Server, i: nat, dispatch: nat -> Dispatch, t: Server, u: Server)
    requires i < |s.active| && !Stays(dispatch(s.active[i].id))
    requires t.waiting == s.waiting && t.running == s.running && SameFlags(s, t)
    requires t.active == s.active[..i] + s.active[i + 1..] && t.inactive == s.inactive + [s.active[i]]
    requires Dispatched(t, i, dispatch, u)
    ensures Dispatched(s, i, dispatch, u)
  {
    hide Staying, Leaving, Served;
    Unfold(s.active, i, dispatch);
    assert t.active[i..] == s.active[i + 1..] && t.active[..i] == s.active[..i];
    var rest := Leaving(s.active[i + 1..], dispatch);
    assert s.inactive + [s.active[i]] + rest == s.inactive + ([s.active[i]] + rest);
    assert [] + Staying(s.active[i + 1..], dispatch) == Staying(s.active[i + 1..], dispatch);
  }

  lemma DispatchedNone(s: Server, dispatch: nat -> Dispatch)
    ensures Dispatched(s, |s.active|, dispatch, s)
  {
    assert s.active[|s.active|..] == [] && s.inactive + [] == s.inactive;
  }

  lemma {:induction false} DispatchMeans(s: Server, i: nat, dispatch: nat -> Dispatch)
    requires i <= |s.active|
    ensures Dispatched(s, i, dispatch, DispatchFrom(s, i, dispatch))
    decreases |s.active| - i
  {
    hide DispatchOne, DispatchFrom, Dispatched, ServedOne;
    if i == |s.active| {
      DispatchDone(s, i, dispatch);
      DispatchedNone(s, dispatch);
    } else {
      var d := dispatch(s.active[i].id);
      var (t, j) := DispatchOne(s, i, d);
      DispatchStep(s, i, dispatch);
      if Stays(d) {
        StaysMeans(s, i, d);
        DispatchMeans(t, i + 1, dispatch);
        DispatchedStay(s, i, dispatch, t, DispatchFrom(s, i, dispatch));
      } else {
        LeavesMeans(s, i, d);
        DispatchMeans(t, i, dispatch);
        DispatchedLeave(s, i, dispatch, t, DispatchFrom(s, i, dispatch));
      }
    }
  }

  // --- placing the new clients ---------------------------------------------------------------

  /** The first new client in whose process we are. */
  ghost function FirstChild(cs: seq<Client>, fork: nat -> Fork): (k: Option<nat>)
    ensures k.Some? ==> k.value < |cs| && fork(cs[k.value].id).Child?
    ensures k.Some? ==> forall i :: 0 <= i < k.value ==> !fork(cs[i].id).Child?
    ensures k.None? ==> forall i :: 0 <= i < |cs| ==> !fork(cs[i].id).Child?
  {
    if cs == [] then None
    else if fork(cs[0].id).Child? then Some(0)
    else
      var k := FirstChild(cs[1..], fork);
      if k.None? then None else Some(k.value + 1)
  }

  lemma NextChild(cs: seq<Client>, fork: nat -> Fork)
    requires cs != [] && !fork(cs[0].id).Child?
    ensures var k := FirstChild(cs[1..], fork); FirstChild(cs, fork) == if k.None? then None else Some(k.value + 1)
  {
  }

  /** What becomes of the new clients. */
  ghost predicate Forked(s: Server, fork: nat -> Fork, t: Server) {
    var k := FirstChild(s.waiting, fork);
    && t.waiting == [] && t.running == s.running
    && (k.None? ==> t.active == s.active && t.inactive == s.inactive + s.waiting && SameFlags(s, t))
    && (k.Some? ==>
          && t.active == s.active + [s.waiting[k.value]]
          && t.inactive == s.inactive + (s.waiting[..k.value] + s.waiting[k.value + 1..])
          && !t.doFork && !t.loop && !t.multiClients && !t.socketOpen)
  }

  lemma ForkedChild(s: Server, fork: nat -> Fork)
    requires s.waiting != [] && fork(s.waiting[0].id).Child?
    ensures Forked(s, fork, BecomeChild(s))
  {
    assert s.waiting[..0] + s.waiting[1..] == s.waiting[1..];
  }

  lemma ForkedParent(s: Server, fork: nat -> Fork, t: Server)
    requires s.waiting != [] && !fork(s.waiting[0].id).Child?
    requires Forked(s.(waiting := s.waiting[1..], inactive := s.inactive + [s.waiting[0]]), fork, t)
    ensures Forked(s, fork, t)
  {
    hide FirstChild;
    NextChild(s.waiting, fork);
    var first, rest := s.waiting[0], s.waiting[1..];
    assert s.waiting == [first] + rest;
    var k := FirstChild(rest, fork);
    if k.Some? {
      var others := rest[..k.value] + rest[k.value + 1..];
      assert s.waiting[..k.value + 1] + s.waiting[k.value + 2..] == [first] + others;
      assert s.inactive + [first] + others == s.inactive + ([first] + others);
    } else {
      assert s.inactive + [first] + rest == s.inactive + ([first] + rest);
    }
  }

  /**
   * The parent drops every new client.  A child serves its own and drops the others, and it neither listens, nor
   * forks, nor starts over.
   */
  lemma {:induction false} ForkMeans(s: Server, fork: nat -> Fork)
    ensures Forked(s, fork, ForkClients(s, fork))
    decreases |s.waiting|
  {
    hide ForkClients, BecomeChild;
    ForkEnds(s, fork);
    if s.waiting == [] {
      assert s.inactive + [] == s.inactive;
    } else if fork(s.waiting[0].id).Child? {
      ForkedChild(s, fork);
    } else {
      hide Forked;
      ForkStep(s, fork);
      ForkMeans(s.(waiting := s.waiting[1..], inactive := s.inactive + [s.waiting[0]]), fork);
      ForkedParent(s, fork, ForkClients(s, fork));
    }
  }

  /** The clients that are new in this turn: those at hand, and one more if the socket takes one. */
  ghost function Newcomers(s: Server, accepted: Option<nat>): seq<Client> {
    s.waiting + (if accepted.Some? && s.socketOpen && (s.active == [] || s.multiClients)
                 then [Client(accepted.value, None)] else [])
  }

  /** Whom of them this process goes on to serve. */
  ghost function Placed(s: Server, env: Env): seq<Client> {
    var comers := Newcomers(s, env.accepted);
    if !s.doFork then comers
    else
      var k := FirstChild(comers, env.fork);
      if k.Some? then [comers[k.value]] else []
  }

  /** This process is a child that was forked in this turn. */
  ghost predicate InChild(s: Server, env: Env) {
    s.doFork && FirstChild(Newcomers(s, env.accepted), env.fork).Some?
  }

  lemma ServeMeans(s: Server, env: Env)
    requires s.inactive == []
    ensures var b, n := Serve(s, env), |Staying(s.active, env.dispatch)|;
      && |b.active| >= n && Served(Staying(s.active, env.dispatch), b.active[..n], env.dispatch)
      && b.active[n..] == Placed(s, env) && b.waiting == [] && b.running == s.running
      && (!InChild(s, env) ==> SameFlags(s, b))
      && (InChild(s, env) ==> !b.doFork && !b.loop && !b.multiClients && !b.socketOpen)
  {
    hide DispatchFrom, ForkClients, FirstChild, Staying, Leaving;
    var w := Wait(s, env.accepted);
    assert w.waiting == Newcomers(s, env.accepted);
    var a := DispatchFrom(w, 0, env.dispatch);
    DispatchMeans(w, 0, env.dispatch);
    assert w.active[0..] == s.active && a.active[0..] == a.active;
    var n := |Staying(s.active, env.dispatch)|;
    assert |a.active| == n;
    if a.doFork {
      ForkMeans(a, env.fork);
      var b := ForkClients(a, env.fork);
      assert b.active[..n] == a.active;
    } else {
      assert ActivateClients(a).active[..n] == a.active;
    }
  }

  /**
   * One turn, for its clients: those whose command does not fail stay, in order, with their contexts; the new ones
   * that this process serves come after them; everybody else is gone; unless the renderer cannot be started, then
   * nobody stays.  The loop ends exactly if it cannot, or if the last client left and the server is not to start over.
   */
  lemma TurnMeans(s: Server, env: Env)
    requires Head(s) && s.running
    ensures var t, stay := Turn(s, env), Staying(s.active, env.dispatch);
      var failed := s.active == [] && Placed(s, env) != [] && !env.initWorks;
      var left := s.active != [] && stay + Placed(s, env) == [];
      && t.waiting == [] && t.inactive == []
      && (failed ==> t.active == [])
      && (!failed ==>
            && |t.active| == |stay| + |Placed(s, env)|
            && Served(stay, t.active[..|stay|], env.dispatch) && t.active[|stay|..] == Placed(s, env))
      && (t.running <==> !failed && !(left && (InChild(s, env) || !s.loop)))
      && (!InChild(s, env) ==> SameFlags(s, t))
      && (InChild(s, env) ==> !t.doFork && !t.loop && !t.multiClients && !t.socketOpen)
  {
    hide Mid, Serve, TidyClients, CleanupRenderer, Staying, Placed, InChild, Served;
    ServeMeans(s, env);
    ServeMid(s, env);
    TurnHead(s, env);
    StayingNone(s.active, env.dispatch);
    var b := Serve(s, env);
    var n := |Staying(s.active, env.dispatch)|;
    assert b.active == b.active[..n] + b.active[n..];
    var c := if s.active == [] && b.active != [] then StartRenderer(b, env.initWorks) else b;
    if s.active == [] && b.active != [] {
      StartMid(b, env.initWorks);
    }
    TidyMid(c);
    TidyFlags(c);
    CleanupFlags(TidyClients(c));
  }

  lemma StayingNone(cs: seq<Client>, dispatch: nat -> Dispatch)
    ensures cs == [] ==> Staying(cs, dispatch) == []
  {
  }

  lemma {:induction false} TidyFlags(s: Server)
    ensures SameFlags(s, TidyClients(s))
    decreases |s.inactive|
  {
    if s.inactive != [] {
      var client := s.inactive[0];
      var t := s.(inactive := s.inactive[1..]);
      TidyFlags(if client.context.Some? then DestroyContext(t, client.context.value) else t);
    }
  }

  lemma {:induction false} DestroyLiveFlags(s: Server)
    ensures var t := DestroyLive(s); SameFlags(s, t) && t.active == s.active && t.running == s.running
    decreases |s.live|
  {
    if s.live != [] {
      DestroyLiveFlags(s.(live := s.live[1..], free := [s.live[0]] + s.free, log := s.log + [Destroyed(s.live[0])]));
    }
  }

  lemma CleanupFlags(s: Server)
    ensures var t := CleanupRenderer(s); SameFlags(s, t) && t.active == s.active && t.running == s.running
  {
    DestroyLiveFlags(s);
  }
}
