/** The vtest server as an object: its lists and flags updated in place, proved against the functions of VtestServer. */
module VtestLoop {
  import opened Bags
  import opened VtestServer

  class VtestProcess {
    var doFork: bool
    var loop: bool
    var multiClients: bool
    var socketOpen: bool
    var running: bool
    var waiting: seq<Client>
    var active: seq<Client>
    var inactive: seq<Client>
    var initialised: bool
    var live: seq<CtxId>
    var free: seq<CtxId>
    var nextContext: CtxId
    ghost var log: seq<Event>

    ghost function Abs(): Server
      reads this
    {
      Server(doFork, loop, multiClients, socketOpen, running, waiting, active, inactive, initialised, live, free,
             nextContext, log)
    }

    constructor (doFork: bool, loop: bool, multiClients: bool, socketOpen: bool)
      ensures Abs() == Start(doFork, loop, multiClients, socketOpen) && Head(Abs())
    {
      this.doFork, this.loop, this.multiClients, this.socketOpen, running := doFork, loop, multiClients, socketOpen,
        true;
      waiting, active, inactive := if socketOpen then [] else [Client(0, None)], [], [];
      initialised, live, free, nextContext, log := false, [], [], 1, [];
      new;
      StartHead(doFork, loop, multiClients, socketOpen);
    }

    method NewContext() returns (c: CtxId)
      modifies this
      ensures (Abs(), c) == TakeContext(old(Abs()))
    {
      if free == [] {
        c := nextContext;
        nextContext := nextContext + 1;
      } else {
        c := free[0];
        free := free[1..];
      }
    }

    method Destroy(c: CtxId)
      modifies this
      ensures Abs() == DestroyContext(old(Abs()), c)
    {
      var i := IndexOf(live, c);
      if i.Some? {
        live := live[..i.value] + live[i.value + 1..];
      }
      free := [c] + free;
      log := log + [Destroyed(c)];
    }

    method AddContext(i: nat)
      requires i < |active|
      modifies this
      ensures var (t, c) := CreateContext(old(Abs()));
        Abs() == t.(active := old(active)[i := old(active)[i].(context := Some(c))])
    {
      var c := NewContext();
      live := live + [c];
      log := log + [Created(c)];
      active := active[i := active[i].(context := Some(c))];
    }

    method DropClient(i: nat)
      requires i < |active|
      modifies this
      ensures Abs() == Deactivate(old(Abs()), i)
    {
      inactive := inactive + [active[i]];
      active := active[..i] + active[i + 1..];
    }

    /** The command of the client at position `i`; `j` is the position to go on with. */
    method DispatchAt(i: nat, d: Dispatch) returns (j: nat)
      requires i < |active|
      modifies this
      ensures (Abs(), j) == DispatchOne(old(Abs()), i, d)
    {
      var client := active[i];
      j := i + 1;
      if d.Succeeds? && client.context.None? {
        AddContext(i);
      } else if d.Abandons? && client.context.None? {
        var c := NewContext();
        free := [c] + free;
        DropClient(i);
        j := i;
      } else if d.Fails? || d.Abandons? {
        DropClient(i);
        j := i;
      }
    }

    method DispatchClients(dispatch: nat -> Dispatch)
      modifies this
      ensures Abs() == DispatchFrom(old(Abs()), 0, dispatch)
    {
      hide DispatchFrom, DispatchOne;
      var i: nat := 0;
      while i < |active|
        invariant DispatchFrom(Abs(), i, dispatch) == DispatchFrom(old(Abs()), 0, dispatch)
        decreases |active| - i
      {
        DispatchStep(Abs(), i, dispatch);
        i := DispatchAt(i, dispatch(active[i].id));
      }
      DispatchDone(Abs(), i, dispatch);
    }

    method EnterChild()
      requires |waiting| > 0
      modifies this
      ensures Abs() == BecomeChild(old(Abs()))
    {
      doFork, loop, multiClients, socketOpen := false, false, false, false;
      active := active + [waiting[0]];
      inactive := inactive + waiting[1..];
      waiting := [];
    }

    method ForkEach(fork: nat -> Fork)
      modifies this
      ensures Abs() == ForkClients(old(Abs()), fork)
    {
      hide ForkClients, BecomeChild;
      while |waiting| > 0 && !fork(waiting[0].id).Child?
        invariant ForkClients(Abs(), fork) == ForkClients(old(Abs()), fork)
        decreases |waiting|
      {
        ForkStep(Abs(), fork);
        inactive := inactive + [waiting[0]];
        waiting := waiting[1..];
      }
      ForkEnds(Abs(), fork);
      if |waiting| > 0 {
        EnterChild();
      }
    }

    method AcceptClient(accepted: Option<nat>)
      modifies this
      ensures Abs() == Wait(old(Abs()), accepted)
    {
      if accepted.Some? && socketOpen && (active == [] || multiClients) {
        waiting := waiting + [Client(accepted.value, None)];
      }
    }

    method Activate()
      modifies this
      ensures Abs() == ActivateClients(old(Abs()))
    {
      active := active + waiting;
      waiting := [];
    }

    method ServeClients(env: Env)
      modifies this
      ensures Abs() == Serve(old(Abs()), env)
    {
      hide DispatchFrom, ForkClients, Wait, ActivateClients;
      AcceptClient(env.accepted);
      DispatchClients(env.dispatch);
      if doFork {
        ForkEach(env.fork);
      } else {
        Activate();
      }
    }

    method InitRenderer(works: bool)
      modifies this
      ensures Abs() == StartRenderer(old(Abs()), works)
    {
      live, free := [], [];
      if works {
        initialised := true;
        log := log + [Init];
      } else {
        inactive := inactive + active;
        active := [];
        running := false;
      }
    }

    method Tidy()
      modifies this
      ensures Abs() == TidyClients(old(Abs()))
    {
      while |inactive| > 0
        invariant TidyClients(Abs()) == TidyClients(old(Abs()))
        decreases |inactive|
      {
        var client := inactive[0];
        inactive := inactive[1..];
        if client.context.Some? {
          Destroy(client.context.value);
        }
      }
    }

    method Cleanup()
      modifies this
      ensures Abs() == CleanupRenderer(old(Abs()))
    {
      if nextContext > 1 {
        while |live| > 0
          invariant DestroyLive(Abs()) == DestroyLive(old(Abs()))
          decreases |live|
        {
          log := log + [Destroyed(live[0])];
          free := [live[0]] + free;
          live := live[1..];
        }
        free := [];
        nextContext := 1;
      }
      initialised := false;
      log := log + [CleanedUp];
    }

    /** The body of the loop. */
    method RunTurn(env: Env)
      requires Head(Abs()) && running
      modifies this
      ensures Head(Abs()) && Abs() == Turn(old(Abs()), env)
    {
      hide Head, Serve, StartRenderer, TidyClients, CleanupRenderer;
      TurnHead(Abs(), env);
      var wasEmpty := active == [];
      ServeClients(env);
      var isEmpty := active == [];
      if wasEmpty && !isEmpty {
        InitRenderer(env.initWorks);
      }
      Tidy();
      if !wasEmpty && isEmpty {
        Cleanup();
        if !loop {
          running := false;
        }
      }
    }

    /** The loop itself, over the environment's decisions. */
    method Run(envs: seq<Env>)
      requires Head(Abs())
      modifies this
      ensures Head(Abs()) && Abs() == After(old(Abs()), envs)
    {
      hide Head, Turn;
      var i := 0;
      assert envs[0..] == envs;
      while i < |envs| && running
        invariant 0 <= i <= |envs| && Head(Abs())
        invariant After(Abs(), envs[i..]) == After(old(Abs()), envs)
      {
        assert envs[i..][1..] == envs[i + 1..];
        RunTurn(envs[i]);
        i := i + 1;
      }
    }
  }
}
