/**
 * The render server in thread mode: any number of worker threads, their sync threads and the main thread share
 * a struct mutex and a dispatch mutex. Every step is one lock operation or one action between lock operations.
 */
module RenderVirgl {
  import opened Bags

  datatype Actor = Main | Worker(w: nat) | Sync(w: nat, k: nat)

  datatype Loc =
    // render_virgl_init
    | InitEnter | InitLocked | InitWantDispatch | InitBoth | InitReturned(ok: bool) | InitFail
    // a worker between init and fini
    | Inited | WantAdd | Adding | Idle | WantDispatch | Dispatching(ending: bool)
    | CallbackWant(ending: bool) | CallbackIn(ending: bool) | CallbackUse(ending: bool)
    | Ending | Destroyed | Removing
    // render_virgl_fini
    | FiniEnter | FiniLocked | FiniWantDispatch | FiniBoth | FiniLeave
    | Done
    // a sync thread inside a fence callback
    | SyncWant | SyncIn | SyncUse
    // the main thread
    | MainPoll | MainJoin(joined: nat) | MainClosing

  /** The shared struct, its two mutexes and whether virglrenderer is up. */
  datatype Virgl = Virgl(structOwner: Option<Actor>, dispatchOwner: Option<Actor>, initCount: int, initFlags: int,
                         contexts: seq<nat>, up: bool)

  datatype Thread = Thread(loc: Loc, flags: int, ctxId: int)

  datatype State = State(virgl: Virgl, main: Thread, mainInits: int, closing: bool,
                         workers: map<nat, Thread>, callbacks: map<(nat, nat), Loc>)

  // --- the routines --------------------------------------------------------------------------

  ghost predicate TakeStruct(v: Virgl, a: Actor, v': Virgl) {
    v.structOwner == None && v' == v.(structOwner := Some(a))
  }

  ghost predicate TakeDispatch(v: Virgl, a: Actor, v': Virgl) {
    v.dispatchOwner == None && v' == v.(dispatchOwner := Some(a))
  }

  /** `render_virgl_init`; it ends in `Inited` or, on failure, in `Done`. */
  ghost predicate InitStep(v: Virgl, a: Actor, flags: int, l: Loc, v': Virgl, l': Loc) {
    match l
    case InitEnter => l' == InitLocked && TakeStruct(v, a, v')
    case InitLocked =>
      if v.initCount == 0 then l' == InitWantDispatch && v' == v
      else if v.initFlags != flags then l' == InitFail && v' == v
      else l' == Inited && v' == v.(initCount := v.initCount + 1, structOwner := None)
    case InitWantDispatch => l' == InitBoth && TakeDispatch(v, a, v')
    case InitBoth =>
      exists ok :: l' == InitReturned(ok) && v' == v.(up := ok, dispatchOwner := None)
    case InitReturned(ok) =>
      if ok then
        l' == Inited
        && v' == v.(contexts := [], initFlags := flags, initCount := v.initCount + 1, structOwner := None)
      else l' == Done && v' == v.(structOwner := None)
    case InitFail => l' == Done && v' == v.(structOwner := None)
    case _ => false
  }

  /** `render_virgl_fini`; it ends in `Done`. */
  ghost predicate FiniStep(v: Virgl, a: Actor, l: Loc, v': Virgl, l': Loc) {
    match l
    case FiniEnter => l' == FiniLocked && TakeStruct(v, a, v')
    case FiniLocked =>
      if v.initCount == 0 then l' == FiniLeave && v' == v
      else
        v' == v.(initCount := v.initCount - 1)
        && l' == if v'.initCount == 0 then FiniWantDispatch else FiniLeave
    case FiniWantDispatch => l' == FiniBoth && TakeDispatch(v, a, v')
    case FiniBoth => l' == FiniLeave && v' == v.(up := false, dispatchOwner := None)
    case FiniLeave => l' == Done && v' == v.(structOwner := None)
    case _ => false
  }

  function Without(xs: seq<nat>, w: nat): seq<nat> {
    if xs == [] then [] else (if xs[0] == w then [] else [xs[0]]) + Without(xs[1..], w)
  }

  /** A worker between init and fini: registering, dispatching with fence callbacks, and unregistering. */
  ghost predicate BodyStep(s: State, w: nat, l: Loc, v': Virgl, l': Loc) {
    var v, a := s.virgl, Worker(w);
    match l
    case Inited => (l' == WantAdd || l' == FiniEnter) && v' == v
    case WantAdd => l' == Adding && TakeStruct(v, a, v')
    case Adding => l' == Idle && v' == v.(contexts := v.contexts + [w], structOwner := None)
    case Idle => (l' == WantDispatch || l' == Ending) && v' == v
    case WantDispatch => l' == Dispatching(false) && TakeDispatch(v, a, v')
    case Dispatching(ending) =>
      || (l' == CallbackWant(ending) && v' == v)
      || (!ending && (l' == Idle || l' == Ending) && v' == v.(dispatchOwner := None))
      // destroying the context joins its sync threads first
      || (ending && (forall k: nat :: (w, k) !in s.callbacks) && l' == Destroyed && v' == v.(dispatchOwner := None))
    case CallbackWant(ending) => l' == CallbackIn(ending) && TakeStruct(v, a, v')
    case CallbackIn(ending) => l' == CallbackUse(ending) && v' == v.(structOwner := None)
    // the context found under the lock is used after it was released
    case CallbackUse(ending) => l' == Dispatching(ending) && v' == v
    case Ending => l' == Dispatching(true) && TakeDispatch(v, a, v')
    case Destroyed => l' == Removing && TakeStruct(v, a, v')
    case Removing => l' == FiniEnter && v' == v.(contexts := Without(v.contexts, w), structOwner := None)
    case _ => false
  }

  ghost predicate WorkerStep(s: State, w: nat, t: State) {
    && w in s.workers && w in t.workers
    && var me, l' := s.workers[w], t.workers[w].loc;
       && t == s.(virgl := t.virgl, workers := s.workers[w := me.(loc := l')])
       && (|| InitStep(s.virgl, Worker(w), me.flags, me.loc, t.virgl, l')
           || FiniStep(s.virgl, Worker(w), me.loc, t.virgl, l')
           || BodyStep(s, w, me.loc, t.virgl, l'))
  }

  /** A context whose sync threads may run. */
  predicate Live(l: Loc) {
    l.Idle? || l.WantDispatch? || l.Dispatching? || l.CallbackWant? || l.CallbackIn? || l.CallbackUse? || l.Ending?
  }

  ghost predicate SyncStep(s: State, w: nat, k: nat, t: State) {
    var a := Sync(w, k);
    if (w, k) !in s.callbacks then
      && w in s.workers && Live(s.workers[w].loc)
      && t == s.(callbacks := s.callbacks[(w, k) := SyncWant])
    else if s.callbacks[(w, k)] == SyncWant then
      && TakeStruct(s.virgl, a, t.virgl)
      && t == s.(virgl := t.virgl, callbacks := s.callbacks[(w, k) := SyncIn])
    else if s.callbacks[(w, k)] == SyncIn then
      t == s.(virgl := s.virgl.(structOwner := None), callbacks := s.callbacks[(w, k) := SyncUse])
    else
      t == s.(callbacks := s.callbacks - {(w, k)})
  }

  /** Requests served by the main thread: init, create a worker, join one; closing joins all workers before fini. */
  ghost predicate MainStep(s: State, t: State) {
    var v, me := s.virgl, s.main;
    match me.loc
    case MainPoll =>
      || (exists flags :: t == s.(main := me.(loc := InitEnter, flags := flags)))
      || (exists w: nat, flags, id :: w !in s.workers
            && t == s.(workers := s.workers[w := Thread(InitEnter, flags, id)]))
      || (exists w :: w in s.workers && t == s.(main := me.(loc := MainJoin(w))))
      || t == s.(main := me.(loc := MainClosing), closing := true)
    case MainJoin(w) =>
      && w in s.workers && s.workers[w].loc == Done
      && t == s.(main := me.(loc := if s.closing then MainClosing else MainPoll), workers := s.workers - {w})
    case MainClosing =>
      if s.workers == map[] then t == s.(main := me.(loc := FiniEnter))
      else exists w :: w in s.workers && t == s.(main := me.(loc := MainJoin(w)))
    case _ =>
      exists l' :: RoutineStep(v, me.flags, me.loc, t.virgl, l') && t == AfterRoutine(s, t.virgl, l')
  }

  /** The main thread inside init or fini. */
  ghost predicate RoutineStep(v: Virgl, flags: int, l: Loc, v': Virgl, l': Loc) {
    InitStep(v, Main, flags, l, v', l') || FiniStep(v, Main, l, v', l')
  }

  /** Init returns to polling; fini is the end. The main thread's own inits are tallied in `mainInits`. */
  ghost function AfterRoutine(s: State, v': Virgl, l': Loc): State {
    var l := s.main.loc;
    s.(virgl := v',
       main := s.main.(loc := if l'.Inited? || (l'.Done? && !l.FiniLeave?) then MainPoll else l'),
       mainInits := if l'.Inited? then s.mainInits + 1
                    else if l.FiniLocked? && s.virgl.initCount != 0 then s.mainInits - 1 else s.mainInits)
  }

  ghost predicate Next(s: State, a: Actor, t: State) {
    match a
    case Main => MainStep(s, t)
    case Worker(w) => WorkerStep(s, w, t)
    case Sync(w, k) => SyncStep(s, w, k, t)
  }

  const START := State(Virgl(None, None, 0, 0, [], false), Thread(MainPoll, 0, 0), 0, false, map[], map[])

  // --- the invariant -------------------------------------------------------------------------

  predicate HoldsStruct(l: Loc) {
    l.InitLocked? || l.InitWantDispatch? || l.InitBoth? || l.InitReturned? || l.InitFail? || l.Adding?
    || l.CallbackIn? || l.Removing? || l.FiniLocked? || l.FiniWantDispatch? || l.FiniBoth? || l.FiniLeave? || l.SyncIn?
  }

  predicate HoldsDispatch(l: Loc) {
    l.InitBoth? || l.FiniBoth? || l.Dispatching? || l.CallbackWant? || l.CallbackIn? || l.CallbackUse?
  }

  /** The worker's successful init has not been undone yet. */
  predicate Counted(l: Loc) {
    l.Inited? || l.WantAdd? || l.Adding? || Live(l) || l.Destroyed? || l.Removing? || l.FiniEnter? || l.FiniLocked?
  }

  predicate Listed(l: Loc) {
    Live(l) || l.Destroyed? || l.Removing?
  }

  ghost function Exists(s: State, a: Actor): bool {
    match a
    case Main => true
    case Worker(w) => w in s.workers
    case Sync(w, k) => (w, k) in s.callbacks
  }

  ghost function LocOf(s: State, a: Actor): Loc
    requires Exists(s, a)
  {
    match a
    case Main => s.main.loc
    case Worker(w) => s.workers[w].loc
    case Sync(w, k) => s.callbacks[(w, k)]
  }

  function CountedWorkers(s: State): set<nat> {
    set w | w in s.workers && Counted(s.workers[w].loc)
  }

  /** An actor owns a mutex exactly when its location says so. */
  ghost predicate LocksOk(s: State) {
    forall a :: Exists(s, a) ==>
      && (HoldsStruct(LocOf(s, a)) <==> s.virgl.structOwner == Some(a))
      && (HoldsDispatch(LocOf(s, a)) <==> s.virgl.dispatchOwner == Some(a))
  }

  ghost predicate OwnersExist(s: State) {
    && (s.virgl.structOwner.Some? ==> Exists(s, s.virgl.structOwner.value))
    && (s.virgl.dispatchOwner.Some? ==> Exists(s, s.virgl.dispatchOwner.value))
  }

  /** The roles: the main thread and workers stay in their parts of the program, sync threads in callbacks. */
  ghost predicate RolesOk(s: State) {
    && (var l := s.main.loc;
        || l.MainPoll? || l.MainClosing? || l.Done? || (l.MainJoin? && l.joined in s.workers)
        || l.InitEnter? || l.InitLocked? || l.InitWantDispatch? || l.InitBoth? || l.InitReturned? || l.InitFail?
        || l.FiniEnter? || l.FiniLocked? || l.FiniWantDispatch? || l.FiniBoth? || l.FiniLeave?)
    && (forall w :: w in s.workers ==>
          var l := s.workers[w].loc;
          !l.MainPoll? && !l.MainJoin? && !l.MainClosing? && !l.SyncWant? && !l.SyncIn? && !l.SyncUse?)
    && (forall c :: c in s.callbacks ==>
          && (s.callbacks[c].SyncWant? || s.callbacks[c].SyncIn? || s.callbacks[c].SyncUse?)
          && c.0 in s.workers && Live(s.workers[c.0].loc))
  }

  /** The main thread runs fini only after the last worker was joined. */
  ghost predicate ClosingOk(s: State) {
    var l := s.main.loc;
    l.FiniEnter? || l.FiniLocked? || l.FiniWantDispatch? || l.FiniBoth? || l.FiniLeave? || l.Done? ==>
      s.workers == map[]
  }

  /** Locations inside init or fini at which no init is outstanding. */
  predicate AtZero(l: Loc) {
    l.InitWantDispatch? || l.InitBoth? || l.InitReturned? || l.FiniWantDispatch? || l.FiniBoth?
  }

  /** `init_count` is the number of successful inits not yet undone. */
  ghost predicate CountOk(s: State) {
    && s.mainInits >= 0
    && s.virgl.initCount == |CountedWorkers(s)| + s.mainInits
    && (forall a :: Exists(s, a) && AtZero(LocOf(s, a)) ==> s.virgl.initCount == 0)
  }

  /** Who holds a counted init was initialised with the current flags. */
  ghost predicate FlagsOk(s: State) {
    forall w :: w in s.workers && Counted(s.workers[w].loc) ==> s.workers[w].flags == s.virgl.initFlags
  }

  /** The context list names the registered workers, each once. */
  ghost predicate ListOk(s: State) {
    && (forall w :: w in s.virgl.contexts <==> w in s.workers && Listed(s.workers[w].loc))
    && (forall i, j :: 0 <= i < j < |s.virgl.contexts| ==> s.virgl.contexts[i] != s.virgl.contexts[j])
  }

  /** Whether virglrenderer is up at a location that found no init outstanding. */
  predicate UpAt(l: Loc) {
    l == InitReturned(true) || l.FiniWantDispatch? || l.FiniBoth?
  }

  /** virglrenderer is up exactly while inits are outstanding, or as the routine that is at zero says. */
  ghost predicate UpOk(s: State) {
    && (s.virgl.initCount > 0 ==> s.virgl.up)
    && (forall a :: Exists(s, a) && AtZero(LocOf(s, a)) ==> (s.virgl.up <==> UpAt(LocOf(s, a))))
    && (s.virgl.initCount == 0 && (forall a :: Exists(s, a) ==> !AtZero(LocOf(s, a))) ==> !s.virgl.up)
  }

  ghost predicate Inv(s: State) {
    && LocksOk(s) && OwnersExist(s) && RolesOk(s) && ClosingOk(s) && CountOk(s) && FlagsOk(s) && ListOk(s) && UpOk(s)
  }

  // --- what one step does to locks and counts ------------------------------------------------------

  /** The owner fields follow the locations. */
  ghost predicate LockMove(v: Virgl, a: Actor, l: Loc, v': Virgl, l': Loc) {
    && (HoldsStruct(l') && !HoldsStruct(l) ==> v.structOwner == None)
    && v'.structOwner == (if HoldsStruct(l') then Some(a) else if HoldsStruct(l) then None else v.structOwner)
    && (HoldsDispatch(l') && !HoldsDispatch(l) ==> v.dispatchOwner == None)
    && v'.dispatchOwner == (if HoldsDispatch(l') then Some(a) else if HoldsDispatch(l) then None else v.dispatchOwner)
  }

  ghost predicate OwnsAsLocated(v: Virgl, a: Actor, l: Loc) {
    && (HoldsStruct(l) <==> v.structOwner == Some(a))
    && (HoldsDispatch(l) <==> v.dispatchOwner == Some(a))
  }

  lemma InitMove(v: Virgl, a: Actor, flags: int, l: Loc, v': Virgl, l': Loc)
    requires InitStep(v, a, flags, l, v', l') && OwnsAsLocated(v, a, l)
    ensures LockMove(v, a, l, v', l')
  {
  }

  lemma FiniMove(v: Virgl, a: Actor, l: Loc, v': Virgl, l': Loc)
    requires FiniStep(v, a, l, v', l') && OwnsAsLocated(v, a, l)
    ensures LockMove(v, a, l, v', l')
  {
  }

  lemma BodyMove(s: State, w: nat, l: Loc, v': Virgl, l': Loc)
    requires BodyStep(s, w, l, v', l') && OwnsAsLocated(s.virgl, Worker(w), l)
    ensures LockMove(s.virgl, Worker(w), l, v', l')
  {
    hide Without;
  }

  /** A step of one actor, seen through locations and owners only. */
  ghost predicate Moves(s: State, a: Actor, t: State) {
    && Exists(s, a) && Exists(t, a)
    && (forall b :: b != a ==> (Exists(s, b) <==> Exists(t, b)) && (Exists(s, b) ==> LocOf(t, b) == LocOf(s, b)))
    && LockMove(s.virgl, a, LocOf(s, a), t.virgl, LocOf(t, a))
  }

  lemma LocksMove(s: State, a: Actor, t: State)
    requires LocksOk(s) && OwnersExist(s) && Moves(s, a, t)
    ensures LocksOk(t) && OwnersExist(t)
  {
    forall b | Exists(t, b)
      ensures HoldsStruct(LocOf(t, b)) <==> t.virgl.structOwner == Some(b)
      ensures HoldsDispatch(LocOf(t, b)) <==> t.virgl.dispatchOwner == Some(b)
    {
      assert Exists(s, b);
      assert b != a ==> LocOf(t, b) == LocOf(s, b);
    }
  }

  /** Only the struct owner is inside init or fini at zero. */
  lemma ZeroUnique(s: State, a: Actor, b: Actor)
    requires LocksOk(s) && Exists(s, a) && Exists(s, b) && HoldsStruct(LocOf(s, a)) && HoldsStruct(LocOf(s, b))
    ensures a == b
  {
  }

  // --- workers -------------------------------------------------------------------------------

  lemma WorkerMoves(s: State, w: nat, t: State)
    requires LocksOk(s) && WorkerStep(s, w, t)
    ensures Moves(s, Worker(w), t)
  {
    var me, l' := s.workers[w], t.workers[w].loc;
    assert Exists(s, Worker(w)) && LocOf(s, Worker(w)) == me.loc;
    assert OwnsAsLocated(s.virgl, Worker(w), me.loc);
    if InitStep(s.virgl, Worker(w), me.flags, me.loc, t.virgl, l') {
      InitMove(s.virgl, Worker(w), me.flags, me.loc, t.virgl, l');
    } else if FiniStep(s.virgl, Worker(w), me.loc, t.virgl, l') {
      FiniMove(s.virgl, Worker(w), me.loc, t.virgl, l');
    } else {
      BodyMove(s, w, me.loc, t.virgl, l');
    }
  }

  function One(b: bool): int { if b then 1 else 0 }

  /** What a worker's step does to the struct, seen through its locations. */
  ghost predicate Effect(v: Virgl, w: nat, flags: int, l: Loc, v': Virgl, l': Loc) {
    && v'.initCount == v.initCount + One(Counted(l')) - One(Counted(l))
    && (v'.initCount != v.initCount || v'.initFlags != v.initFlags || AtZero(l) || AtZero(l') ==> HoldsStruct(l))
    && (v'.up != v.up ==> AtZero(l))
    && (AtZero(l') ==> v'.initCount == 0)
    && (Counted(l') && !Counted(l) ==> flags == v'.initFlags)
    && (v'.initFlags != v.initFlags ==> v.initCount == 0)
    && (if Listed(l') && !Listed(l) then v'.contexts == v.contexts + [w]
        else if Listed(l) && !Listed(l') then v'.contexts == Without(v.contexts, w)
        else v'.contexts == v.contexts || (v'.contexts == [] && v.initCount == 0))
    && (v'.initCount > 0 ==> v'.up)
    && (AtZero(l') ==> (v'.up <==> UpAt(l')))
    && (v'.initCount == 0 && !AtZero(l') && HoldsStruct(l) ==> !v'.up)
  }

  /** The same for what was known before the step. */
  ghost predicate Before(v: Virgl, l: Loc) {
    && v.initCount >= One(Counted(l))
    && (AtZero(l) ==> v.initCount == 0)
    && (v.initCount > 0 ==> v.up)
    && (AtZero(l) ==> (v.up <==> UpAt(l)))
    && (v.initCount == 0 && !AtZero(l) && HoldsStruct(l) ==> !v.up)
  }

  lemma InitEffect(v: Virgl, w: nat, flags: int, l: Loc, v': Virgl, l': Loc)
    requires InitStep(v, Worker(w), flags, l, v', l') && Before(v, l)
    ensures Effect(v, w, flags, l, v', l')
  {
  }

  lemma FiniEffect(v: Virgl, w: nat, flags: int, l: Loc, v': Virgl, l': Loc)
    requires FiniStep(v, Worker(w), l, v', l') && Before(v, l)
    ensures Effect(v, w, flags, l, v', l')
  {
  }

  /** A step of a worker's own leaves the init count, the flags and virglrenderer alone. */
  lemma BodyKeeps(s: State, w: nat, l: Loc, v': Virgl, l': Loc)
    requires BodyStep(s, w, l, v', l')
    ensures v'.initCount == s.virgl.initCount && v'.initFlags == s.virgl.initFlags && v'.up == s.virgl.up
    ensures Counted(l) && Counted(l') && !AtZero(l) && !AtZero(l')
    ensures if Listed(l') && !Listed(l) then v'.contexts == s.virgl.contexts + [w]
            else if Listed(l) && !Listed(l') then v'.contexts == Without(s.virgl.contexts, w)
            else v'.contexts == s.virgl.contexts
  {
    hide Without;
  }

  lemma BodyEffect(s: State, w: nat, flags: int, l: Loc, v': Virgl, l': Loc)
    requires BodyStep(s, w, l, v', l') && Before(s.virgl, l)
    ensures Effect(s.virgl, w, flags, l, v', l')
  {
    hide Without, BodyStep, Counted, AtZero, Listed, UpAt, HoldsStruct;
    BodyKeeps(s, w, l, v', l');
  }

  lemma WorkerBefore(s: State, w: nat)
    requires Inv(s) && w in s.workers
    ensures Before(s.virgl, s.workers[w].loc)
  {
    var a := Worker(w);
    assert Exists(s, a) && LocOf(s, a) == s.workers[w].loc;
    if Counted(s.workers[w].loc) {
      assert w in CountedWorkers(s);
    }
    if HoldsStruct(LocOf(s, a)) && !AtZero(LocOf(s, a)) {
      forall b | Exists(s, b) ensures !AtZero(LocOf(s, b)) {
        if AtZero(LocOf(s, b)) {
          ZeroUnique(s, a, b);
        }
      }
    }
  }

  lemma WorkerEffect(s: State, w: nat, t: State)
    requires Inv(s) && WorkerStep(s, w, t)
    ensures Effect(s.virgl, w, s.workers[w].flags, s.workers[w].loc, t.virgl, t.workers[w].loc)
  {
    hide Inv;
    WorkerBefore(s, w);
    var me, l' := s.workers[w], t.workers[w].loc;
    if InitStep(s.virgl, Worker(w), me.flags, me.loc, t.virgl, l') {
      InitEffect(s.virgl, w, me.flags, me.loc, t.virgl, l');
    } else if FiniStep(s.virgl, Worker(w), me.loc, t.virgl, l') {
      FiniEffect(s.virgl, w, me.flags, me.loc, t.virgl, l');
    } else {
      BodyEffect(s, w, me.flags, me.loc, t.virgl, l');
    }
  }

  ghost predicate WorkerMoved(s: State, w: nat, t: State) {
    && w in s.workers && w in t.workers
    && t == s.(virgl := t.virgl, workers := s.workers[w := s.workers[w].(loc := t.workers[w].loc)])
    && Effect(s.virgl, w, s.workers[w].flags, s.workers[w].loc, t.virgl, t.workers[w].loc)
    && Moves(s, Worker(w), t)
  }

  lemma WorkerCount(s: State, w: nat, t: State)
    requires WorkerMoved(s, w, t) && CountOk(s) && LocksOk(s)
    ensures CountOk(t)
  {
    var l, l' := s.workers[w].loc, t.workers[w].loc;
    assert LocOf(s, Worker(w)) == l && LocOf(t, Worker(w)) == l';
    if Counted(l) && !Counted(l') {
      assert CountedWorkers(t) == CountedWorkers(s) - {w};
      assert w in CountedWorkers(s);
    } else if !Counted(l) && Counted(l') {
      assert CountedWorkers(t) == CountedWorkers(s) + {w};
    } else {
      assert CountedWorkers(t) == CountedWorkers(s);
    }
    OthersAtZero(s, Worker(w), t);
  }

  /** Whoever else is at zero keeps the mover from touching the count. */
  lemma OthersAtZero(s: State, a: Actor, t: State)
    requires LocksOk(s) && Moves(s, a, t)
    ensures forall b :: b != a && Exists(t, b) && AtZero(LocOf(t, b)) ==>
      Exists(s, b) && AtZero(LocOf(s, b)) && !HoldsStruct(LocOf(s, a))
  {
    forall b | b != a && Exists(t, b) && AtZero(LocOf(t, b))
      ensures Exists(s, b) && AtZero(LocOf(s, b)) && !HoldsStruct(LocOf(s, a))
    {
      assert Exists(s, b) && LocOf(s, b) == LocOf(t, b);
      if HoldsStruct(LocOf(s, a)) {
        ZeroUnique(s, a, b);
        assert false;
      }
    }
  }

  lemma WorkerUp(s: State, w: nat, t: State)
    requires WorkerMoved(s, w, t) && UpOk(s) && LocksOk(s)
    ensures UpOk(t)
  {
    var a, l, l' := Worker(w), s.workers[w].loc, t.workers[w].loc;
    assert Exists(s, a) && LocOf(s, a) == l && Exists(t, a) && LocOf(t, a) == l';
    OthersAtZero(s, a, t);
    if t.virgl.initCount == 0 && (forall b :: Exists(t, b) ==> !AtZero(LocOf(t, b))) && !HoldsStruct(l) {
      assert !AtZero(l);
      forall b | Exists(s, b) ensures !AtZero(LocOf(s, b)) {
        assert b == a || (Exists(t, b) && LocOf(t, b) == LocOf(s, b));
      }
    }
  }

  lemma WorkerFlags(s: State, w: nat, t: State)
    requires WorkerMoved(s, w, t) && FlagsOk(s) && CountOk(s)
    ensures FlagsOk(t)
  {
    forall u | u in t.workers && Counted(t.workers[u].loc) ensures t.workers[u].flags == t.virgl.initFlags {
      if u != w {
        assert u in CountedWorkers(s);
      } else if Counted(s.workers[w].loc) {
        assert w in CountedWorkers(s);
      }
    }
  }

  lemma {:induction false} WithoutFacts(xs: seq<nat>, w: nat)
    ensures forall u :: u in Without(xs, w) <==> u in xs && u != w
    ensures (forall i, j :: 0 <= i < j < |xs| ==> xs[i] != xs[j]) ==>
      forall i, j :: 0 <= i < j < |Without(xs, w)| ==> Without(xs, w)[i] != Without(xs, w)[j]
  {
    if xs != [] {
      WithoutFacts(xs[1..], w);
      assert xs == [xs[0]] + xs[1..];
      forall u ensures u in Without(xs, w) <==> u in xs && u != w {
        assert u in xs <==> u == xs[0] || u in xs[1..];
      }
      if forall i, j :: 0 <= i < j < |xs| ==> xs[i] != xs[j] {
        assert xs[0] !in xs[1..];
        assert xs[0] !in Without(xs[1..], w);
      }
    }
  }

  lemma WorkerList(s: State, w: nat, t: State)
    requires WorkerMoved(s, w, t) && ListOk(s) && CountOk(s)
    ensures ListOk(t)
  {
    var l, l' := s.workers[w].loc, t.workers[w].loc;
    if Listed(l) && !Listed(l') {
      WithoutFacts(s.virgl.contexts, w);
    } else if Listed(l) == Listed(l') && t.virgl.contexts != s.virgl.contexts {
      assert CountedWorkers(s) == {};
      assert forall u :: u in s.workers && Counted(s.workers[u].loc) ==> u in CountedWorkers(s);
    }
  }

  lemma WorkerRoles(s: State, w: nat, t: State)
    requires WorkerStep(s, w, t) && RolesOk(s) && ClosingOk(s)
    ensures RolesOk(t) && ClosingOk(t)
  {
    var l, l' := s.workers[w].loc, t.workers[w].loc;
    forall c | c in t.callbacks ensures c.0 in t.workers && Live(t.workers[c.0].loc) {
      assert c in s.callbacks && c == (c.0, c.1);
    }
  }

  lemma WorkerInv(s: State, w: nat, t: State)
    requires Inv(s) && WorkerStep(s, w, t)
    ensures Inv(t)
  {
    hide LocksOk, OwnersExist, RolesOk, ClosingOk, CountOk, FlagsOk, ListOk, UpOk, Moves, Effect;
    WorkerMoves(s, w, t);
    WorkerEffect(s, w, t);
    LocksMove(s, Worker(w), t);
    WorkerMovedIs(s, w, t);
    WorkerCount(s, w, t);
    WorkerUp(s, w, t);
    WorkerFlags(s, w, t);
    WorkerList(s, w, t);
    WorkerRoles(s, w, t);
  }

  lemma WorkerMovedIs(s: State, w: nat, t: State)
    requires WorkerStep(s, w, t) && Moves(s, Worker(w), t)
    requires Effect(s.virgl, w, s.workers[w].flags, s.workers[w].loc, t.virgl, t.workers[w].loc)
    ensures WorkerMoved(s, w, t)
  {
  }

  // --- sync threads and the main thread ------------------------------------------------------------

  lemma SyncInv(s: State, w: nat, k: nat, t: State)
    requires Inv(s) && SyncStep(s, w, k, t)
    ensures Inv(t)
  {
    var a := Sync(w, k);
    SyncLocks(s, w, k, t);
    assert CountedWorkers(t) == CountedWorkers(s);
    SyncZero(s, w, k, t);
  }

  lemma SyncLocks(s: State, w: nat, k: nat, t: State)
    requires LocksOk(s) && OwnersExist(s) && RolesOk(s) && SyncStep(s, w, k, t)
    ensures LocksOk(t) && OwnersExist(t)
  {
    var a := Sync(w, k);
    assert Exists(s, a) ==> OwnsAsLocated(s.virgl, a, LocOf(s, a));
    forall b | Exists(t, b)
      ensures HoldsStruct(LocOf(t, b)) <==> t.virgl.structOwner == Some(b)
      ensures HoldsDispatch(LocOf(t, b)) <==> t.virgl.dispatchOwner == Some(b)
    {
      assert b != a ==> Exists(s, b) && LocOf(t, b) == LocOf(s, b);
    }
  }

  lemma SyncZero(s: State, w: nat, k: nat, t: State)
    requires CountOk(s) && UpOk(s) && RolesOk(s) && SyncStep(s, w, k, t)
    requires CountedWorkers(t) == CountedWorkers(s)
    ensures CountOk(t) && UpOk(t)
  {
    var a := Sync(w, k);
    forall b | Exists(t, b) && AtZero(LocOf(t, b)) ensures Exists(s, b) && LocOf(s, b) == LocOf(t, b) {
      assert b != a;
    }
    forall b | Exists(s, b) && AtZero(LocOf(s, b)) ensures Exists(t, b) && LocOf(s, b) == LocOf(t, b) {
      assert b != a;
    }
  }

  lemma MainInv(s: State, t: State)
    requires Inv(s) && MainStep(s, t)
    ensures Inv(t)
  {
    match s.main.loc
    case MainPoll => MainPollInv(s, t);
    case MainJoin(w) => MainJoinInv(s, t);
    case MainClosing => MainClosingInv(s, t);
    case _ => MainRoutineInv(s, t);
  }

  /** Threads may appear before their first lock and vanish after their last; the main thread changes its mind. */
  ghost predicate Quiet(s: State, t: State) {
    && t.virgl == s.virgl && t.mainInits == s.mainInits && t.callbacks == s.callbacks
    && !HoldsStruct(s.main.loc) && !HoldsDispatch(s.main.loc) && !HoldsStruct(t.main.loc) && !HoldsDispatch(t.main.loc)
    && (forall w :: w in s.workers && w in t.workers ==> s.workers[w] == t.workers[w])
    && (forall w :: w in s.workers && w !in t.workers ==> s.workers[w].loc == Done)
    && (forall w :: w in t.workers && w !in s.workers ==> t.workers[w].loc == InitEnter)
  }

  lemma MainPollInv(s: State, t: State)
    requires Inv(s) && s.main.loc.MainPoll? && MainStep(s, t)
    ensures Inv(t)
  {
    hide LocksOk, OwnersExist, CountOk, FlagsOk, ListOk, UpOk, Quiet;
    PollQuiet(s, t);
    QuietInv(s, t);
  }

  lemma PollQuiet(s: State, t: State)
    requires s.main.loc.MainPoll? && MainStep(s, t)
    ensures Quiet(s, t)
  {
  }

  lemma MainClosingInv(s: State, t: State)
    requires Inv(s) && s.main.loc.MainClosing? && MainStep(s, t)
    ensures Inv(t)
  {
    hide LocksOk, OwnersExist, CountOk, FlagsOk, ListOk, UpOk;
    assert Quiet(s, t);
    QuietInv(s, t);
  }

  lemma MainJoinInv(s: State, t: State)
    requires Inv(s) && s.main.loc.MainJoin? && MainStep(s, t)
    ensures Inv(t)
  {
    hide LocksOk, OwnersExist, CountOk, FlagsOk, ListOk, UpOk;
    assert Quiet(s, t);
    QuietInv(s, t);
  }

  lemma QuietInv(s: State, t: State)
    requires LocksOk(s) && OwnersExist(s) && CountOk(s) && UpOk(s) && FlagsOk(s) && ListOk(s) && Quiet(s, t)
    ensures LocksOk(t) && OwnersExist(t) && CountOk(t) && UpOk(t) && FlagsOk(t) && ListOk(t)
  {
    hide LocksOk, OwnersExist, CountOk, UpOk, FlagsOk, ListOk, SameHolders, Quiet;
    QuietActors(s, t);
    QuietData(s, t);
    QuietLocks(s, t);
    QuietZero(s, t);
  }

  lemma QuietData(s: State, t: State)
    requires Quiet(s, t) && FlagsOk(s) && ListOk(s)
    ensures FlagsOk(t) && ListOk(t) && t.mainInits == s.mainInits && CountedWorkers(t) == CountedWorkers(s)
  {
    assert CountedWorkers(t) == CountedWorkers(s);
    QuietList(s, t);
  }

  lemma QuietList(s: State, t: State)
    requires Quiet(s, t) && ListOk(s)
    ensures ListOk(t)
  {
  }

  /** Whoever holds a mutex before or after is the same actor at the same place. */
  ghost predicate SameHolders(s: State, t: State) {
    && t.virgl == s.virgl
    && (forall b :: Exists(s, b) && (HoldsStruct(LocOf(s, b)) || HoldsDispatch(LocOf(s, b))) ==>
          Exists(t, b) && LocOf(t, b) == LocOf(s, b))
    && (forall b :: Exists(t, b) && (HoldsStruct(LocOf(t, b)) || HoldsDispatch(LocOf(t, b))) ==>
          Exists(s, b) && LocOf(t, b) == LocOf(s, b))
  }

  lemma QuietActors(s: State, t: State)
    requires Quiet(s, t)
    ensures SameHolders(s, t)
  {
  }

  lemma QuietLocks(s: State, t: State)
    requires LocksOk(s) && OwnersExist(s) && SameHolders(s, t)
    ensures LocksOk(t) && OwnersExist(t)
  {
    forall b | Exists(t, b)
      ensures HoldsStruct(LocOf(t, b)) <==> t.virgl.structOwner == Some(b)
      ensures HoldsDispatch(LocOf(t, b)) <==> t.virgl.dispatchOwner == Some(b)
    {
      if Exists(s, b) {
        assert OwnsAsLocated(s.virgl, b, LocOf(s, b));
      }
    }
  }

  lemma QuietZero(s: State, t: State)
    requires CountOk(s) && UpOk(s) && SameHolders(s, t) && t.mainInits == s.mainInits
    requires CountedWorkers(t) == CountedWorkers(s)
    ensures CountOk(t) && UpOk(t)
  {
  }

  /** Steps of the main thread inside init or fini. */
  lemma MainRoutineInv(s: State, t: State)
    requires Inv(s) && MainStep(s, t)
    requires !s.main.loc.MainPoll? && !s.main.loc.MainJoin? && !s.main.loc.MainClosing?
    ensures Inv(t)
  {
    hide LocksOk, OwnersExist, RolesOk, ClosingOk, CountOk, FlagsOk, ListOk, UpOk, Moves, MainChange;
    MainMoves(s, t);
    LocksMove(s, Main, t);
    MainChanges(s, t);
    MainCount(s, t);
    MainUp(s, t);
    MainData(s, t);
    MainRoles(s, t);
  }

  /** What such a step does to the struct. */
  ghost predicate MainChange(s: State, t: State) {
    var v, v', l, l' := s.virgl, t.virgl, s.main.loc, t.main.loc;
    && t == s.(virgl := v', main := s.main.(loc := l'), mainInits := t.mainInits)
    && v'.initCount - v.initCount == t.mainInits - s.mainInits && t.mainInits >= 0
    && (v'.initCount != v.initCount || AtZero(l) || AtZero(l') ==> HoldsStruct(l))
    && (v'.up != v.up ==> AtZero(l))
    && (AtZero(l') ==> v'.initCount == 0)
    && (v'.initFlags != v.initFlags || v'.contexts != v.contexts ==> v.initCount == 0)
    && (v'.contexts == v.contexts || v'.contexts == [])
    && (v'.initCount > 0 ==> v'.up)
    && (AtZero(l') ==> (v'.up <==> UpAt(l')))
    && (v'.initCount == 0 && !AtZero(l') && HoldsStruct(l) ==> !v'.up)
  }

  lemma MainMoves(s: State, t: State)
    requires LocksOk(s) && RolesOk(s) && MainStep(s, t)
    requires !s.main.loc.MainPoll? && !s.main.loc.MainJoin? && !s.main.loc.MainClosing?
    ensures Moves(s, Main, t)
  {
    hide LocksOk, RolesOk, InitStep, FiniStep, LockMove;
    var l := s.main.loc;
    MainOwns(s);
    var l' :| RoutineStep(s.virgl, s.main.flags, l, t.virgl, l') && t == AfterRoutine(s, t.virgl, l');
    if InitStep(s.virgl, Main, s.main.flags, l, t.virgl, l') {
      InitMove(s.virgl, Main, s.main.flags, l, t.virgl, l');
    } else {
      FiniMove(s.virgl, Main, l, t.virgl, l');
    }
    MainLockMove(s.virgl, l, t.virgl, l', t.main.loc);
    MainAlone(s, t);
  }

  lemma MainOwns(s: State)
    requires LocksOk(s)
    ensures OwnsAsLocated(s.virgl, Main, s.main.loc)
  {
    assert Exists(s, Main) && LocOf(s, Main) == s.main.loc;
  }

  lemma MainLockMove(v: Virgl, l: Loc, v': Virgl, l': Loc, l'': Loc)
    requires LockMove(v, Main, l, v', l')
    requires l'' == l' || (l''.MainPoll? && (l'.Inited? || l'.Done?))
    ensures LockMove(v, Main, l, v', l'')
  {
  }

  lemma MainAlone(s: State, t: State)
    requires t == s.(virgl := t.virgl, main := t.main, mainInits := t.mainInits)
    requires LockMove(s.virgl, Main, s.main.loc, t.virgl, t.main.loc)
    ensures Moves(s, Main, t)
  {
  }

  /** What holds before the main thread's next step in a routine. */
  ghost predicate MainReady(s: State) {
    var v, l := s.virgl, s.main.loc;
    && (AtZero(l) ==> v.initCount == 0)
    && (v.initCount > 0 ==> v.up)
    && (AtZero(l) ==> (v.up <==> UpAt(l)))
    && (v.initCount == 0 && !AtZero(l) && HoldsStruct(l) ==> !v.up)
    && (l.FiniLocked? ==> v.initCount == s.mainInits)
    && s.mainInits >= 0 && v.initCount >= 0
  }

  lemma MainBefore(s: State)
    requires Inv(s)
    ensures MainReady(s)
  {
    var l := s.main.loc;
    assert Exists(s, Main) && LocOf(s, Main) == l;
    if HoldsStruct(l) && !AtZero(l) {
      forall b | Exists(s, b) ensures !AtZero(LocOf(s, b)) {
        if AtZero(LocOf(s, b)) {
          ZeroUnique(s, Main, b);
        }
      }
    }
    if l.FiniLocked? {
      assert CountedWorkers(s) == {};
    }
  }

  lemma MainChanges(s: State, t: State)
    requires Inv(s) && MainStep(s, t)
    requires !s.main.loc.MainPoll? && !s.main.loc.MainJoin? && !s.main.loc.MainClosing?
    ensures MainChange(s, t)
  {
    hide Inv, MainReady, MainChange, InitStep, FiniStep, AfterRoutine;
    MainBefore(s);
    var l' :| RoutineStep(s.virgl, s.main.flags, s.main.loc, t.virgl, l') && t == AfterRoutine(s, t.virgl, l');
    if InitStep(s.virgl, Main, s.main.flags, s.main.loc, t.virgl, l') {
      MainInits(s, t.virgl, l');
    } else {
      MainFinis(s, t.virgl, l');
    }
  }

  lemma MainInits(s: State, v': Virgl, l': Loc)
    requires MainReady(s) && InitStep(s.virgl, Main, s.main.flags, s.main.loc, v', l')
    ensures MainChange(s, AfterRoutine(s, v', l'))
  {
  }

  lemma MainFinis(s: State, v': Virgl, l': Loc)
    requires MainReady(s) && FiniStep(s.virgl, Main, s.main.loc, v', l')
    ensures MainChange(s, AfterRoutine(s, v', l'))
  {
  }

  lemma MainCount(s: State, t: State)
    requires MainChange(s, t) && CountOk(s) && LocksOk(s) && Moves(s, Main, t)
    ensures CountOk(t)
  {
    assert CountedWorkers(t) == CountedWorkers(s);
    assert LocOf(s, Main) == s.main.loc && LocOf(t, Main) == t.main.loc;
    OthersAtZero(s, Main, t);
  }

  lemma MainUp(s: State, t: State)
    requires MainChange(s, t) && UpOk(s) && LocksOk(s) && Moves(s, Main, t)
    ensures UpOk(t)
  {
    var l, l' := s.main.loc, t.main.loc;
    assert Exists(s, Main) && LocOf(s, Main) == l && Exists(t, Main) && LocOf(t, Main) == l';
    OthersAtZero(s, Main, t);
    if t.virgl.initCount == 0 && (forall b :: Exists(t, b) ==> !AtZero(LocOf(t, b))) && !HoldsStruct(l) {
      assert !AtZero(l);
      forall b | Exists(s, b) ensures !AtZero(LocOf(s, b)) {
        assert b == Main || (Exists(t, b) && LocOf(t, b) == LocOf(s, b));
      }
    }
  }

  lemma MainData(s: State, t: State)
    requires MainChange(s, t) && FlagsOk(s) && ListOk(s) && CountOk(s)
    ensures FlagsOk(t) && ListOk(t)
  {
    if t.virgl.initFlags != s.virgl.initFlags || t.virgl.contexts != s.virgl.contexts {
      assert CountedWorkers(s) == {};
      assert forall u :: u in s.workers && Counted(s.workers[u].loc) ==> u in CountedWorkers(s);
    }
  }

  lemma MainRoles(s: State, t: State)
    requires MainStep(s, t) && RolesOk(s) && ClosingOk(s)
    requires !s.main.loc.MainPoll? && !s.main.loc.MainJoin? && !s.main.loc.MainClosing?
    ensures RolesOk(t) && ClosingOk(t)
  {
  }

  // --- runs ----------------------------------------------------------------------------------

  lemma NextInv(s: State, a: Actor, t: State)
    requires Inv(s) && Next(s, a, t)
    ensures Inv(t)
  {
    hide Inv;
    match a
    case Main => MainInv(s, t);
    case Worker(w) => WorkerInv(s, w, t);
    case Sync(w, k) => SyncInv(s, w, k, t);
  }

  lemma StartInv()
    ensures Inv(START)
  {
    assert CountedWorkers(START) == {};
    assert forall a :: Exists(START, a) ==> a == Main;
  }

  /** A run of the server: at each index some actor takes a step. */
  ghost predicate IsRun(run: seq<State>) {
    && run != [] && run[0] == START
    && forall i :: 0 < i < |run| ==> SomeStep(run[i - 1], run[i])
  }

  ghost predicate SomeStep(s: State, t: State) {
    exists a :: Next(s, a, t)
  }

  lemma {:induction false} RunInv(run: seq<State>, i: nat)
    requires IsRun(run) && i < |run|
    ensures Inv(run[i])
  {
    if i == 0 {
      StartInv();
    } else {
      hide Inv, Next;
      RunInv(run, i - 1);
      assert SomeStep(run[i - 1], run[i]);
      var a :| Next(run[i - 1], a, run[i]);
      NextInv(run[i - 1], a, run[i]);
    }
  }

  ghost predicate Reachable(s: State) {
    exists run :: IsRun(run) && run[|run| - 1] == s
  }

  lemma ReachableInv(s: State)
    requires Reachable(s)
    ensures Inv(s)
  {
    var run :| IsRun(run) && run[|run| - 1] == s;
    RunInv(run, |run| - 1);
  }

  /**
   * `init_count` counts the outstanding inits, the flags cannot change under them, and cleanup follows the last
   * one.
   */
  lemma InitCountExact(s: State)
    requires Reachable(s)
    ensures s.virgl.initCount == |CountedWorkers(s)| + s.mainInits
    ensures s.virgl.initCount > 0 ==> s.virgl.up
    ensures forall w :: w in s.workers && Counted(s.workers[w].loc) ==> s.workers[w].flags == s.virgl.initFlags
  {
    ReachableInv(s);
  }

  /** While inits are outstanding no step changes the flags or takes the renderer down. */
  lemma StableWhileCounted(s: State, a: Actor, t: State)
    requires Reachable(s) && Next(s, a, t) && s.virgl.initCount > 0
    ensures t.virgl.initFlags == s.virgl.initFlags && t.virgl.up
  {
    hide IsRun, Inv;
    ReachableInv(s);
    match a
    case Main =>
      MainBefore(s);
      if !(s.main.loc.MainPoll? || s.main.loc.MainJoin? || s.main.loc.MainClosing?) {
        MainChanges(s, t);
      }
    case Worker(w) =>
      WorkerBefore(s, w);
      WorkerEffect(s, w, t);
    case Sync(w, k) =>
      MainBefore(s);
  }

  /** The list is empty whenever it is re-initialised and whenever virglrenderer is cleaned up. */
  lemma ListEmptyAtZero(s: State, a: Actor)
    requires Reachable(s) && Exists(s, a) && AtZero(LocOf(s, a))
    ensures s.virgl.contexts == []
  {
    ReachableInv(s);
    assert CountedWorkers(s) == {};
    assert forall u :: u in s.workers && Counted(s.workers[u].loc) ==> u in CountedWorkers(s);
    assert forall u :: u !in s.virgl.contexts;
    EmptyIf(s.virgl.contexts);
  }

  lemma EmptyIf(xs: seq<nat>)
    requires forall u :: u !in xs
    ensures xs == []
  {
    if |xs| > 0 {
      Head(xs);
      assert false;
    }
  }

  lemma Head(xs: seq<nat>)
    requires |xs| > 0
    ensures exists u :: u in xs
  {
    assert xs[0] in xs;
  }

  // --- no deadlock -----------------------------------------------------------------------------

  /** A dispatch holder outside init and fini owns a counted init. */
  lemma DispatchOwnerCounted(s: State, b: Actor)
    requires Inv(s) && s.virgl.dispatchOwner == Some(b)
    ensures Exists(s, b)
    ensures HoldsStruct(LocOf(s, b)) || (b.Worker? && b.w in CountedWorkers(s))
    ensures s.virgl.initCount == 0 ==> HoldsStruct(LocOf(s, b))
  {
    assert Exists(s, b) && HoldsDispatch(LocOf(s, b));
  }

  /** The nested lock never blocks: init and fini find the dispatch mutex free. */
  lemma NestedDispatchFree(s: State, a: Actor)
    requires Reachable(s) && Exists(s, a) && (LocOf(s, a).InitWantDispatch? || LocOf(s, a).FiniWantDispatch?)
    ensures s.virgl.dispatchOwner == None
  {
    ReachableInv(s);
    if s.virgl.dispatchOwner.Some? {
      var b := s.virgl.dispatchOwner.value;
      DispatchOwnerCounted(s, b);
      ZeroUnique(s, a, b);
    }
  }

  predicate WantsStruct(l: Loc) {
    l.InitEnter? || l.WantAdd? || l.CallbackWant? || l.Destroyed? || l.FiniEnter? || l.SyncWant?
  }

  predicate WantsDispatch(l: Loc) {
    l.InitWantDispatch? || l.WantDispatch? || l.Ending? || l.FiniWantDispatch?
  }

  /** `a` cannot take a step before `b` has taken some. */
  ghost predicate WaitsFor(s: State, a: Actor, b: Actor) {
    && Exists(s, a) && Exists(s, b)
    && var l := LocOf(s, a);
       || (WantsStruct(l) && s.virgl.structOwner == Some(b))
       || (WantsDispatch(l) && s.virgl.dispatchOwner == Some(b))
       || (l == Dispatching(true) && a.Worker? && b.Sync? && b.w == a.w)
       || (l.MainJoin? && b == Worker(l.joined) && LocOf(s, b) != Done)
  }

  /** How far an actor may be from the actor it ultimately waits for. */
  ghost function Rank(s: State, a: Actor): nat
    requires Exists(s, a)
  {
    var l := LocOf(s, a);
    if HoldsStruct(l) then 0
    else if a.Sync? then 1
    else if HoldsDispatch(l) then 2
    else if l.MainJoin? then 4
    else 3
  }

  lemma RankDrops(s: State, a: Actor, b: Actor)
    requires Reachable(s) && WaitsFor(s, a, b)
    ensures Rank(s, b) < Rank(s, a)
  {
    ReachableInv(s);
    var l := LocOf(s, a);
    if l.InitWantDispatch? || l.FiniWantDispatch? {
      NestedDispatchFree(s, a);
    }
    assert OwnsAsLocated(s.virgl, b, LocOf(s, b));
  }

  ghost predicate WaitChain(s: State, chain: seq<Actor>) {
    |chain| > 0 && forall i :: 0 < i < |chain| ==> WaitsFor(s, chain[i - 1], chain[i])
  }

  lemma ChainExists(s: State, a: Actor, b: Actor)
    requires WaitsFor(s, a, b)
    ensures Exists(s, a) && Exists(s, b)
  {
  }

  lemma {:induction false} ChainDrops(s: State, chain: seq<Actor>)
    requires Reachable(s) && WaitChain(s, chain) && |chain| > 1
    ensures Exists(s, chain[0]) && Exists(s, chain[|chain| - 1])
    ensures Rank(s, chain[|chain| - 1]) + |chain| - 1 <= Rank(s, chain[0])
  {
    hide Reachable, WaitsFor;
    assert WaitsFor(s, chain[1 - 1], chain[1]);
    RankDrops(s, chain[0], chain[1]);
    ChainExists(s, chain[0], chain[1]);
    if |chain| > 2 {
      var rest := chain[1..];
      forall i | 0 < i < |rest| ensures WaitsFor(s, rest[i - 1], rest[i]) {
        assert WaitsFor(s, chain[i + 1 - 1], chain[i + 1]);
      }
      ChainDrops(s, rest);
    }
  }

  /** No cycle of waiting actors, however many threads there are; no chain is longer than five. */
  lemma NoDeadlock(s: State, chain: seq<Actor>)
    requires Reachable(s) && WaitChain(s, chain) && |chain| > 1
    ensures chain[0] != chain[|chain| - 1]
    ensures |chain| <= 5
  {
    ChainDrops(s, chain);
  }

  ghost predicate CanMove(s: State, a: Actor) {
    exists t :: Next(s, a, t) && t != s
  }

  /** An actor that waits for no one can take a step. */
  lemma Progress(s: State, a: Actor)
    requires Reachable(s) && Exists(s, a) && LocOf(s, a) != Done
    requires forall b :: !WaitsFor(s, a, b)
    ensures CanMove(s, a)
  {
    hide IsRun;
    ReachableInv(s);
    Unblocked(s, a);
    match a
    case Main => MainProgress(s);
    case Worker(w) => WorkerProgress(s, w);
    case Sync(w, k) =>
      SyncProgress(s, w, k);
  }

  /** Whoever is waited for has not finished. */
  lemma WaitedNotDone(s: State, a: Actor, b: Actor)
    requires Reachable(s) && WaitsFor(s, a, b)
    ensures Exists(s, b) && LocOf(s, b) != Done
  {
    ReachableInv(s);
    assert OwnsAsLocated(s.virgl, b, LocOf(s, b));
  }

  lemma ChainLonger(s: State, a: Actor, chain: seq<Actor>)
    requires WaitChain(s, chain) && WaitsFor(s, a, chain[0])
    ensures WaitChain(s, [a] + chain)
  {
    var all := [a] + chain;
    forall i | 0 < i < |all| ensures WaitsFor(s, all[i - 1], all[i]) {
      if i > 1 {
        assert WaitsFor(s, chain[i - 2], chain[i - 1]);
      }
    }
  }

  /**
   * Some actor can always move: from every actor that is not done, following whom it waits for leads to an actor that
   * waits for no one and has a step to take.
   */
  lemma {:induction false} SomeoneMoves(s: State, a: Actor) returns (chain: seq<Actor>)
    requires Reachable(s) && Exists(s, a) && LocOf(s, a) != Done
    ensures WaitChain(s, chain) && chain[0] == a
    ensures CanMove(s, chain[|chain| - 1])
    decreases Rank(s, a)
  {
    hide Reachable, WaitsFor, Next;
    if b :| WaitsFor(s, a, b) {
      WaitedNotDone(s, a, b);
      RankDrops(s, a, b);
      var rest := SomeoneMoves(s, b);
      ChainLonger(s, a, rest);
      chain := [a] + rest;
    } else {
      Progress(s, a);
      chain := [a];
    }
  }

  lemma SyncProgress(s: State, w: nat, k: nat)
    requires RolesOk(s) && (w, k) in s.callbacks && (s.callbacks[(w, k)] == SyncWant ==> s.virgl.structOwner == None)
    ensures exists t :: Next(s, Sync(w, k), t) && t != s
  {
    var l := s.callbacks[(w, k)];
    var t := if l == SyncWant then
        s.(virgl := s.virgl.(structOwner := Some(Sync(w, k))), callbacks := s.callbacks[(w, k) := SyncIn])
      else if l == SyncIn then s.(virgl := s.virgl.(structOwner := None), callbacks := s.callbacks[(w, k) := SyncUse])
      else s.(callbacks := s.callbacks - {(w, k)});
    assert SyncStep(s, w, k, t);
    assert Next(s, Sync(w, k), t);
    assert (w, k) !in t.callbacks || t.callbacks[(w, k)] != l;
  }

  lemma Unblocked(s: State, a: Actor)
    requires Inv(s) && Exists(s, a) && forall b :: !WaitsFor(s, a, b)
    ensures WantsStruct(LocOf(s, a)) ==> s.virgl.structOwner == None
    ensures WantsDispatch(LocOf(s, a)) ==> s.virgl.dispatchOwner == None
    ensures a.Worker? && LocOf(s, a) == Dispatching(true) ==> forall k: nat :: (a.w, k) !in s.callbacks
    ensures a.Main? && s.main.loc.MainJoin? ==>
      s.main.loc.joined in s.workers && s.workers[s.main.loc.joined].loc == Done
  {
    if s.virgl.structOwner.Some? {
      assert !WaitsFor(s, a, s.virgl.structOwner.value);
    }
    if s.virgl.dispatchOwner.Some? {
      assert !WaitsFor(s, a, s.virgl.dispatchOwner.value);
    }
    if a.Worker? && LocOf(s, a) == Dispatching(true) {
      forall k: nat ensures (a.w, k) !in s.callbacks {
        assert !WaitsFor(s, a, Sync(a.w, k));
      }
    }
    if a.Main? && s.main.loc.MainJoin? {
      assert !WaitsFor(s, a, Worker(s.main.loc.joined));
    }
  }

  /** Where init and fini go next when nothing is in the way. */
  ghost function RoutineTarget(v: Virgl, a: Actor, flags: int, l: Loc): (Virgl, Loc) {
    match l
    case InitEnter => (v.(structOwner := Some(a)), InitLocked)
    case InitLocked =>
      if v.initCount == 0 then (v, InitWantDispatch)
      else if v.initFlags != flags then (v, InitFail)
      else (v.(initCount := v.initCount + 1, structOwner := None), Inited)
    case InitWantDispatch => (v.(dispatchOwner := Some(a)), InitBoth)
    case InitBoth => (v.(up := true, dispatchOwner := None), InitReturned(true))
    case InitReturned(ok) =>
      if ok then (v.(contexts := [], initFlags := flags, initCount := v.initCount + 1, structOwner := None), Inited)
      else (v.(structOwner := None), Done)
    case FiniEnter => (v.(structOwner := Some(a)), FiniLocked)
    case FiniLocked =>
      if v.initCount == 0 then (v, FiniLeave)
      else (v.(initCount := v.initCount - 1), if v.initCount == 1 then FiniWantDispatch else FiniLeave)
    case FiniWantDispatch => (v.(dispatchOwner := Some(a)), FiniBoth)
    case FiniBoth => (v.(up := false, dispatchOwner := None), FiniLeave)
    case _ => (v.(structOwner := None), Done)
  }

  ghost function WorkerTarget(s: State, w: nat): (Virgl, Loc)
    requires w in s.workers
  {
    var v, a, me := s.virgl, Worker(w), s.workers[w];
    match me.loc
    case Inited => (v, FiniEnter)
    case Adding => (v.(contexts := v.contexts + [w], structOwner := None), Idle)
    case WantAdd => (v.(structOwner := Some(a)), Adding)
    case Idle => (v, Ending)
    case WantDispatch => (v.(dispatchOwner := Some(a)), Dispatching(false))
    case Dispatching(ending) => (v.(dispatchOwner := None), if ending then Destroyed else Ending)
    case CallbackWant(ending) => (v.(structOwner := Some(a)), CallbackIn(ending))
    case CallbackIn(ending) => (v.(structOwner := None), CallbackUse(ending))
    case CallbackUse(ending) => (v, Dispatching(ending))
    case Ending => (v.(dispatchOwner := Some(a)), Dispatching(true))
    case Destroyed => (v.(structOwner := Some(a)), Removing)
    case Removing => (v.(contexts := Without(v.contexts, w), structOwner := None), FiniEnter)
    case _ => RoutineTarget(v, a, me.flags, me.loc)
  }

  lemma WorkerProgress(s: State, w: nat)
    requires RolesOk(s) && w in s.workers && s.workers[w].loc != Done
    requires WantsStruct(s.workers[w].loc) ==> s.virgl.structOwner == None
    requires WantsDispatch(s.workers[w].loc) ==> s.virgl.dispatchOwner == None
    requires s.workers[w].loc == Dispatching(true) ==> forall k: nat :: (w, k) !in s.callbacks
    ensures exists t :: Next(s, Worker(w), t) && t != s
  {
    hide InitStep, FiniStep, BodyStep, WorkerTarget, RolesOk;
    var me := s.workers[w];
    var (v', l') := WorkerTarget(s, w);
    var t := s.(virgl := v', workers := s.workers[w := me.(loc := l')]);
    TargetSteps(s, w);
    assert t.workers[w].loc == l' != me.loc;
    assert WorkerStep(s, w, t);
    assert Next(s, Worker(w), t);
  }

  lemma TargetSteps(s: State, w: nat)
    requires RolesOk(s) && w in s.workers && s.workers[w].loc != Done
    requires WantsStruct(s.workers[w].loc) ==> s.virgl.structOwner == None
    requires WantsDispatch(s.workers[w].loc) ==> s.virgl.dispatchOwner == None
    requires s.workers[w].loc == Dispatching(true) ==> forall k: nat :: (w, k) !in s.callbacks
    ensures var me, (v', l') := s.workers[w], WorkerTarget(s, w);
      && l' != me.loc
      && (|| InitStep(s.virgl, Worker(w), me.flags, me.loc, v', l')
          || FiniStep(s.virgl, Worker(w), me.loc, v', l')
          || BodyStep(s, w, me.loc, v', l'))
  {
    var me := s.workers[w];
    if InBody(me.loc) {
      hide InitStep, FiniStep, RoutineTarget;
      BodyTargetSteps(s, w);
    } else {
      hide BodyStep, InitStep, FiniStep, RoutineTarget;
      RoutineTargetSteps(s.virgl, Worker(w), me.flags, me.loc);
    }
  }

  /** Neither in initialisation nor in finalisation. */
  predicate InBody(l: Loc) {
    || l.Inited? || l.WantAdd? || l.Adding? || l.Idle? || l.WantDispatch? || l.Dispatching? || l.CallbackWant?
    || l.CallbackIn? || l.CallbackUse? || l.Ending? || l.Destroyed? || l.Removing?
  }

  lemma BodyTargetSteps(s: State, w: nat)
    requires w in s.workers && InBody(s.workers[w].loc)
    requires WantsStruct(s.workers[w].loc) ==> s.virgl.structOwner == None
    requires WantsDispatch(s.workers[w].loc) ==> s.virgl.dispatchOwner == None
    requires s.workers[w].loc == Dispatching(true) ==> forall k: nat :: (w, k) !in s.callbacks
    ensures var me, (v', l') := s.workers[w], WorkerTarget(s, w); l' != me.loc && BodyStep(s, w, me.loc, v', l')
  {
    hide RoutineTarget, Without;
  }

  lemma RoutineTargetSteps(v: Virgl, a: Actor, flags: int, l: Loc)
    requires !InBody(l) && !l.Done? && !l.MainPoll? && !l.MainJoin? && !l.MainClosing?
    requires !l.SyncWant? && !l.SyncIn? && !l.SyncUse?
    requires WantsStruct(l) ==> v.structOwner == None
    requires WantsDispatch(l) ==> v.dispatchOwner == None
    ensures var (v', l') := RoutineTarget(v, a, flags, l);
      l' != l && (InitStep(v, a, flags, l, v', l') || FiniStep(v, a, l, v', l'))
  {
  }

  lemma MainProgress(s: State)
    requires RolesOk(s) && s.main.loc != Done
    requires WantsStruct(s.main.loc) ==> s.virgl.structOwner == None
    requires WantsDispatch(s.main.loc) ==> s.virgl.dispatchOwner == None
    requires s.main.loc.MainJoin? ==> s.main.loc.joined in s.workers && s.workers[s.main.loc.joined].loc == Done
    ensures exists t :: Next(s, Main, t) && t != s
  {
    hide RolesOk, Next;
    if s.main.loc.MainPoll? || s.main.loc.MainJoin? {
      PollProgress(s);
    } else if s.main.loc.MainClosing? {
      ClosingProgress(s);
    } else {
      MainRoutineProgress(s);
    }
  }

  lemma PollProgress(s: State)
    requires s.main.loc.MainPoll? || s.main.loc.MainJoin?
    requires s.main.loc.MainJoin? ==> s.main.loc.joined in s.workers && s.workers[s.main.loc.joined].loc == Done
    ensures exists t :: Next(s, Main, t) && t != s
  {
    var me, l := s.main, s.main.loc;
    if l.MainPoll? {
      var t := s.(main := me.(loc := MainClosing), closing := true);
      assert Next(s, Main, t) && t.main.loc != l;
    } else {
      var t := s.(main := me.(loc := if s.closing then MainClosing else MainPoll), workers := s.workers - {l.joined});
      assert Next(s, Main, t) && t.main.loc != l;
    }
  }

  lemma ClosingProgress(s: State)
    requires s.main.loc.MainClosing?
    ensures exists t :: Next(s, Main, t) && t != s
  {
    var me := s.main;
    if s.workers == map[] {
      var t := s.(main := me.(loc := FiniEnter));
      assert Next(s, Main, t) && t.main.loc != me.loc;
    } else {
      var w :| w in s.workers;
      var t := s.(main := me.(loc := MainJoin(w)));
      assert Next(s, Main, t) && t.main.loc != me.loc;
    }
  }

  lemma MainRoutineProgress(s: State)
    requires RolesOk(s) && s.main.loc != Done
    requires !s.main.loc.MainPoll? && !s.main.loc.MainJoin? && !s.main.loc.MainClosing?
    requires WantsStruct(s.main.loc) ==> s.virgl.structOwner == None
    requires WantsDispatch(s.main.loc) ==> s.virgl.dispatchOwner == None
    ensures exists t :: Next(s, Main, t) && t != s
  {
    var v, l, flags := s.virgl, s.main.loc, s.main.flags;
    var (v', l') := RoutineTarget(v, Main, flags, l);
    assert RoutineStep(v, flags, l, v', l');
    var t := AfterRoutine(s, v', l');
    assert t.main.loc != l;
    assert MainStep(s, t);
    assert Next(s, Main, t);
  }

  // --- fence callbacks -------------------------------------------------------------------------

  /** The context lookup of a fence callback: the first listed context with the id. */
  method LookupContext(contexts: seq<nat>, ids: map<nat, int>, ctxId: int) returns (ctx: Option<nat>)
    requires forall w :: w in contexts ==> w in ids
    ensures ctx.None? <==> forall i :: 0 <= i < |contexts| ==> ids[contexts[i]] != ctxId
    ensures ctx.Some? ==>
      exists i :: (0 <= i < |contexts| && contexts[i] == ctx.value && ids[contexts[i]] == ctxId
        && forall j :: 0 <= j < i ==> ids[contexts[j]] != ctxId)
  {
    for n := 0 to |contexts|
      invariant forall i :: 0 <= i < n ==> ids[contexts[i]] != ctxId
    {
      if ids[contexts[n]] == ctxId {
        return Some(contexts[n]);
      }
    }
    return None;
  }

  /** The index at which the lookup stops. */
  ghost predicate FoundAt(s: State, ctxId: int, i: nat) {
    && i < |s.virgl.contexts|
    && (forall w :: w in s.virgl.contexts ==> w in s.workers)
    && s.workers[s.virgl.contexts[i]].ctxId == ctxId
    && forall j :: 0 <= j < i ==> s.workers[s.virgl.contexts[j]].ctxId != ctxId
  }

  /** A context with the id of `w` listed at `j`. */
  ghost predicate Rival(s: State, w: nat, j: int) {
    && w in s.workers && 0 <= j < |s.virgl.contexts| && s.virgl.contexts[j] in s.workers
    && s.workers[s.virgl.contexts[j]].ctxId == s.workers[w].ctxId
  }

  predicate InCallback(l: Loc) {
    l.CallbackWant? || l.CallbackIn? || l.CallbackUse? || l.SyncWant? || l.SyncIn? || l.SyncUse?
  }

  /** Where the context of a callback's worker is listed; it is, as long as the callback lasts. */
  lemma OwnContextListed(s: State, a: Actor, w: nat) returns (n: nat)
    requires Reachable(s) && Exists(s, a) && (a.Worker? || a.Sync?) && a.w == w
    requires InCallback(LocOf(s, a))
    ensures w in s.workers && Live(s.workers[w].loc)
    ensures n < |s.virgl.contexts| && s.virgl.contexts[n] == w
    ensures forall i :: 0 <= i < |s.virgl.contexts| && s.virgl.contexts[i] == w ==> i == n
    ensures forall u :: u in s.virgl.contexts ==> u in s.workers
  {
    hide IsRun;
    ReachableInv(s);
    assert Live(s.workers[w].loc) by {
      assert a.Sync? ==> (w, a.k) in s.callbacks;
    }
    n :| 0 <= n < |s.virgl.contexts| && s.virgl.contexts[n] == w;
  }

  /**
   * A fence callback, on the worker's own thread or on one of its sync threads, always finds a context.  It is the
   * callback's own, listed at `n`, if and only if no context listed before `n` has the same id.
   */
  lemma CallbackFindsContext(s: State, a: Actor, w: nat) returns (n: nat, found: nat)
    requires Reachable(s) && Exists(s, a) && (LocOf(s, a).CallbackIn? || LocOf(s, a).SyncIn?)
    requires (a.Worker? || a.Sync?) && a.w == w
    ensures w in s.workers && n < |s.virgl.contexts| && s.virgl.contexts[n] == w
    ensures FoundAt(s, s.workers[w].ctxId, found)
    ensures s.virgl.contexts[found] == w <==> forall j :: 0 <= j < n ==> !Rival(s, w, j)
    ensures (forall u :: u in s.virgl.contexts && u != w ==> s.workers[u].ctxId != s.workers[w].ctxId) ==>
      s.virgl.contexts[found] == w
  {
    hide Reachable;
    n := OwnContextListed(s, a, w);
    FirstFound(s, s.workers[w].ctxId, n);
    found :| found <= n && FoundAt(s, s.workers[w].ctxId, found);
    assert s.virgl.contexts[found] in s.virgl.contexts;
    if found < n {
      assert Rival(s, w, found);
    }
  }

  lemma {:induction false} FirstFound(s: State, ctxId: int, n: nat)
    requires n < |s.virgl.contexts| && forall w :: w in s.virgl.contexts ==> w in s.workers
    requires s.workers[s.virgl.contexts[n]].ctxId == ctxId
    ensures exists i: nat :: i <= n && FoundAt(s, ctxId, i)
  {
    if j :| 0 <= j < n && s.workers[s.virgl.contexts[j]].ctxId == ctxId {
      FirstFound(s, ctxId, j);
    } else {
      assert FoundAt(s, ctxId, n);
    }
  }

  // --- two workers with one id -----------------------------------------------------------------

  lemma ReachStep(s: State, a: Actor, t: State)
    requires Reachable(s) && Next(s, a, t)
    ensures Reachable(t)
  {
    hide Next;
    var run :| IsRun(run) && run[|run| - 1] == s;
    var more := run + [t];
    forall i | 0 < i < |more| ensures SomeStep(more[i - 1], more[i]) {
      if i < |run| {
        assert SomeStep(run[i - 1], run[i]);
      }
    }
    assert IsRun(more);
  }

  /** Workers 0 and 1, both for context 7, at the given locations. */
  ghost function Two(v: Virgl, l0: Loc, l1: Loc): State {
    START.(virgl := v, workers := map[0 := Thread(l0, 5, 7), 1 := Thread(l1, 5, 7)])
  }

  lemma InitStep0(v: Virgl, l0: Loc, l1: Loc, v': Virgl, l': Loc)
    requires Reachable(Two(v, l0, l1)) && InitStep(v, Worker(0), 5, l0, v', l')
    ensures Reachable(Two(v', l', l1))
  {
    hide Reachable, InitStep;
    var s, t := Two(v, l0, l1), Two(v', l', l1);
    assert t == s.(virgl := t.virgl, workers := s.workers[0 := s.workers[0].(loc := l')]);
    ReachStep(s, Worker(0), t);
  }

  lemma BodyStep0(v: Virgl, l0: Loc, l1: Loc, v': Virgl, l': Loc)
    requires Reachable(Two(v, l0, l1)) && BodyStep(Two(v, l0, l1), 0, l0, v', l')
    ensures Reachable(Two(v', l', l1))
  {
    hide Reachable, BodyStep;
    var s, t := Two(v, l0, l1), Two(v', l', l1);
    assert t == s.(virgl := t.virgl, workers := s.workers[0 := s.workers[0].(loc := l')]);
    ReachStep(s, Worker(0), t);
  }

  lemma InitStep1(v: Virgl, l0: Loc, l1: Loc, v': Virgl, l': Loc)
    requires Reachable(Two(v, l0, l1)) && InitStep(v, Worker(1), 5, l1, v', l')
    ensures Reachable(Two(v', l0, l'))
  {
    hide Reachable, InitStep;
    var s, t := Two(v, l0, l1), Two(v', l0, l');
    assert t == s.(virgl := t.virgl, workers := s.workers[1 := s.workers[1].(loc := l')]);
    ReachStep(s, Worker(1), t);
  }

  lemma BodyStep1(v: Virgl, l0: Loc, l1: Loc, v': Virgl, l': Loc)
    requires Reachable(Two(v, l0, l1)) && BodyStep(Two(v, l0, l1), 1, l1, v', l')
    ensures Reachable(Two(v', l0, l'))
  {
    hide Reachable, BodyStep;
    var s, t := Two(v, l0, l1), Two(v', l0, l');
    assert t == s.(virgl := t.virgl, workers := s.workers[1 := s.workers[1].(loc := l')]);
    ReachStep(s, Worker(1), t);
  }

  lemma StartReachable()
    ensures Reachable(START)
  {
    assert IsRun([START]) && [START][0] == START;
  }

  lemma MainCreates(s: State, w: nat, flags: int, id: int)
    requires Reachable(s) && s.main.loc == MainPoll && w !in s.workers
    ensures Reachable(s.(workers := s.workers[w := Thread(InitEnter, flags, id)]))
  {
    hide Reachable;
    ReachStep(s, Main, s.(workers := s.workers[w := Thread(InitEnter, flags, id)]));
  }

  lemma TwoCreated()
    ensures Reachable(Two(START.virgl, InitEnter, InitEnter))
  {
    hide Reachable;
    StartReachable();
    MainCreates(START, 0, 5, 7);
    var one := START.(workers := START.workers[0 := Thread(InitEnter, 5, 7)]);
    MainCreates(one, 1, 5, 7);
    assert one.workers[1 := Thread(InitEnter, 5, 7)] == map[0 := Thread(InitEnter, 5, 7), 1 := Thread(InitEnter, 5, 7)];
  }

  /** Worker 0 initialises virglrenderer. */
  lemma FirstInited()
    ensures Reachable(Two(Virgl(None, None, 1, 5, [], true), Inited, InitEnter))
  {
    hide Reachable;
    TwoCreated();
    var v, me := START.virgl, Some(Worker(0));
    var locked, both := v.(structOwner := me), v.(structOwner := me, dispatchOwner := me);
    InitStep0(v, InitEnter, InitEnter, locked, InitLocked);
    InitStep0(locked, InitLocked, InitEnter, locked, InitWantDispatch);
    InitStep0(locked, InitWantDispatch, InitEnter, both, InitBoth);
    InitStep0(both, InitBoth, InitEnter, locked.(up := true), InitReturned(true));
    InitStep0(locked.(up := true), InitReturned(true), InitEnter, Virgl(None, None, 1, 5, [], true), Inited);
  }

  /** It registers its context. */
  lemma FirstRegistered()
    ensures Reachable(Two(Virgl(None, None, 1, 5, [0], true), Idle, InitEnter))
  {
    hide Reachable;
    FirstInited();
    var u, me := Virgl(None, None, 1, 5, [], true), Some(Worker(0));
    BodyStep0(u, Inited, InitEnter, u, WantAdd);
    BodyStep0(u, WantAdd, InitEnter, u.(structOwner := me), Adding);
    assert [] + [0] == [0];
    BodyStep0(u.(structOwner := me), Adding, InitEnter, u.(contexts := [0]), Idle);
  }

  /** Worker 1 registers its own. */
  lemma SecondInited()
    ensures Reachable(Two(Virgl(None, None, 2, 5, [0], true), Idle, Inited))
  {
    hide Reachable;
    FirstRegistered();
    var u, me := Virgl(None, None, 1, 5, [0], true), Some(Worker(1));
    InitStep1(u, Idle, InitEnter, u.(structOwner := me), InitLocked);
    InitStep1(u.(structOwner := me), Idle, InitLocked, u.(initCount := 2), Inited);
  }

  lemma SecondRegistered()
    ensures Reachable(Two(Virgl(None, None, 2, 5, [0, 1], true), Idle, Idle))
  {
    hide Reachable;
    SecondInited();
    var v, me := Virgl(None, None, 2, 5, [0], true), Some(Worker(1));
    BodyStep1(v, Idle, Inited, v, WantAdd);
    BodyStep1(v, Idle, WantAdd, v.(structOwner := me), Adding);
    assert [0] + [1] == [0, 1];
    BodyStep1(v.(structOwner := me), Idle, Adding, v.(contexts := [0, 1]), Idle);
  }

  lemma SecondDispatches()
    ensures Reachable(Two(Virgl(None, Some(Worker(1)), 2, 5, [0, 1], true), Idle, Dispatching(false)))
  {
    hide Reachable;
    SecondRegistered();
    var x := Virgl(None, None, 2, 5, [0, 1], true);
    BodyStep1(x, Idle, Idle, x, WantDispatch);
    BodyStep1(x, Idle, WantDispatch, x.(dispatchOwner := Some(Worker(1))), Dispatching(false));
  }

  /**
   * Nothing in the program keeps two contexts from having one id.  Here is a reachable state in which the fence
   * callback of worker 1 finds the context of worker 0.
   */
  lemma CallbackFindsAnother()
    ensures exists s: State, found: nat ::
      && Reachable(s) && 1 in s.workers && s.workers[1].loc == CallbackIn(false)
      && FoundAt(s, s.workers[1].ctxId, found) && s.virgl.contexts[found] != 1
  {
    hide Reachable;
    SecondDispatches();
    var me := Some(Worker(1));
    var y := Virgl(None, me, 2, 5, [0, 1], true);
    BodyStep1(y, Idle, Dispatching(false), y, CallbackWant(false));
    BodyStep1(y, Idle, CallbackWant(false), y.(structOwner := me), CallbackIn(false));
    var s := Two(y.(structOwner := me), Idle, CallbackIn(false));
    assert FoundAt(s, 7, 0) && s.virgl.contexts[0] == 0;
  }
}
