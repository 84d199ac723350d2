/** What requests do to the contexts and workers they name, and which workers are killed over whole runs. */
module RenderMeaning {
  import opened Bags
  import opened RenderWorker

  /** `a` is nobody's: no worker has the address, none had it before, and no record names it. */
  ghost predicate Unused(s: Server, a: Addr) {
    Unlisted(s.workers, a) && s.freed[a] == 0 && !HasRecord(s, a)
  }

  /**
   * A context is created iff the limit is not reached and the fork succeeded; its record, at the end, carries the id
   * asked for and an unused worker, which runs as the forked child; everybody else stays.
   */
  lemma CreateMeans(s: Server, ctxId: int, pid: Option<int>)
    requires Inv(s)
    ensures var (t, ok) := CreateContext(s, ctxId, pid);
      && (ok <==> |s.workers| < s.maxCount && pid.Some?)
      && (!ok ==> t == s)
      && (ok ==> exists a :: Unused(s, a) && Recorded(s, t, ctxId, pid.value, a))
  {
    var (t, ok) := CreateContext(s, ctxId, pid);
    if ok {
      var a := s.nextAddr;
      assert Unlisted(s.workers, a);
      assert t.workers == [Worker(a, pid.value, false, false)] + s.workers;
      assert Recorded(s, t, ctxId, pid.value, a);
      assert Unused(s, a);
    }
  }

  ghost predicate Recorded(s: Server, t: Server, ctxId: int, pid: int, a: Addr) {
    && t.records == s.records + [Record(ctxId, a)]
    && (forall w :: w in t.workers <==> w in s.workers || w == Worker(a, pid, false, false))
    && t.children == (if s.threads then s.children else s.children[pid := Child(Some(a), false, false)])
    && t.kills == s.kills && t.freed == s.freed
  }

  /** The first record with the id. */
  ghost predicate FirstWith(s: Server, ctxId: int, k: nat) {
    && k < |s.records| && s.records[k].ctxId == ctxId && forall j :: 0 <= j < k ==> s.records[j].ctxId != ctxId
  }

  /** What becomes of the worker with address `a`: a running process is killed, anything else is freed. */
  ghost predicate Destroys(s: Server, t: Server, w: Worker) {
    && w in s.workers
    && (if s.threads || w.reaped then
          Unlisted(t.workers, w.addr) && t.freed[w.addr] == 1 && t.kills == s.kills && t.children == s.children
        else
          && w.(destroyed := true) in t.workers && t.freed == s.freed
          && t.kills == s.kills + [Kill(w.addr, Some(w.addr))]
          && w.pid in s.children && t.children == s.children[w.pid := s.children[w.pid].(killed := true)])
    && (forall v: Worker :: v.addr != w.addr ==> (v in t.workers <==> v in s.workers))
  }

  /** A destroy request destroys the worker of the first context with the id, and drops its record; no other. */
  lemma DestroyMeans(s: Server, ctxId: int, k: nat)
    requires Inv(s) && FirstWith(s, ctxId, k)
    ensures var t := DestroyContext(s, ctxId);
      && t.records == s.records[..k] + s.records[k + 1..]
      && exists w: Worker :: w.addr == s.records[k].worker && Destroys(s, t, w)
  {
    hide Inv, DestroyWorker;
    var t := DestroyContext(s, ctxId);
    assert FindRecord(s.records, ctxId) == Some(k);
    var i := RecordedWorker(s, k);
    DestroysIt(s, i);
    var d := DestroyWorker(s, i);
    SameOutcome(s, d, t, s.workers[i]);
  }

  lemma SameOutcome(s: Server, d: Server, t: Server, w: Worker)
    requires t.workers == d.workers && t.freed == d.freed && t.kills == d.kills && t.children == d.children
    requires Destroys(s, d, w)
    ensures Destroys(s, t, w)
  {
  }

  lemma DestroysIt(s: Server, i: nat)
    requires Inv(s) && i < |s.workers| && !s.workers[i].destroyed
    ensures Destroys(s, DestroyWorker(s, i), s.workers[i])
  {
    hide RecordsOk, KillsOk, KilledOnce, Doomed;
    var w, t := s.workers[i], DestroyWorker(s, i);
    assert !Unlisted(s.workers, w.addr);
    if s.threads || w.reaped {
      RemoveUnlisted(s.workers, i, w.addr);
      assert t.workers == RemoveAt(s.workers, i);
      assert forall j :: 0 <= j < i ==> t.workers[j] == s.workers[j];
      assert forall j :: i < j < |s.workers| ==> t.workers[j - 1] == s.workers[j];
    } else {
      assert t.workers[i] == w.(destroyed := true);
      assert forall j :: 0 <= j < |s.workers| && j != i ==> t.workers[j] == s.workers[j];
    }
  }

  /** A request for an id that no record has changes nothing. */
  lemma DestroyUnknown(s: Server, ctxId: int)
    requires forall k :: 0 <= k < |s.records| ==> s.records[k].ctxId != ctxId
    ensures DestroyContext(s, ctxId) == s
  {
  }

  // --- who is killed, over runs --------------------------------------------------------------

  /** After any run exactly the destroyed ones of the listed processes were sent a SIGKILL, once; threads never are. */
  lemma DestroyedAreKilled(threads: bool, maxCount: nat, ops: seq<Op>, s: Server)
    requires Runs(Initial(threads, maxCount), ops, s)
    ensures forall i :: 0 <= i < |s.workers| ==>
      Targets(s)[s.workers[i].addr] == if s.workers[i].destroyed then 1 else 0
    ensures s.threads ==> s.kills == []
    ensures forall i :: 0 <= i < |s.workers| && s.workers[i].destroyed ==>
      s.workers[i].pid in s.children && s.children[s.workers[i].pid].killed
  {
    InitialInv(threads, maxCount);
    RunInv(Initial(threads, maxCount), ops, s);
  }

  /** Worker `a` is gone, or reaped, or destroyed. */
  ghost predicate Settled(s: Server, a: Addr) {
    a < s.nextAddr && forall i :: 0 <= i < |s.workers| && s.workers[i].addr == a ==>
      s.workers[i].reaped || s.workers[i].destroyed
  }

  lemma RemoveSettled(s: Server, k: nat, a: Addr)
    requires Inv(s) && k < |s.records| && Settled(s, a)
    ensures Settled(RemoveRecord(s, k), a) && Targets(RemoveRecord(s, k))[a] == Targets(s)[a]
  {
    hide Sum, RecordsOk, KillsOk, FreedOnce, KilledOnce, Doomed;
    var i := RecordedWorker(s, k);
    var w, t := s.workers[i], RemoveRecord(s, k);
    if s.threads || w.reaped {
      assert Targets(t) == Targets(s);
      assert t.workers == RemoveAt(s.workers, i);
      assert forall j :: 0 <= j < |t.workers| ==> t.workers[j] in s.workers;
    } else {
      SumAppend(Target, s.kills, Kill(w.addr, s.children[w.pid].owner));
      assert Targets(t) == Targets(s) + multiset{w.addr};
      assert forall j :: 0 <= j < |s.workers| && j != i ==> t.workers[j] == s.workers[j];
    }
  }

  lemma {:induction false} ClearSettled(s: Server, a: Addr)
    requires Inv(s) && Settled(s, a)
    ensures Settled(ClearRecords(s), a) && Targets(ClearRecords(s))[a] == Targets(s)[a]
    decreases |s.records|
  {
    hide Inv, Settled, Targets;
    if s.records != [] {
      RemoveRecordInv(s, 0);
      RemoveSettled(s, 0, a);
      ClearSettled(RemoveRecord(s, 0), a);
    }
  }

  lemma OtherSettled(s: Server, op: Op, a: Addr)
    requires Inv(s) && Enabled(s, op) && Settled(s, a) && (op.Create? || op.Exit? || op.Foreign?)
    ensures Settled(Step(s, op), a) && Targets(Step(s, op))[a] == Targets(s)[a]
  {
    hide Sum;
    var t := Step(s, op);
    assert Targets(t) == Targets(s);
    if op.Create? && t != s {
      assert forall j :: 0 < j < |t.workers| ==> t.workers[j] == s.workers[j - 1];
    }
  }

  lemma ReapSettled(s: Server, pid: int, a: Addr)
    requires Inv(s) && !s.threads && pid in s.children && Settled(s, a)
    ensures Settled(ReapOne(s, pid), a) && Targets(ReapOne(s, pid))[a] == Targets(s)[a]
  {
    hide Sum, FindPid, Inv;
    var t := ReapOne(s, pid);
    assert Targets(t) == Targets(s);
    forall j | 0 <= j < |t.workers| && t.workers[j].addr == a ensures t.workers[j].reaped || t.workers[j].destroyed {
      var k := ReapSource(s, pid, j);
      ReapKeepsReaped(s, pid, j);
    }
  }

  lemma ReapKeepsReaped(s: Server, pid: int, j: nat)
    requires Inv(s) && !s.threads && pid in s.children && j < |ReapOne(s, pid).workers|
    ensures !ReapOne(s, pid).workers[j].reaped ==> ReapOne(s, pid).workers[j] in s.workers
  {
    hide CountsOk, FreedOnce, RecordsOk, KillsOk, KilledOnce, Doomed, FindPid;
    var t := ReapOne(s, pid);
    var r := FindPid(s.workers, pid);
    assert r.Some? ==> r.value < |s.workers|;
  }

  lemma StepSettled(s: Server, op: Op, a: Addr)
    requires Inv(s) && Enabled(s, op) && Settled(s, a)
    ensures Settled(Step(s, op), a) && Targets(Step(s, op))[a] == Targets(s)[a]
  {
    hide Inv, Settled, Targets;
    match op
    case Destroy(ctxId) =>
      var k := FindRecord(s.records, ctxId);
      if k.Some? {
        RemoveSettled(s, k.value, a);
      }
    case Reset => ClearSettled(s, a);
    case Reap(pid) => ReapSettled(s, pid, a);
    case _ => OtherSettled(s, op, a);
  }

  /** Once a worker is reaped, destroyed or gone, no run sends it another SIGKILL. */
  lemma {:induction false} SettledForever(s: Server, ops: seq<Op>, t: Server, a: Addr)
    requires Inv(s) && Runs(s, ops, t) && Settled(s, a)
    ensures Targets(t)[a] == Targets(s)[a]
    decreases |ops|
  {
    hide Inv, Settled, Targets, Step, Enabled;
    if ops != [] {
      StepInv(s, ops[0]);
      StepSettled(s, ops[0], a);
      SettledForever(Step(s, ops[0]), ops[1..], t, a);
    }
  }

  /** A worker reaped before it is destroyed is never killed, and one that is destroyed running is killed just once. */
  lemma KilledIffRunning(threads: bool, maxCount: nat, before: seq<Op>, s: Server, after: seq<Op>, t: Server, i: nat)
    requires Runs(Initial(threads, maxCount), before, s) && Runs(s, after, t)
    requires i < |s.workers| && (s.workers[i].reaped || s.workers[i].destroyed)
    ensures Targets(t)[s.workers[i].addr] == if s.workers[i].destroyed then 1 else 0
  {
    hide Runs, Targets;
    InitialInv(threads, maxCount);
    RunInv(Initial(threads, maxCount), before, s);
    SettledForever(s, after, t, s.workers[i].addr);
  }
}
