/**
 * The render server's workers: the jail's list and count, the client's context records and the kernel's children,
 * under every interleaving of creating, destroying, exiting and reaping.
 */
module RenderWorker {
  import opened Bags

  /** Address of a malloc'ed worker struct. */
  type Addr = nat

  datatype Worker = Worker(addr: Addr, pid: int, destroyed: bool, reaped: bool)

  datatype Record = Record(ctxId: int, worker: Addr)

  /** An unreaped child process; `owner` is the worker it was forked for, if any. A killed child exits in time. */
  datatype Child = Child(owner: Option<Addr>, exited: bool, killed: bool)

  /** A SIGKILL sent while destroying `worker`, and whose process it reached. */
  datatype Kill = Kill(worker: Addr, reached: Option<Addr>)

  datatype Server = Server(
    threads: bool, maxCount: nat, workers: seq<Worker>, count: int, records: seq<Record>,
    children: map<int, Child>, kills: seq<Kill>, freed: multiset<Addr>, nextAddr: Addr)

  // --- the routines --------------------------------------------------------------------------

  /** The first worker from the head of the list with the given pid. */
  function FindPid(ws: seq<Worker>, pid: int): (r: Option<nat>)
    ensures r.Some? ==> r.value < |ws| && ws[r.value].pid == pid && forall j :: 0 <= j < r.value ==> ws[j].pid != pid
    ensures r.None? ==> forall j :: 0 <= j < |ws| ==> ws[j].pid != pid
  {
    if ws == [] then None
    else if ws[0].pid == pid then Some(0)
    else
      var rest := FindPid(ws[1..], pid);
      if rest.None? then None else Some(rest.value + 1)
  }

  function RemoveAt<T>(xs: seq<T>, i: nat): seq<T>
    requires i < |xs|
  {
    xs[..i] + xs[i + 1..]
  }

  function FreeWorker(s: Server, i: nat): Server
    requires i < |s.workers|
  {
    s.(workers := RemoveAt(s.workers, i), count := s.count - 1, freed := s.freed + multiset{s.workers[i].addr})
  }

  /** Inserts a new worker at the head of the list and its record at the tail. */
  function AddWorker(s: Server, ctxId: int, pid: int): Server {
    s.(workers := [Worker(s.nextAddr, pid, false, false)] + s.workers, count := s.count + 1,
       records := s.records + [Record(ctxId, s.nextAddr)],
       children := if s.threads then s.children else s.children[pid := Child(Some(s.nextAddr), false, false)],
       nextAddr := s.nextAddr + 1)
  }

  /** The parent's side of creating a context; `pid` is the child, or nothing if memory, socket or fork failed. */
  function CreateContext(s: Server, ctxId: int, pid: Option<int>): (Server, bool) {
    if s.count >= s.maxCount || pid.None? then (s, false) else (AddWorker(s, ctxId, pid.value), true)
  }

  /** The child's side: it forgets every worker and record without killing or reaping. */
  function ForkedChild(s: Server, ctxId: int): Server {
    DetachAll(Inherited(s, ctxId)).(records := [])
  }

  /** What the child finds on return from the fork: its own worker has pid 0, and it has no children. */
  function Inherited(s: Server, ctxId: int): Server {
    s.(workers := [Worker(s.nextAddr, 0, false, false)] + s.workers, count := s.count + 1,
       records := s.records + [Record(ctxId, s.nextAddr)], children := map[], nextAddr := s.nextAddr + 1)
  }

  function DetachAll(s: Server): Server
    decreases |s.workers|
  {
    if s.workers == [] then s else DetachAll(FreeWorker(s, 0))
  }

  /** Destroys worker `i`: kill it unless reaped (join it if it is a thread), then free it if it is reaped. */
  function DestroyWorker(s: Server, i: nat): Server
    requires i < |s.workers|
  {
    var w := s.workers[i];
    var reaped := s.threads || w.reaped;
    var t := (if reaped then s else SendKill(s, w)).(
      workers := s.workers[i := w.(destroyed := true, reaped := reaped)]);
    if reaped then FreeWorker(t, i) else t
  }

  /** A SIGKILL to the worker's pid, which reaches the unreaped child with that pid, if there is one. */
  function SendKill(s: Server, w: Worker): Server {
    if w.pid !in s.children then s.(kills := s.kills + [Kill(w.addr, None)])
    else
      var child := s.children[w.pid];
      s.(kills := s.kills + [Kill(w.addr, child.owner)], children := s.children[w.pid := child.(killed := true)])
  }

  function IndexOf(ws: seq<Worker>, addr: Addr): (r: Option<nat>)
    ensures r.Some? ==> r.value < |ws| && ws[r.value].addr == addr
    ensures r.None? ==> forall j :: 0 <= j < |ws| ==> ws[j].addr != addr
  {
    if ws == [] then None
    else if ws[0].addr == addr then Some(0)
    else
      var rest := IndexOf(ws[1..], addr);
      if rest.None? then None else Some(rest.value + 1)
  }

  /** Removes record `k` together with its worker. */
  function RemoveRecord(s: Server, k: nat): Server
    requires k < |s.records|
  {
    var i := IndexOf(s.workers, s.records[k].worker);
    var t := if i.None? then s else DestroyWorker(s, i.value);
    t.(records := RemoveAt(s.records, k))
  }

  /** One `waitid` that returned child `pid`: the child is gone and the first worker with its pid is marked. */
  function ReapChild(s: Server, pid: int): (Server, Option<nat>) {
    var i := FindPid(s.workers, pid);
    var t := s.(children := s.children - {pid});
    if i.None? then (t, None)
    else (t.(workers := s.workers[i.value := s.workers[i.value].(reaped := true)]), i)
  }

  /** The reaping loop's body: a marked worker that was already destroyed is freed. */
  function ReapOne(s: Server, pid: int): Server {
    var (t, i) := ReapChild(s, pid);
    if i.Some? && i.value < |t.workers| && t.workers[i.value].destroyed then FreeWorker(t, i.value) else t
  }

  // --- the invariant -------------------------------------------------------------------------

  ghost predicate CountsOk(s: Server) {
    && s.count == |s.workers| <= s.maxCount
    && (forall i, j :: 0 <= i < j < |s.workers| ==> s.workers[i].addr != s.workers[j].addr)
    && (forall i :: 0 <= i < |s.workers| ==> s.workers[i].addr < s.nextAddr)
  }

  /** Every struct ever allocated is listed or was freed, and never both or twice. */
  ghost predicate FreedOnce(s: Server) {
    forall a: Addr :: s.freed[a] == (if a < s.nextAddr && Unlisted(s.workers, a) then 1 else 0)
  }

  ghost predicate Unlisted(ws: seq<Worker>, a: Addr) {
    forall i :: 0 <= i < |ws| ==> ws[i].addr != a
  }

  ghost predicate HasRecord(s: Server, a: Addr) {
    exists k :: 0 <= k < |s.records| && s.records[k].worker == a
  }

  /** Records correspond one-to-one to the workers that were not destroyed. */
  ghost predicate RecordsOk(s: Server) {
    && (forall j, k :: 0 <= j < k < |s.records| ==> s.records[j].worker != s.records[k].worker)
    && (forall k :: 0 <= k < |s.records| ==> !Unlisted(s.workers, s.records[k].worker))
    && (forall i :: 0 <= i < |s.workers| ==> (!s.workers[i].destroyed <==> HasRecord(s, s.workers[i].addr)))
  }

  /** A worker that is not reaped is the owner of the child with its pid; a pid repeated further down is reaped. */
  ghost predicate ProcessesOk(s: Server) {
    && (forall i :: 0 <= i < |s.workers| ==> !(s.workers[i].destroyed && s.workers[i].reaped))
    && (s.threads ==> forall i :: 0 <= i < |s.workers| ==> !s.workers[i].destroyed && !s.workers[i].reaped)
    && (!s.threads ==> Owners(s))
  }

  ghost predicate Owners(s: Server) {
    && (forall i :: 0 <= i < |s.workers| ==> s.workers[i].pid > 0)
    && (forall i :: 0 <= i < |s.workers| && !s.workers[i].reaped ==>
          s.workers[i].pid in s.children && s.children[s.workers[i].pid].owner == Some(s.workers[i].addr))
    && (forall p :: p in s.children && s.children[p].owner.Some? ==>
          exists i :: 0 <= i < |s.workers| && !s.workers[i].reaped && s.workers[i].pid == p
            && s.workers[i].addr == s.children[p].owner.value)
    && (forall i, j :: 0 <= i < j < |s.workers| && s.workers[i].pid == s.workers[j].pid ==> s.workers[j].reaped)
  }

  /** SIGKILL only ever reached the process of the worker being destroyed. */
  ghost predicate KillsOk(s: Server) {
    forall k :: k in s.kills ==> k.reached == Some(k.worker)
  }

  function Target(k: Kill): multiset<Addr> {
    multiset{k.worker}
  }

  /** How often each worker was sent a SIGKILL. */
  function Targets(s: Server): multiset<Addr> {
    Sum(Target, s.kills)
  }

  /** Of the listed workers exactly the destroyed ones were killed, once, and nobody was killed twice or in advance. */
  ghost predicate KilledOnce(s: Server) {
    && (s.threads ==> s.kills == [])
    && (forall i :: 0 <= i < |s.workers| ==> Targets(s)[s.workers[i].addr] == if s.workers[i].destroyed then 1 else 0)
    && (forall a :: Targets(s)[a] <= 1 && (a >= s.nextAddr ==> Targets(s)[a] == 0))
  }

  /** The process of a destroyed worker is on its way out. */
  ghost predicate Doomed(s: Server) {
    forall i :: 0 <= i < |s.workers| && s.workers[i].destroyed ==>
      s.workers[i].pid in s.children && s.children[s.workers[i].pid].killed
  }

  ghost predicate Inv(s: Server) {
    CountsOk(s) && FreedOnce(s) && RecordsOk(s) && ProcessesOk(s) && KillsOk(s) && KilledOnce(s) && Doomed(s)
  }

  // --- creating ------------------------------------------------------------------------------

  lemma AddUnlisted(s: Server, ctxId: int, pid: int, a: Addr)
    requires CountsOk(s)
    ensures Unlisted(AddWorker(s, ctxId, pid).workers, a) <==> a != s.nextAddr && Unlisted(s.workers, a)
  {
    var t := AddWorker(s, ctxId, pid);
    assert t.workers[0].addr == s.nextAddr;
    assert forall i :: 0 <= i < |s.workers| ==> t.workers[i + 1] == s.workers[i];
  }

  lemma AddRecordsOk(s: Server, ctxId: int, pid: int)
    requires CountsOk(s) && RecordsOk(s)
    ensures RecordsOk(AddWorker(s, ctxId, pid))
  {
    var t := AddWorker(s, ctxId, pid);
    forall a: Addr
      ensures Unlisted(t.workers, a) <==> a != s.nextAddr && Unlisted(s.workers, a)
      ensures HasRecord(t, a) <==> a == s.nextAddr || HasRecord(s, a)
    {
      AddUnlisted(s, ctxId, pid, a);
      assert t.records[|s.records|].worker == s.nextAddr;
      assert forall k :: 0 <= k < |s.records| ==> t.records[k] == s.records[k];
    }
    assert Unlisted(s.workers, s.nextAddr);
  }

  lemma AddProcessesOk(s: Server, ctxId: int, pid: int)
    requires CountsOk(s) && ProcessesOk(s)
    requires pid !in s.children && pid > 0
    ensures ProcessesOk(AddWorker(s, ctxId, pid))
  {
    var t := AddWorker(s, ctxId, pid);
    assert forall i :: 0 < i < |t.workers| ==> t.workers[i] == s.workers[i - 1];
    if !s.threads {
      forall p | p in t.children && t.children[p].owner.Some?
        ensures exists i :: 0 <= i < |t.workers| && !t.workers[i].reaped && t.workers[i].pid == p
                  && t.workers[i].addr == t.children[p].owner.value
      {
        if p == pid {
          assert t.workers[0].pid == p;
        } else {
          var i :| 0 <= i < |s.workers| && !s.workers[i].reaped && s.workers[i].pid == p
            && s.workers[i].addr == s.children[p].owner.value;
          assert t.workers[i + 1] == s.workers[i];
        }
      }
    }
  }

  lemma AddOk(s: Server, ctxId: int, pid: int)
    requires CountsOk(s) && FreedOnce(s) && s.count < s.maxCount
    ensures CountsOk(AddWorker(s, ctxId, pid)) && FreedOnce(AddWorker(s, ctxId, pid))
  {
    forall a: Addr { AddUnlisted(s, ctxId, pid, a); }
  }

  lemma CreateInv(s: Server, ctxId: int, pid: Option<int>)
    requires Inv(s)
    requires pid.Some? ==> pid.value > 0 && pid.value !in s.children
    ensures Inv(CreateContext(s, ctxId, pid).0)
  {
    if s.count < s.maxCount && pid.Some? {
      AddRecordsOk(s, ctxId, pid.value);
      AddProcessesOk(s, ctxId, pid.value);
      AddOk(s, ctxId, pid.value);
      AddKills(s, ctxId, pid.value);
    }
  }

  lemma AddKills(s: Server, ctxId: int, pid: int)
    requires CountsOk(s) && KilledOnce(s) && Doomed(s) && pid !in s.children
    ensures KilledOnce(AddWorker(s, ctxId, pid)) && Doomed(AddWorker(s, ctxId, pid))
  {
    hide Sum;
    var t := AddWorker(s, ctxId, pid);
    assert Targets(t) == Targets(s);
    assert forall i :: 0 < i < |t.workers| ==> t.workers[i] == s.workers[i - 1];
  }

  // --- removing ------------------------------------------------------------------------------

  lemma RemoveUnlisted(ws: seq<Worker>, i: nat, a: Addr)
    requires i < |ws|
    requires forall i, j :: 0 <= i < j < |ws| ==> ws[i].addr != ws[j].addr
    ensures Unlisted(RemoveAt(ws, i), a) <==> a == ws[i].addr || Unlisted(ws, a)
  {
    var rest := RemoveAt(ws, i);
    assert forall j :: 0 <= j < i ==> rest[j] == ws[j];
    assert forall j :: i < j < |ws| ==> rest[j - 1] == ws[j];
  }

  lemma FreeOk(s: Server, i: nat)
    requires i < |s.workers|
    requires CountsOk(s) && FreedOnce(s)
    ensures CountsOk(FreeWorker(s, i)) && FreedOnce(FreeWorker(s, i))
  {
    forall a: Addr { RemoveUnlisted(s.workers, i, a); }
  }

  /** Removing a worker that is reaped, or in thread mode any worker, leaves the processes accounted for. */
  lemma FreeProcessesOk(s: Server, i: nat)
    requires i < |s.workers|
    requires !s.threads ==> s.workers[i].reaped
    requires forall j :: 0 <= j < |s.workers| && j != i ==> !(s.workers[j].destroyed && s.workers[j].reaped)
    requires s.threads ==> forall j :: 0 <= j < |s.workers| && j != i ==>
      !s.workers[j].destroyed && !s.workers[j].reaped
    requires !s.threads ==> Owners(s)
    ensures ProcessesOk(FreeWorker(s, i))
  {
    var t := FreeWorker(s, i);
    assert forall j :: 0 <= j < i ==> t.workers[j] == s.workers[j];
    assert forall j :: i <= j < |t.workers| ==> t.workers[j] == s.workers[j + 1];
    if !s.threads {
      forall p | p in t.children && t.children[p].owner.Some?
        ensures exists j :: 0 <= j < |t.workers| && !t.workers[j].reaped && t.workers[j].pid == p
                  && t.workers[j].addr == t.children[p].owner.value
      {
        var j :| 0 <= j < |s.workers| && !s.workers[j].reaped && s.workers[j].pid == p
          && s.workers[j].addr == s.children[p].owner.value;
        assert t.workers[if j < i then j else j - 1] == s.workers[j];
      }
    }
  }

  // --- destroying ----------------------------------------------------------------------------

  /** Marks worker `i`; its address, and so every fact about addresses, stays. */
  function Marked(s: Server, i: nat, destroyed: bool, reaped: bool): Server
    requires i < |s.workers|
  {
    s.(workers := s.workers[i := s.workers[i].(destroyed := destroyed, reaped := reaped)])
  }

  lemma MarkedUnlisted(s: Server, i: nat, destroyed: bool, reaped: bool, a: Addr)
    requires i < |s.workers|
    ensures Unlisted(Marked(s, i, destroyed, reaped).workers, a) <==> Unlisted(s.workers, a)
  {
    var t := Marked(s, i, destroyed, reaped);
    assert forall j :: 0 <= j < |s.workers| ==> t.workers[j].addr == s.workers[j].addr;
  }

  lemma MarkedOk(s: Server, i: nat, destroyed: bool, reaped: bool)
    requires i < |s.workers|
    requires CountsOk(s) && FreedOnce(s)
    ensures CountsOk(Marked(s, i, destroyed, reaped)) && FreedOnce(Marked(s, i, destroyed, reaped))
  {
    forall a: Addr { MarkedUnlisted(s, i, destroyed, reaped, a); }
  }

  /** A worker that a record names is listed, is not destroyed, and if not reaped its pid is its own process. */
  lemma RecordedWorker(s: Server, k: nat) returns (i: nat)
    requires Inv(s) && k < |s.records|
    ensures IndexOf(s.workers, s.records[k].worker) == Some(i) && i < |s.workers|
    ensures s.workers[i].addr == s.records[k].worker && !s.workers[i].destroyed
    ensures !s.threads ==> s.workers[i].pid > 0
    ensures !s.threads && !s.workers[i].reaped ==>
      s.workers[i].pid in s.children && s.children[s.workers[i].pid].owner == Some(s.workers[i].addr)
  {
    var r := IndexOf(s.workers, s.records[k].worker);
    assert !Unlisted(s.workers, s.records[k].worker);
    assert r.Some?;
    i := r.value;
    assert HasRecord(s, s.workers[i].addr);
  }

  lemma RemovedRecord(s: Server, k: nat, a: Addr)
    requires RecordsOk(s) && k < |s.records|
    ensures HasRecord(s.(records := RemoveAt(s.records, k)), a) <==> a != s.records[k].worker && HasRecord(s, a)
  {
    var t := s.(records := RemoveAt(s.records, k));
    assert forall j :: 0 <= j < k ==> t.records[j] == s.records[j];
    assert forall j :: k < j < |s.records| ==> t.records[j - 1] == s.records[j];
  }

  ghost predicate IsDestroyed(s: Server, i: nat, ws: seq<Worker>)
    requires i < |s.workers|
  {
    ws == RemoveAt(s.workers, i) || exists reaped :: ws == Marked(s, i, true, reaped).workers
  }

  /** Whoever is still listed was listed before; the destroyed worker is marked if it is still listed. */
  lemma DestroyedListed(s: Server, i: nat, ws: seq<Worker>, j: nat)
    requires CountsOk(s) && i < |s.workers| && IsDestroyed(s, i, ws) && j < |ws|
    ensures ws[j].addr == s.workers[i].addr ==> ws[j].destroyed
    ensures ws[j].addr != s.workers[i].addr ==> ws[j] in s.workers
  {
  }

  lemma DestroyedUnlisted(s: Server, i: nat, ws: seq<Worker>, a: Addr)
    requires CountsOk(s) && i < |s.workers| && IsDestroyed(s, i, ws) && a != s.workers[i].addr
    ensures Unlisted(ws, a) <==> Unlisted(s.workers, a)
  {
    if ws == RemoveAt(s.workers, i) {
      RemoveUnlisted(s.workers, i, a);
    } else {
      var reaped :| ws == Marked(s, i, true, reaped).workers;
      MarkedUnlisted(s, i, true, reaped, a);
    }
  }

  /** Dropping record `k` and destroying its worker, whether or not the worker is freed, keeps the correspondence. */
  lemma RemoveRecordsOk(s: Server, k: nat, i: nat, ws: seq<Worker>)
    requires CountsOk(s) && RecordsOk(s) && k < |s.records|
    requires i < |s.workers| && s.workers[i].addr == s.records[k].worker && IsDestroyed(s, i, ws)
    ensures RecordsOk(s.(records := RemoveAt(s.records, k), workers := ws))
  {
    hide CountsOk, IsDestroyed, Unlisted, HasRecord;
    var x := s.records[k].worker;
    var t := s.(records := RemoveAt(s.records, k), workers := ws);
    forall a: Addr ensures HasRecord(t, a) <==> a != x && HasRecord(s, a) {
      RemovedRecord(s, k, a);
      SameRecords(s.(records := RemoveAt(s.records, k)), t, a);
    }
    forall a: Addr | a != x ensures Unlisted(ws, a) <==> Unlisted(s.workers, a) {
      DestroyedUnlisted(s, i, ws, a);
    }
    forall j | 0 <= j < |ws| ensures !ws[j].destroyed <==> HasRecord(t, ws[j].addr) {
      DestroyedListed(s, i, ws, j);
    }
    forall j | 0 <= j < |t.records| ensures t.records[j].worker != x && !Unlisted(ws, t.records[j].worker) {
      assert t.records[j] == s.records[if j < k then j else j + 1];
    }
  }

  lemma SameRecords(s: Server, t: Server, a: Addr)
    requires t.records == s.records
    ensures HasRecord(t, a) == HasRecord(s, a)
  {
  }

  lemma DestroyProcessesOk(s: Server, i: nat)
    requires ProcessesOk(s) && i < |s.workers| && !s.workers[i].destroyed
    ensures ProcessesOk(DestroyWorker(s, i))
  {
    var w := s.workers[i];
    var reaped := s.threads || w.reaped;
    var t := Marked(s, i, true, reaped);
    assert forall j :: 0 <= j < |s.workers| ==>
      t.workers[j].addr == s.workers[j].addr && t.workers[j].pid == s.workers[j].pid;
    assert forall j :: 0 <= j < |s.workers| && !s.threads ==> t.workers[j].reaped == s.workers[j].reaped;
    if !s.threads {
      forall p | p in t.children && t.children[p].owner.Some?
        ensures exists j :: 0 <= j < |t.workers| && !t.workers[j].reaped && t.workers[j].pid == p
                  && t.workers[j].addr == t.children[p].owner.value
      {
        var j :| 0 <= j < |s.workers| && !s.workers[j].reaped && s.workers[j].pid == p
          && s.workers[j].addr == s.children[p].owner.value;
        assert !t.workers[j].reaped;
      }
    }
    if reaped {
      FreeProcessesOk(t, i);
      var f := FreeWorker(t, i);
      var d := DestroyWorker(s, i);
      assert d.workers == f.workers && d.children == f.children && d.threads == f.threads;
    }
  }

  lemma DestroyOk(s: Server, i: nat)
    requires CountsOk(s) && FreedOnce(s) && KillsOk(s) && i < |s.workers|
    requires !s.threads && !s.workers[i].reaped ==>
      s.workers[i].pid in s.children && s.children[s.workers[i].pid].owner == Some(s.workers[i].addr)
    ensures var t := DestroyWorker(s, i); CountsOk(t) && FreedOnce(t) && KillsOk(t) && IsDestroyed(s, i, t.workers)
  {
    hide CountsOk, FreedOnce;
    var reaped := s.threads || s.workers[i].reaped;
    var m := Marked(s, i, true, reaped);
    MarkedOk(s, i, true, reaped);
    var t := DestroyWorker(s, i);
    if reaped {
      FreeOk(m, i);
      assert RemoveAt(m.workers, i) == RemoveAt(s.workers, i);
      SameLists(FreeWorker(m, i), t);
    } else {
      SameLists(m, t);
    }
  }

  /** The worker is killed unless it is reaped, and nobody else is. */
  lemma DestroyKills(s: Server, i: nat)
    requires CountsOk(s) && KilledOnce(s) && Doomed(s) && i < |s.workers| && !s.workers[i].destroyed
    requires !s.threads && !s.workers[i].reaped ==> s.workers[i].pid in s.children
    ensures KilledOnce(DestroyWorker(s, i)) && Doomed(DestroyWorker(s, i))
  {
    hide Sum;
    var w, t := s.workers[i], DestroyWorker(s, i);
    if s.threads || w.reaped {
      assert Targets(t) == Targets(s);
      assert forall j :: 0 <= j < i ==> t.workers[j] == s.workers[j];
      assert forall j :: i <= j < |t.workers| ==> t.workers[j] == s.workers[j + 1];
    } else {
      SumAppend(Target, s.kills, Kill(w.addr, s.children[w.pid].owner));
      assert Targets(t) == Targets(s) + multiset{w.addr};
    }
  }

  lemma SameLists(s: Server, t: Server)
    requires t.workers == s.workers && t.count == s.count && t.maxCount == s.maxCount && t.freed == s.freed
      && t.nextAddr == s.nextAddr
    ensures CountsOk(t) == CountsOk(s) && FreedOnce(t) == FreedOnce(s)
  {
  }

  lemma SameProcesses(s: Server, t: Server)
    requires t.workers == s.workers && t.threads == s.threads && t.children == s.children
    ensures ProcessesOk(t) == ProcessesOk(s)
  {
  }

  lemma RemoveRecordInv(s: Server, k: nat)
    requires Inv(s) && k < |s.records|
    ensures Inv(RemoveRecord(s, k))
  {
    hide CountsOk, FreedOnce, RecordsOk, ProcessesOk, KillsOk, KilledOnce, Doomed, IsDestroyed, DestroyWorker;
    var i := RecordedWorker(s, k);
    DestroyOk(s, i);
    DestroyKills(s, i);
    DestroyProcessesOk(s, i);
    var d, r := DestroyWorker(s, i), RemoveRecord(s, k);
    SameLists(d, r);
    SameProcesses(d, r);
    SameKills(d, r);
    SameDoom(d, r);
    RemoveRecordsOk(s, k, i, d.workers);
    SameCorrespondence(s.(records := RemoveAt(s.records, k), workers := d.workers), r);
  }

  lemma SameCorrespondence(s: Server, t: Server)
    requires t.records == s.records && t.workers == s.workers
    ensures RecordsOk(t) == RecordsOk(s)
  {
    assert forall a: Addr :: HasRecord(t, a) == HasRecord(s, a);
  }

  // --- reaping -------------------------------------------------------------------------------

  /** An unreaped worker is the first with its pid. */
  lemma FirstOwner(s: Server, i: nat)
    requires Owners(s) && i < |s.workers| && !s.workers[i].reaped
    ensures FindPid(s.workers, s.workers[i].pid) == Some(i)
  {
    var r := FindPid(s.workers, s.workers[i].pid);
    assert r.Some? && r.value <= i;
  }

  /**
   * Reaping child `pid` finds the very worker it was forked for, even when reaped workers further down the list
   * still carry the same pid.  A child no worker owns finds at most a worker that was reaped before.
   */
  lemma ReapFindsOwner(s: Server, pid: int)
    requires Inv(s) && !s.threads && pid in s.children
    ensures var r := FindPid(s.workers, pid);
      && (s.children[pid].owner.Some? ==>
            && r.Some?
            && s.workers[r.value].addr == s.children[pid].owner.value
            && !s.workers[r.value].reaped)
      && (s.children[pid].owner.None? && r.Some? ==> s.workers[r.value].reaped && !s.workers[r.value].destroyed)
  {
    hide CountsOk, FreedOnce, RecordsOk, KillsOk;
    var r := FindPid(s.workers, pid);
    if s.children[pid].owner.Some? {
      var i :| 0 <= i < |s.workers| && !s.workers[i].reaped && s.workers[i].pid == pid
        && s.workers[i].addr == s.children[pid].owner.value;
      FirstOwner(s, i);
    }
  }

  lemma ReapChildOwners(s: Server, pid: int)
    requires Owners(s) && pid in s.children
    ensures Owners(ReapChild(s, pid).0)
  {
    hide FindPid;
    var (t, r) := ReapChild(s, pid);
    assert forall j :: 0 <= j < |s.workers| ==>
      t.workers[j].addr == s.workers[j].addr && t.workers[j].pid == s.workers[j].pid;
    forall i | 0 <= i < |t.workers| && !t.workers[i].reaped
      ensures t.workers[i].pid in t.children && t.children[t.workers[i].pid].owner == Some(t.workers[i].addr)
    {
      assert t.workers[i] == s.workers[i];
      FirstOwner(s, i);
    }
    forall p | p in t.children && t.children[p].owner.Some?
      ensures exists j :: 0 <= j < |t.workers| && !t.workers[j].reaped && t.workers[j].pid == p
                && t.workers[j].addr == t.children[p].owner.value
    {
      var j :| 0 <= j < |s.workers| && !s.workers[j].reaped && s.workers[j].pid == p
        && s.workers[j].addr == s.children[p].owner.value;
      assert t.workers[j] == s.workers[j];
    }
  }

  lemma ReapProcessesOk(s: Server, pid: int)
    requires Inv(s) && !s.threads && pid in s.children
    ensures ProcessesOk(ReapOne(s, pid))
  {
    ReapFindsOwner(s, pid);
    ReapChildOwners(s, pid);
    hide CountsOk, FreedOnce, RecordsOk, KillsOk, Owners, FindPid;
    var (t, r) := ReapChild(s, pid);
    if r.Some? && t.workers[r.value].destroyed {
      FreeProcessesOk(t, r.value);
    }
  }

  lemma ReapChildRecordsOk(s: Server, pid: int)
    requires RecordsOk(s)
    ensures RecordsOk(ReapChild(s, pid).0)
  {
    hide FindPid;
    var (t, r) := ReapChild(s, pid);
    forall a: Addr
      ensures Unlisted(t.workers, a) == Unlisted(s.workers, a) && HasRecord(t, a) == HasRecord(s, a)
    {
      if r.Some? {
        MarkedUnlisted(s, r.value, s.workers[r.value].destroyed, true, a);
      }
    }
  }

  lemma FreeRecordsOk(s: Server, i: nat)
    requires CountsOk(s) && RecordsOk(s) && i < |s.workers| && s.workers[i].destroyed
    ensures RecordsOk(FreeWorker(s, i))
  {
    hide Unlisted, HasRecord;
    var t := FreeWorker(s, i);
    assert !HasRecord(s, s.workers[i].addr);
    forall a: Addr
      ensures HasRecord(t, a) == HasRecord(s, a)
      ensures Unlisted(t.workers, a) <==> a == s.workers[i].addr || Unlisted(s.workers, a)
    {
      RemoveUnlisted(s.workers, i, a);
      SameRecords(s, t, a);
    }
    forall k | 0 <= k < |t.records| ensures !Unlisted(t.workers, t.records[k].worker) {
      RecordHeld(s, k);
    }
    assert forall j :: 0 <= j < i ==> t.workers[j] == s.workers[j];
    assert forall j :: i <= j < |t.workers| ==> t.workers[j] == s.workers[j + 1];
  }

  lemma RecordHeld(s: Server, k: nat)
    requires k < |s.records|
    ensures HasRecord(s, s.records[k].worker)
  {
  }

  lemma ReapChildOk(s: Server, pid: int)
    requires CountsOk(s) && FreedOnce(s)
    ensures CountsOk(ReapChild(s, pid).0) && FreedOnce(ReapChild(s, pid).0)
  {
    hide FindPid;
    var r := ReapChild(s, pid).1;
    if r.Some? {
      MarkedOk(s, r.value, s.workers[r.value].destroyed, true);
    }
  }

  lemma SameKills(s: Server, t: Server)
    requires KillsOk(s) && t.kills == s.kills
    ensures KillsOk(t)
  {
  }

  lemma SameDoom(s: Server, t: Server)
    requires t.kills == s.kills && t.workers == s.workers && t.threads == s.threads && t.nextAddr == s.nextAddr
    requires t.children == s.children
    ensures KilledOnce(t) == KilledOnce(s) && Doomed(t) == Doomed(s)
  {
  }

  /** Whoever is listed after a reap was listed before, and if it is destroyed the child reaped was not its own. */
  lemma ReapSource(s: Server, pid: int, j: nat) returns (k: nat)
    requires Inv(s) && !s.threads && pid in s.children && j < |ReapOne(s, pid).workers|
    ensures var t := ReapOne(s, pid);
      && k < |s.workers| && t.workers[j] == s.workers[k].(reaped := t.workers[j].reaped)
      && (s.workers[k].destroyed ==> s.workers[k].pid != pid)
  {
    hide CountsOk, FreedOnce, RecordsOk, KillsOk, KilledOnce, Doomed, FindPid;
    ReapFindsOwner(s, pid);
    var r := FindPid(s.workers, pid);
    var t := ReapOne(s, pid);
    k := if |t.workers| < |s.workers| && r.value <= j then j + 1 else j;
    if s.workers[k].destroyed {
      FirstOwner(s, k);
    }
  }

  lemma ReapKills(s: Server, pid: int)
    requires Inv(s) && !s.threads && pid in s.children
    ensures KilledOnce(ReapOne(s, pid)) && Doomed(ReapOne(s, pid))
  {
    hide CountsOk, FreedOnce, RecordsOk, ProcessesOk, KillsOk, Sum, FindPid;
    var t := ReapOne(s, pid);
    assert Targets(t) == Targets(s) && t.children == s.children - {pid};
    forall j | 0 <= j < |t.workers|
      ensures Targets(s)[t.workers[j].addr] == if t.workers[j].destroyed then 1 else 0
      ensures t.workers[j].destroyed ==> t.workers[j].pid in t.children && t.children[t.workers[j].pid].killed
    {
      var k := ReapSource(s, pid, j);
    }
  }

  lemma ReapInv(s: Server, pid: int)
    requires Inv(s) && !s.threads && pid in s.children
    ensures Inv(ReapOne(s, pid))
  {
    hide CountsOk, FreedOnce, RecordsOk, ProcessesOk, FindPid, KillsOk, KilledOnce, Doomed;
    ReapProcessesOk(s, pid);
    ReapChildRecordsOk(s, pid);
    ReapChildOk(s, pid);
    ReapKills(s, pid);
    var (t, r) := ReapChild(s, pid);
    if r.Some? && t.workers[r.value].destroyed {
      FreeOk(t, r.value);
      FreeRecordsOk(t, r.value);
    }
    SameKills(s, ReapOne(s, pid));
  }

  // --- runs ----------------------------------------------------------------------------------

  function FindRecord(rs: seq<Record>, ctxId: int): (r: Option<nat>)
    ensures r.Some? ==> r.value < |rs| && rs[r.value].ctxId == ctxId && forall j :: 0 <= j < r.value ==>
      rs[j].ctxId != ctxId
    ensures r.None? ==> forall j :: 0 <= j < |rs| ==> rs[j].ctxId != ctxId
  {
    if rs == [] then None
    else if rs[0].ctxId == ctxId then Some(0)
    else
      var rest := FindRecord(rs[1..], ctxId);
      if rest.None? then None else Some(rest.value + 1)
  }

  function DestroyContext(s: Server, ctxId: int): Server {
    var k := FindRecord(s.records, ctxId);
    if k.None? then s else RemoveRecord(s, k.value)
  }

  function ClearRecords(s: Server): Server
    decreases |s.records|
  {
    if s.records == [] then s else ClearRecords(RemoveRecord(s, 0))
  }

  /** What the server does, and what the kernel does beside it: a child exits, or code outside the jail forks. */
  datatype Op =
    | Create(ctxId: int, forked: Option<int>)
    | Destroy(ctxId: int)
    | Reset
    | Reap(pid: int)
    | Exit(pid: int)
    | Foreign(pid: int)

  /** The kernel hands out pids of no unreaped child, and returns only exited children. */
  ghost predicate Enabled(s: Server, op: Op) {
    match op
    case Create(_, pid) => pid.Some? ==> pid.value > 0 && pid.value !in s.children
    case Destroy(_) => true
    case Reset => true
    case Reap(pid) => !s.threads && pid in s.children && s.children[pid].exited
    case Exit(pid) => pid in s.children
    case Foreign(pid) => pid > 0 && pid !in s.children
  }

  function Step(s: Server, op: Op): Server {
    match op
    case Create(ctxId, pid) => CreateContext(s, ctxId, pid).0
    case Destroy(ctxId) => DestroyContext(s, ctxId)
    case Reset => ClearRecords(s)
    case Reap(pid) => ReapOne(s, pid)
    case Exit(pid) => if pid in s.children then s.(children := s.children[pid := s.children[pid].(exited := true)])
      else s
    case Foreign(pid) => s.(children := s.children[pid := Child(None, false, false)])
  }

  lemma {:induction false} ClearInv(s: Server)
    requires Inv(s)
    ensures Inv(ClearRecords(s)) && ClearRecords(s).records == []
    ensures ClearRecords(s).threads == s.threads && ClearRecords(s).nextAddr == s.nextAddr
    decreases |s.records|
  {
    hide Inv;
    if s.records != [] {
      RemoveRecordInv(s, 0);
      ClearInv(RemoveRecord(s, 0));
    }
  }

  lemma KernelInv(s: Server, op: Op)
    requires Inv(s) && (op.Exit? || op.Foreign?) && Enabled(s, op)
    ensures Inv(Step(s, op))
  {
    hide CountsOk, FreedOnce, RecordsOk, ProcessesOk, KillsOk, KilledOnce, Doomed;
    var t := Step(s, op);
    SameLists(s, t);
    SameCorrespondence(s, t);
    SameKills(s, t);
    KernelProcesses(s, op);
  }

  lemma KernelProcesses(s: Server, op: Op)
    requires ProcessesOk(s) && KilledOnce(s) && Doomed(s) && (op.Exit? || op.Foreign?) && Enabled(s, op)
    ensures ProcessesOk(Step(s, op)) && KilledOnce(Step(s, op)) && Doomed(Step(s, op))
  {
    hide Sum;
    var t := Step(s, op);
    assert t.workers == s.workers && t.threads == s.threads && Targets(t) == Targets(s) && t.nextAddr == s.nextAddr;
    assert forall p :: p in s.children ==>
      && p in t.children && t.children[p].owner == s.children[p].owner
      && t.children[p].killed == s.children[p].killed;
    KernelOwners(s, t);
  }

  lemma KernelOwners(s: Server, t: Server)
    requires t.workers == s.workers && t.threads == s.threads && ProcessesOk(s)
    requires forall p :: p in s.children ==> p in t.children && t.children[p].owner == s.children[p].owner
    requires forall p :: p in t.children && p !in s.children ==> t.children[p].owner.None?
    ensures ProcessesOk(t)
  {
  }

  lemma StepInv(s: Server, op: Op)
    requires Inv(s) && Enabled(s, op)
    ensures Inv(Step(s, op))
  {
    hide Inv;
    match op
    case Create(ctxId, pid) => CreateInv(s, ctxId, pid);
    case Destroy(ctxId) =>
      var k := FindRecord(s.records, ctxId);
      if k.Some? {
        RemoveRecordInv(s, k.value);
      }
    case Reset => ClearInv(s);
    case Reap(pid) => ReapInv(s, pid);
    case _ => KernelInv(s, op);
  }

  function Initial(threads: bool, maxCount: nat): Server {
    Server(threads, maxCount, [], 0, [], map[], [], multiset{}, 0)
  }

  ghost predicate Runs(s: Server, ops: seq<Op>, t: Server)
    decreases |ops|
  {
    if ops == [] then s == t else Enabled(s, ops[0]) && Runs(Step(s, ops[0]), ops[1..], t)
  }

  lemma RunNothing(s: Server)
    ensures Runs(s, [], s)
  {
  }

  lemma {:induction false} RunInv(s: Server, ops: seq<Op>, t: Server)
    requires Inv(s) && Runs(s, ops, t)
    ensures Inv(t)
    decreases |ops|
  {
    if ops != [] {
      StepInv(s, ops[0]);
      RunInv(Step(s, ops[0]), ops[1..], t);
    }
  }

  // --- what holds in every run ---------------------------------------------------------------

  /**
   * After any run: the count is the length of the list and within the limit, records and undestroyed workers
   * correspond one-to-one, no listed worker is both destroyed and reaped, and each worker ever allocated is
   * either listed or was freed exactly once.
   */
  lemma WorkersAccounted(threads: bool, maxCount: nat, ops: seq<Op>, s: Server)
    requires Runs(Initial(threads, maxCount), ops, s)
    ensures s.count == |s.workers| <= s.maxCount
    ensures RecordsOk(s) && FreedOnce(s)
    ensures forall i :: 0 <= i < |s.workers| ==> !(s.workers[i].destroyed && s.workers[i].reaped)
  {
    InitialInv(threads, maxCount);
    RunInv(Initial(threads, maxCount), ops, s);
  }

  /** After any run, every SIGKILL had reached a process that was still unreaped and forked for that very worker. */
  lemma KillsReachOwnProcess(threads: bool, maxCount: nat, ops: seq<Op>, s: Server, k: Kill)
    requires Runs(Initial(threads, maxCount), ops, s)
    requires k in s.kills
    ensures k.reached == Some(k.worker)
  {
    InitialInv(threads, maxCount);
    RunInv(Initial(threads, maxCount), ops, s);
  }

  /**
   * After any run, and whatever pids were reused, reaping a child forked for a worker marks that worker and no
   * other, and reaping any other child changes no worker.
   */
  lemma ReapMarksOwner(threads: bool, maxCount: nat, ops: seq<Op>, s: Server, pid: int)
    requires Runs(Initial(threads, maxCount), ops, s)
    requires !s.threads && pid in s.children
    ensures var t := ReapChild(s, pid).0;
      |t.workers| == |s.workers| && forall i :: 0 <= i < |s.workers| ==>
        t.workers[i] == s.workers[i].(reaped := s.workers[i].reaped || s.children[pid].owner == Some(s.workers[i].addr))
  {
    InitialInv(threads, maxCount);
    RunInv(Initial(threads, maxCount), ops, s);
    ReapFindsOwner(s, pid);
    if FindPid(s.workers, pid).Some? {
      OwnerUnique(s, pid);
    }
  }

  lemma OwnerUnique(s: Server, pid: int)
    requires Inv(s) && pid in s.children && FindPid(s.workers, pid).Some?
    ensures forall i :: 0 <= i < |s.workers| && s.workers[i].addr == s.workers[FindPid(s.workers, pid).value].addr ==>
      i == FindPid(s.workers, pid).value
  {
  }

  lemma InitialInv(threads: bool, maxCount: nat)
    ensures Inv(Initial(threads, maxCount))
  {
  }

  // --- teardown ------------------------------------------------------------------------------

  /** Once the records are gone, only workers that are destroyed and still running are left. */
  lemma ClearedWorkers(s: Server)
    requires Inv(s) && s.records == []
    ensures forall i :: 0 <= i < |s.workers| ==> s.workers[i].destroyed && !s.workers[i].reaped
    ensures s.threads ==> s.workers == []
  {
    forall i | 0 <= i < |s.workers| ensures s.workers[i].destroyed {
      assert !HasRecord(s, s.workers[i].addr);
    }
    assert |s.workers| > 0 ==> s.workers[0].destroyed;
  }

  /**
   * One turn of the blocking wait: while a worker is listed some killed child is left to wait for, and the worker
   * that the wait returns is destroyed and now reaped, as the loop asserts.
   */
  lemma WaitTurn(s: Server, pid: int)
    requires Inv(s) && s.records == [] && !s.threads
    ensures s.count > 0 ==> exists p :: p in s.children && s.children[p].killed
    ensures pid in s.children ==>
      var (t, r) := ReapChild(s, pid);
      && |t.children| < |s.children|
      && (r.Some? ==> r.value < |t.workers| && t.workers[r.value].destroyed && t.workers[r.value].reaped)
  {
    ClearedWorkers(s);
    if s.count > 0 {
      assert s.workers[0].pid in s.children && s.children[s.workers[0].pid].killed;
    }
    if pid in s.children {
      ReapFindsOwner(s, pid);
      Shrinks(s.children, pid);
    }
  }

  lemma Shrinks<T, U>(m: map<T, U>, k: T)
    requires k in m
    ensures |m - {k}| < |m|
  {
    assert (m - {k}).Keys == m.Keys - {k};
    assert |m.Keys - {k}| < |m.Keys|;
  }

  /** With nothing listed, every worker ever allocated has been freed exactly once. */
  ghost predicate AllFreed(s: Server) {
    s.workers == [] && s.count == 0 && s.records == []
      && forall a: Addr :: s.freed[a] == (if a < s.nextAddr then 1 else 0)
  }

  lemma EmptyAllFreed(s: Server)
    requires CountsOk(s) && FreedOnce(s) && s.records == [] && s.count == 0
    ensures AllFreed(s)
  {
    assert forall a: Addr :: Unlisted(s.workers, a);
  }

  // --- the forked child ----------------------------------------------------------------------

  lemma {:induction false} DetachAllOk(s: Server)
    requires CountsOk(s) && FreedOnce(s)
    ensures var t := DetachAll(s);
      CountsOk(t) && FreedOnce(t) && t.workers == [] && t.count == 0 && t.nextAddr == s.nextAddr
    ensures DetachAll(s).kills == s.kills && DetachAll(s).children == s.children
    decreases |s.workers|
  {
    if s.workers != [] {
      FreeOk(s, 0);
      DetachAllOk(FreeWorker(s, 0));
    }
  }

  /**
   * The forked child of any run reaches its own teardown with nothing listed or recorded and every struct freed
   * once, having killed nobody and reaped nobody; so its wait loop does not run.
   */
  lemma ForkedChildDetached(threads: bool, maxCount: nat, ops: seq<Op>, s: Server, ctxId: int)
    requires Runs(Initial(threads, maxCount), ops, s) && s.count < s.maxCount
    ensures AllFreed(ForkedChild(s, ctxId))
    ensures ForkedChild(s, ctxId).kills == s.kills && ForkedChild(s, ctxId).children == map[]
  {
    hide CountsOk, FreedOnce, RecordsOk, ProcessesOk, KillsOk;
    InitialInv(threads, maxCount);
    RunInv(Initial(threads, maxCount), ops, s);
    var t := Inherited(s, ctxId);
    AddOk(s, ctxId, 0);
    SameLists(AddWorker(s, ctxId, 0), t);
    DetachAllOk(t);
    SameLists(DetachAll(t), ForkedChild(s, ctxId));
    EmptyAllFreed(ForkedChild(s, ctxId));
  }

  lemma AddrUnique(s: Server, i: nat, j: nat)
    requires CountsOk(s) && i < |s.workers| && j < |s.workers| && s.workers[i].addr == s.workers[j].addr
    ensures i == j
  {
  }

  lemma {:induction false} RunAppend(s: Server, ops: seq<Op>, t: Server, op: Op)
    requires Runs(s, ops, t) && Enabled(t, op)
    ensures Runs(s, ops + [op], Step(t, op))
    decreases |ops|
  {
    var all := ops + [op];
    if ops == [] {
      assert all[1..] == [];
    } else {
      RunAppend(Step(s, ops[0]), ops[1..], t, op);
      assert all[1..] == ops[1..] + [op] && all[0] == ops[0];
    }
  }
}
