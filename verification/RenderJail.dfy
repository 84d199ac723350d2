/** The jail and its client as an object updated in place, proved against the functions of RenderWorker. */
module RenderJail {
  import opened Bags
  import opened RenderWorker

  /** The jail, its client's records and the children the kernel holds for it, updated in place. */
  class Jail {
    const threads: bool
    const maxCount: nat
    var workers: seq<Worker>
    var workerCount: int
    var records: seq<Record>
    var children: map<int, Child>
    var nextAddr: Addr
    ghost var kills: seq<Kill>
    ghost var freed: multiset<Addr>

    ghost function Abs(): Server
      reads this
    {
      Server(threads, maxCount, workers, workerCount, records, children, kills, freed, nextAddr)
    }

    ghost predicate Valid()
      reads this
    {
      Inv(Abs())
    }

    constructor (threads: bool, maxCount: nat)
      ensures Abs() == Initial(threads, maxCount) && Valid()
    {
      this.threads, this.maxCount := threads, maxCount;
      workers, workerCount, records, children, nextAddr := [], 0, [], map[], 0;
      kills, freed := [], multiset{};
    }

    method RemoveWorker(i: nat)
      requires i < |workers|
      modifies this
      ensures Abs() == FreeWorker(old(Abs()), i)
    {
      freed := freed + multiset{workers[i].addr};
      workers := workers[..i] + workers[i + 1..];
      workerCount := workerCount - 1;
    }

    /** Scans from the head for the pid that `waitid` returned. */
    method ReapAny(pid: int) returns (r: Option<nat>)
      modifies this
      ensures (Abs(), r) == ReapChild(old(Abs()), pid)
      ensures r.Some? ==> r.value < |workers|
    {
      children := children - {pid};
      var i := 0;
      while i < |workers|
        invariant 0 <= i <= |workers|
        invariant Abs() == old(Abs()).(children := old(children) - {pid})
        invariant forall j :: 0 <= j < i ==> workers[j].pid != pid
      {
        if workers[i].pid == pid {
          workers := workers[i := workers[i].(reaped := true)];
          return Some(i);
        }
        i := i + 1;
      }
      return None;
    }

    /** One turn of the reaping loop. */
    method ReapKnown(pid: int) returns (known: bool)
      modifies this
      ensures Abs() == ReapOne(old(Abs()), pid) && children == old(children) - {pid}
      ensures !known ==> FindPid(workers, pid).None?
    {
      var worker := ReapAny(pid);
      known := worker.Some?;
      if known && workers[worker.value].destroyed {
        RemoveWorker(worker.value);
      }
    }

    /** Reaps exited children, in the order the kernel returns them, until none is left or an unknown one turns up. */
    method ReapWorkers() returns (ghost ops: seq<Op>)
      requires Valid() && !threads
      modifies this
      ensures Valid()
      ensures Runs(old(Abs()), ops, Abs()) && forall i :: 0 <= i < |ops| ==> ops[i].Reap?
      ensures (forall p :: p in children ==> !children[p].exited)
           || (|ops| > 0 && FindPid(workers, ops[|ops| - 1].pid).None?)
    {
      hide Inv, ReapOne, Runs;
      ops := [];
      RunNothing(Abs());
      while exists p :: p in children && children[p].exited
        invariant Valid()
        invariant Runs(old(Abs()), ops, Abs()) && forall i :: 0 <= i < |ops| ==> ops[i].Reap?
        decreases |children|
      {
        var pid :| pid in children && children[pid].exited;
        ReapInv(Abs(), pid);
        Shrinks(children, pid);
        RunAppend(old(Abs()), ops, Abs(), Reap(pid));
        ops := ops + [Reap(pid)];
        var known := ReapKnown(pid);
        if !known {
          return;
        }
      }
    }

    /**
     * The blocking wait at teardown, which returns children that exited or were killed: it ends, its assertion holds,
     * and every worker has been freed exactly once.
     */
    method WaitWorkers()
      requires Valid() && records == []
      modifies this
      ensures Valid() && AllFreed(Abs()) && nextAddr == old(nextAddr)
    {
      ClearedWorkers(Abs());
      while workerCount > 0
        invariant Valid() && records == [] && nextAddr == old(nextAddr)
        invariant workerCount > 0 ==> !threads
        decreases |children|
      {
        ghost var s := Abs();
        WaitTurn(s, 0);
        var pid :| pid in children && (children[pid].exited || children[pid].killed);
        WaitTurn(s, pid);
        ReapInv(s, pid);
        var worker := ReapAny(pid);
        if worker.Some? {
          assert workers[worker.value].destroyed && workers[worker.value].reaped;
          RemoveWorker(worker.value);
        }
      }
      EmptyAllFreed(Abs());
    }

    method SendKill(w: Worker)
      modifies this
      ensures Abs() == RenderWorker.SendKill(old(Abs()), w)
    {
      if w.pid in children {
        kills := kills + [Kill(w.addr, children[w.pid].owner)];
        children := children[w.pid := children[w.pid].(killed := true)];
      } else {
        kills := kills + [Kill(w.addr, None)];
      }
    }

    method DestroyWorker(i: nat)
      requires i < |workers|
      modifies this
      ensures Abs() == RenderWorker.DestroyWorker(old(Abs()), i)
    {
      var w := workers[i];
      var reaped := w.reaped;
      if threads {
        reaped := true;
      } else if !w.reaped {
        SendKill(w);
      }
      workers := workers[i := w.(destroyed := true, reaped := reaped)];
      if reaped {
        RemoveWorker(i);
      }
    }

    /** The record refers to a listed worker that is not yet destroyed. */
    method RemoveRecord(k: nat)
      requires Valid() && k < |records|
      modifies this
      ensures Valid() && Abs() == RenderWorker.RemoveRecord(old(Abs()), k)
    {
      ghost var s := Abs();
      ghost var at := RecordedWorker(s, k);
      RemoveRecordInv(s, k);
      assert 0 <= at < |workers| && workers[at].addr == records[k].worker;
      var i :| 0 <= i < |workers| && workers[i].addr == records[k].worker;
      AddrUnique(s, i, at);
      DestroyWorker(i);
      records := records[..k] + records[k + 1..];
    }

    method ClearRecords()
      requires Valid()
      modifies this
      ensures Valid() && Abs() == RenderWorker.ClearRecords(old(Abs())) && records == []
    {
      while |records| > 0
        invariant Valid() && RenderWorker.ClearRecords(Abs()) == RenderWorker.ClearRecords(old(Abs()))
        decreases |records|
      {
        RemoveRecord(0);
      }
    }

    method DestroyContext(ctxId: int)
      requires Valid()
      modifies this
      ensures Valid() && Abs() == RenderWorker.DestroyContext(old(Abs()), ctxId)
    {
      var k := 0;
      while k < |records|
        invariant 0 <= k <= |records| && Valid() && Abs() == old(Abs())
        invariant forall j :: 0 <= j < k ==> records[j].ctxId != ctxId
      {
        if records[k].ctxId == ctxId {
          RemoveRecord(k);
          return;
        }
        k := k + 1;
      }
    }

    /** `forked` is the pid of the new child, or nothing when memory, the socket pair or the fork failed. */
    method CreateContext(ctxId: int, forked: Option<int>) returns (ok: bool)
      requires Valid()
      requires forked.Some? ==> forked.value > 0 && forked.value !in children
      modifies this
      ensures Valid() && (Abs(), ok) == RenderWorker.CreateContext(old(Abs()), ctxId, forked)
    {
      hide Inv;
      CreateInv(Abs(), ctxId, forked);
      if workerCount >= maxCount || forked.None? {
        return false;
      }
      workers := [Worker(nextAddr, forked.value, false, false)] + workers;
      workerCount := workerCount + 1;
      records := records + [Record(ctxId, nextAddr)];
      if !threads {
        children := children[forked.value := Child(Some(nextAddr), false, false)];
      }
      nextAddr := nextAddr + 1;
      return true;
    }

    method Detach()
      modifies this
      ensures Abs() == DetachAll(old(Abs()))
    {
      while |workers| > 0
        invariant DetachAll(Abs()) == DetachAll(old(Abs()))
        decreases |workers|
      {
        RemoveWorker(0);
      }
    }

    method Inherit(ctxId: int)
      modifies this
      ensures Abs() == Inherited(old(Abs()), ctxId)
    {
      workers := [Worker(nextAddr, 0, false, false)] + workers;
      workerCount := workerCount + 1;
      records := records + [Record(ctxId, nextAddr)];
      children := map[];
      nextAddr := nextAddr + 1;
    }

    /** The child's side of the fork: frees the inherited list without killing or reaping. */
    method BecomeChild(ctxId: int)
      requires Valid() && workerCount < maxCount
      modifies this
      ensures Abs() == ForkedChild(old(Abs()), ctxId)
    {
      hide DetachAll, Inherited, Inv;
      Inherit(ctxId);
      Detach();
      records := [];
    }

    /** The whole teardown, from any valid state. */
    method Fini()
      requires Valid()
      modifies this
      ensures AllFreed(Abs()) && nextAddr == old(nextAddr)
    {
      ClearInv(Abs());
      ClearRecords();
      WaitWorkers();
    }
  }
}
