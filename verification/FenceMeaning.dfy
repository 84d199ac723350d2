/**
 * What the fence table's calls mean to their callers: which files are registered after a call, and whose file the
 * last-signalled lookup hands out over whole runs.
 */
module FenceMeaning {
  import opened Bags
  import opened Machine
  import opened FenceTable

  // --- retiring one fence --------------------------------------------------------------------

  /** The kernel's answer to the dup made while retiring, after the remembered descriptor was closed. */
  function Answer(s: Fences, alloc: Alloc): Option<int> {
    alloc(s.dups, if s.last.fd >= 0 then s.open - {s.last.fd} else s.open)
  }

  /** The fence under `id` has signalled. */
  ghost predicate HasSignalled(s: Fences, id: nat) {
    id in s.registered && StatusOf(s, s.registered[id]).Signalled?
  }

  /**
   * Retiring a signalled fence remembers it: if the dup succeeds, by its id and a new descriptor of its file, and if
   * not, as lost. Either way what was remembered before is closed.
   */
  lemma RetireMeans(s: Fences, id: nat, alloc: Alloc)
    requires Inv(s) && Legal(alloc) && id in s.entries
    ensures var t, r := Retire(s, id, alloc), Answer(s, alloc);
      && t.done == s.done
      && (HasSignalled(s, id) ==>
            && t.last.id == id
            && (r.Some? ==>
                  && t.last.fd == r.value >= 0 && t.last.fd in t.open
                  && t.open[t.last.fd] == Desc(s.registered[id], true)
                  && (t.last.fd !in s.open || t.last.fd == s.last.fd))
            && (r.None? ==> t.last.fd == -1)
            && (s.last.fd >= 0 && t.last.fd != s.last.fd ==> s.last.fd !in t.open))
      && (!HasSignalled(s, id) ==>
            t.last == s.last && (s.last.fd >= 0 ==> s.last.fd in t.open && t.open[s.last.fd] == s.open[s.last.fd]))
  {
  }

  /** A caller's descriptors survive. */
  lemma RetireCallers(s: Fences, id: nat, alloc: Alloc, fd: int)
    requires Inv(s) && Legal(alloc) && id in s.entries && fd in s.open && !s.open[fd].mine
    ensures fd in Retire(s, id, alloc).open && Retire(s, id, alloc).open[fd] == s.open[fd]
  {
  }

  lemma {:induction false} SweepCallers(s: Fences, ids: seq<nat>, alloc: Alloc, fd: int)
    requires Inv(s) && Legal(alloc) && fd in s.open && !s.open[fd].mine
    ensures fd in Sweep(s, ids, alloc).open && Sweep(s, ids, alloc).open[fd] == s.open[fd]
    decreases |ids|
  {
    hide Inv, Legal, Retire;
    if ids != [] {
      if ids[0] in s.entries {
        RetireCallers(s, ids[0], alloc, fd);
        RetireInv(s, ids[0], alloc);
      }
      SweepCallers(if ids[0] in s.entries then Retire(s, ids[0], alloc) else s, ids[1..], alloc, fd);
    }
  }

  // --- registering ---------------------------------------------------------------------------

  /** What the sweep retires: a fence that it looks at and that is not pending. */
  ghost predicate Swept(s: Fences, ids: seq<nat>, id: nat) {
    id in s.registered && id in ids && !StatusOf(s, s.registered[id]).Pending?
  }

  lemma SweepFiles(s: Fences, ids: seq<nat>, alloc: Alloc, id: nat)
    requires Inv(s) && Legal(alloc) && forall i, j :: 0 <= i < j < |ids| ==> ids[i] != ids[j]
    ensures var t := Sweep(s, ids, alloc);
      && (id in t.registered <==> id in s.registered && !Swept(s, ids, id))
      && (id in t.registered ==> t.registered[id] == s.registered[id])
  {
    hide Legal, Sweep, LastOk, OpenOk;
    SweepInv(s, ids, alloc);
    if id !in s.entries {
      SweepRemovesOnly(s, ids, id, alloc);
    } else if Swept(s, ids, id) {
      SweepRemoves(s, ids, id, alloc);
    } else {
      SweepKeeps(s, ids, id, alloc);
    }
  }

  /**
   * Registering the caller's descriptor `fd` under `id`: refused as busy, for want of memory, or with the dup's error;
   * otherwise the id now names the file behind `fd`.  Whatever the outcome, of the other ids exactly those swept are
   * gone and the rest name the files they named.
   */
  lemma SetMeans(s: Fences, ids: seq<nat>, id: nat, fd: int, memory: bool, errno: int, alloc: Alloc)
    requires Inv(s) && Legal(alloc) && Collects(s, ids) && errno > 0 && fd in s.open && !s.open[fd].mine
    ensures var (t, ret) := SetFd(s, ids, id, fd, memory, errno, alloc);
      var m := Sweep(s, ids, alloc);
      var busy := id in s.registered && !Swept(s, ids, id);
      && ret == (if busy then -EBUSY else if !memory then -ENOMEM
                 else if alloc(m.dups, m.open).None? then -errno else 0)
      && (ret == 0 ==> id in t.registered && t.registered[id] == s.open[fd].file)
      && (ret != 0 && !busy ==> id !in t.registered)
      && (forall j :: j != id || busy ==>
            && (j in t.registered <==> j in s.registered && !Swept(s, ids, j))
            && (j in t.registered ==> t.registered[j] == s.registered[j]))
      && fd in t.open && t.open[fd] == s.open[fd]
  {
    hide Legal, Sweep, LastOk, OpenOk, Swept, Collects;
    var m := Sweep(s, ids, alloc);
    assert forall i, j :: 0 <= i < j < |ids| ==> ids[i] != ids[j] by {
      Apart(s, ids);
    }
    SweepCallers(s, ids, alloc, fd);
    SweepInv(s, ids, alloc);
    forall j
      ensures j in m.registered <==> j in s.registered && !Swept(s, ids, j)
      ensures j in m.registered ==> SameFile(s, m, j)
    {
      SweepFiles(s, ids, alloc, j);
    }
    Fresh(m, alloc);
  }

  ghost predicate SameFile(s: Fences, m: Fences, j: nat) {
    j in s.registered && j in m.registered && m.registered[j] == s.registered[j]
  }

  lemma Apart(s: Fences, ids: seq<nat>)
    requires Collects(s, ids)
    ensures forall i, j :: 0 <= i < j < |ids| ==> ids[i] != ids[j]
  {
  }

  lemma Fresh(s: Fences, alloc: Alloc)
    requires Legal(alloc)
    ensures alloc(s.dups, s.open).Some? ==>
      alloc(s.dups, s.open).value >= 0 && alloc(s.dups, s.open).value !in s.open
  {
  }

  // --- the last signalled fence, over runs ---------------------------------------------------

  /** The fence retired most recently as signalled: there was none, its dup failed, or its file. */
  datatype Recent = Never | Lost | Kept(file: File)

  /** How looking at `id` changes that: only if its fence has signalled. */
  ghost function RecentRetired(r: Recent, s: Fences, id: nat, alloc: Alloc): Recent {
    if !HasSignalled(s, id) then r else if Answer(s, alloc).Some? then Kept(s.registered[id]) else Lost
  }

  /** How looking at the given ids does. */
  ghost function RecentSwept(r: Recent, s: Fences, ids: seq<nat>, alloc: Alloc): Recent
    decreases |ids|
  {
    if ids == [] then r
    else if ids[0] !in s.entries then RecentSwept(r, s, ids[1..], alloc)
    else RecentSwept(RecentRetired(r, s, ids[0], alloc), Retire(s, ids[0], alloc), ids[1..], alloc)
  }

  ghost function RecentRun(r: Recent, s: Fences, ops: seq<Op>): Recent
    decreases |ops|
  {
    if ops == [] then r
    else
      RecentRun(if ops[0].Set? then RecentSwept(r, s, ops[0].ids, ops[0].alloc) else r, Step(s, ops[0]), ops[1..])
  }

  /** What is remembered is the most recent one. */
  ghost predicate Remembers(s: Fences, r: Recent) {
    if r.Kept? then s.last.fd >= 0 && s.last.fd in s.open && s.open[s.last.fd] == Desc(r.file, true)
    else s.last.fd < 0
  }

  lemma RetireRemembers(s: Fences, id: nat, alloc: Alloc, r: Recent)
    requires Inv(s) && Legal(alloc) && id in s.entries && Remembers(s, r)
    ensures Remembers(Retire(s, id, alloc), RecentRetired(r, s, id, alloc))
  {
    hide Inv, Legal, Retire, Answer;
    RetireMeans(s, id, alloc);
  }

  lemma {:induction false} SweepRemembers(s: Fences, ids: seq<nat>, alloc: Alloc, r: Recent)
    requires Inv(s) && Legal(alloc) && Remembers(s, r)
    ensures Remembers(Sweep(s, ids, alloc), RecentSwept(r, s, ids, alloc))
    decreases |ids|
  {
    hide Inv, Legal, Retire, RecentRetired, Remembers;
    if ids != [] {
      if ids[0] in s.entries {
        RetireRemembers(s, ids[0], alloc, r);
        RetireInv(s, ids[0], alloc);
        SweepRemembers(Retire(s, ids[0], alloc), ids[1..], alloc, RecentRetired(r, s, ids[0], alloc));
      } else {
        SweepRemembers(s, ids[1..], alloc, r);
      }
    }
  }

  lemma InsertRemembers(s: Fences, id: nat, fd: int, memory: bool, errno: int, alloc: Alloc, r: Recent)
    requires Inv(s) && Legal(alloc) && Remembers(s, r)
    ensures Remembers(Insert(s, id, fd, memory, errno, alloc).0, r)
  {
    Fresh(s, alloc);
  }

  lemma OtherRemembers(s: Fences, op: Op, r: Recent)
    requires Inv(s) && Enabled(s, op) && Remembers(s, r) && !op.Set?
    ensures Remembers(Step(s, op), r)
  {
    if op.Get? || op.LastSignalled? {
      Fresh(s, op.alloc);
    }
  }

  lemma {:induction false} RunRemembers(s: Fences, ops: seq<Op>, t: Fences, r: Recent)
    requires Inv(s) && Runs(s, ops, t) && Remembers(s, r)
    ensures Remembers(t, RecentRun(r, s, ops))
    decreases |ops|
  {
    hide Inv, Enabled, Remembers, Sweep, Insert;
    if ops != [] {
      var op := ops[0];
      StepInv(s, op);
      if op.Set? {
        SetLegal(s, op);
        SweepRemembers(s, op.ids, op.alloc, r);
        SweepInv(s, op.ids, op.alloc);
        InsertRemembers(Sweep(s, op.ids, op.alloc), op.id, op.fd, op.memory, op.errno, op.alloc,
                        RecentSwept(r, s, op.ids, op.alloc));
        RunRemembers(Step(s, op), ops[1..], t, RecentSwept(r, s, op.ids, op.alloc));
      } else {
        OtherRemembers(s, op, r);
        RunRemembers(Step(s, op), ops[1..], t, r);
      }
    }
  }

  lemma SetLegal(s: Fences, op: Op)
    requires op.Set? && Enabled(s, op)
    ensures Legal(op.alloc)
  {
  }

  /**
   * After every run the last-signalled lookup returns a new descriptor, the caller's, of the file of the fence that
   * was retired most recently as signalled; and -1 iff there is none, its dup failed, or the lookup's own dup fails.
   */
  lemma LastIsMostRecent(ops: seq<Op>, s: Fences, alloc: Alloc)
    requires Runs(INITIAL(), ops, s) && Legal(alloc)
    ensures var (t, fd) := GetLast(s, alloc);
      var r := RecentRun(Never, INITIAL(), ops);
      && (fd >= 0 <==> r.Kept? && alloc(s.dups, s.open).Some?)
      && (fd >= 0 ==> fd !in s.open && t.open == s.open[fd := Desc(r.file, false)])
      && (fd < 0 ==> fd == -1 && t.open == s.open)
  {
    RunRemembers(INITIAL(), ops, s, Never);
    Fresh(s, alloc);
  }
}
