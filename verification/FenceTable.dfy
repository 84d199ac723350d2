/**
 * The table of fence file descriptors: registering, looking up, sweeping signalled fences, and cleaning up, over a
 * kernel that hands out descriptor numbers and may refuse to.
 *
 * Ids 0 and 1 live outside the hash table proper, so the walks over it do not see them.
 */
module FenceTable {
  import opened Bags
  import opened Machine

  const SWEEP_MAX: nat := 64

  /** The sync file that a descriptor refers to. */
  type File = nat

  datatype Status = Pending | Signalled | Errored

  /** An open descriptor: its file, and whether this module, not its caller, has to close it. */
  datatype Desc = Desc(file: File, mine: bool)

  datatype Last = Last(id: nat, fd: int)

  /** `closes` records of each close whether the descriptor was open and this module's. */
  datatype Fences = Fences(entries: map<nat, int>, last: Last, open: map<int, Desc>, done: map<File, Status>,
                           dups: nat, closes: seq<bool>, registered: map<nat, File>)

  /** How the kernel answers each dup: a new number, or nothing. */
  type Alloc = (nat, map<int, Desc>) -> Option<int>

  ghost predicate Legal(alloc: Alloc) {
    forall n, open :: alloc(n, open).Some? ==> alloc(n, open).value >= 0 && alloc(n, open).value !in open
  }

  predicate Special(id: nat) {
    id == 0 || id == 1
  }

  function StatusOf(s: Fences, f: File): Status {
    if f in s.done then s.done[f] else Pending
  }

  function INITIAL(): Fences {
    Fences(map[], Last(0, -1), map[], map[], 0, [], map[])
  }

  // --- the operations ------------------------------------------------------------------------

  function Close(s: Fences, fd: int): Fences {
    s.(open := s.open - {fd}, closes := s.closes + [fd in s.open && s.open[fd].mine])
  }

  function Dup(s: Fences, fd: int, mine: bool, alloc: Alloc): (Fences, int) {
    var r := alloc(s.dups, s.open);
    var t := s.(dups := s.dups + 1);
    if r.None? || fd !in s.open then (t, -1)
    else (t.(open := s.open[r.value := Desc(s.open[fd].file, mine)]), r.value)
  }

  function Forget(s: Fences): Fences {
    if s.last.fd >= 0 then Close(s, s.last.fd).(last := Last(s.last.id, -1)) else s
  }

  /** Remembers a signalled fence's descriptor, closing the one remembered before. */
  function Remember(s: Fences, id: nat, fd: int, alloc: Alloc): Fences {
    var (u, copy) := Dup(Forget(s), fd, true, alloc);
    u.(last := Last(id, copy))
  }

  function Remove(s: Fences, id: nat): Fences
    requires id in s.entries
  {
    Close(s.(entries := s.entries - {id}, registered := s.registered - {id}), s.entries[id])
  }

  /** A zero-timeout wait: only the file decides, so the wait itself never fails on a pending file. */
  function WaitFor(s: Fences, fd: int): Status {
    if fd in s.open then StatusOf(s, s.open[fd].file) else Errored
  }

  function Retire(s: Fences, id: nat, alloc: Alloc): Fences
    requires id in s.entries
  {
    match WaitFor(s, s.entries[id])
    case Pending => s
    case Errored => Remove(s, id)
    case Signalled =>
      var t := Remember(s, id, s.entries[id], alloc);
      if id in t.entries then Remove(t, id) else t
  }

  function Sweep(s: Fences, ids: seq<nat>, alloc: Alloc): Fences
    decreases |ids|
  {
    if ids == [] then s
    else Sweep(if ids[0] in s.entries then Retire(s, ids[0], alloc) else s, ids[1..], alloc)
  }

  /** What the walk over the hash table may collect: distinct ids, up to 64, all of them if there are no more. */
  ghost predicate Collects(s: Fences, ids: seq<nat>) {
    && (forall i, j :: 0 <= i < j < |ids| ==> ids[i] != ids[j])
    && (forall i :: 0 <= i < |ids| ==> ids[i] in s.entries && !Special(ids[i]))
    && |ids| <= SWEEP_MAX
    && (|ids| < SWEEP_MAX ==> forall id :: id in s.entries && !Special(id) ==> id in ids)
  }

  function Insert(s: Fences, id: nat, fd: int, memory: bool, errno: int, alloc: Alloc): (Fences, int) {
    if id in s.entries then (s, -EBUSY)
    else if !memory then (s, -ENOMEM)
    else
      var (t, copy) := Dup(s, fd, true, alloc);
      if copy < 0 || copy !in t.open then (t, -errno)
      else (t.(entries := t.entries[id := copy], registered := t.registered[id := t.open[copy].file]), 0)
  }

  function SetFd(s: Fences, ids: seq<nat>, id: nat, fd: int, memory: bool, errno: int, alloc: Alloc): (Fences, int) {
    Insert(Sweep(s, ids, alloc), id, fd, memory, errno, alloc)
  }

  /** The descriptor returned belongs to the caller. */
  function GetFd(s: Fences, id: nat, alloc: Alloc): (Fences, int) {
    if id in s.entries then Dup(s, s.entries[id], false, alloc) else (s, -1)
  }

  function GetLast(s: Fences, alloc: Alloc): (Fences, int) {
    if s.last.fd >= 0 then Dup(s, s.last.fd, false, alloc) else (s, -1)
  }

  /** Closes the descriptors of the given ids, in order. */
  function CloseAll(s: Fences, ids: seq<nat>): Fences
    decreases |ids|
  {
    if ids == [] then s
    else CloseAll(if ids[0] in s.entries then Remove(s, ids[0]) else s, ids[1..])
  }

  /** `ids` is the walk over the hash table. */
  function Cleanup(s: Fences, ids: seq<nat>): Fences {
    Forget(CloseAll(s, ids))
  }

  // --- the invariant -------------------------------------------------------------------------

  ghost predicate EntriesOk(s: Fences) {
    && s.registered.Keys == s.entries.Keys
    && (forall id :: id in s.entries ==>
          s.entries[id] in s.open && s.open[s.entries[id]] == Desc(s.registered[id], true)
            && s.entries[id] != s.last.fd)
    && (forall i, j :: i in s.entries && j in s.entries && i != j ==> s.entries[i] != s.entries[j])
  }

  /** The remembered descriptor is this module's, of a file that has signalled. */
  ghost predicate LastOk(s: Fences) {
    s.last.fd >= 0 ==>
      s.last.fd in s.open && s.open[s.last.fd].mine && StatusOf(s, s.open[s.last.fd].file).Signalled?
  }

  ghost predicate Owned(s: Fences, fd: int) {
    (s.last.fd >= 0 && fd == s.last.fd) || exists id :: id in s.entries && s.entries[id] == fd
  }

  ghost predicate OpenOk(s: Fences) {
    forall fd :: fd in s.open ==> fd >= 0 && (s.open[fd].mine ==> Owned(s, fd))
  }

  ghost predicate Inv(s: Fences) {
    EntriesOk(s) && LastOk(s) && OpenOk(s) && forall i :: 0 <= i < |s.closes| ==> s.closes[i]
  }

  // --- each operation keeps it ---------------------------------------------------------------

  lemma ForgetInv(s: Fences)
    requires Inv(s)
    ensures Inv(Forget(s)) && Forget(s).last.fd < 0
  {
    var t := Forget(s);
    forall fd | fd in t.open ensures fd >= 0 && (t.open[fd].mine ==> Owned(t, fd)) {
      if t.open[fd].mine {
        assert Owned(s, fd);
      }
    }
  }

  /** A copy that this module keeps as the last signalled one. */
  lemma KeepCopy(s: Fences, id: nat, fd: int, alloc: Alloc)
    requires Inv(s) && s.last.fd < 0 && Legal(alloc) && (fd in s.open ==> StatusOf(s, s.open[fd].file).Signalled?)
    ensures var (u, copy) := Dup(s, fd, true, alloc); Inv(u.(last := Last(id, copy)))
  {
    var (d, copy) := Dup(s, fd, true, alloc);
    var u := d.(last := Last(id, copy));
    forall f | f in u.open ensures f >= 0 && (u.open[f].mine ==> Owned(u, f)) {
      if f != copy && u.open[f].mine {
        assert Owned(s, f);
      }
    }
  }

  lemma ForgetFiles(s: Fences, fd: int)
    ensures var t := Forget(s); t.done == s.done && (fd in t.open ==> fd in s.open && t.open[fd] == s.open[fd])
  {
  }

  lemma RememberInv(s: Fences, id: nat, fd: int, alloc: Alloc)
    requires Inv(s) && Legal(alloc) && WaitFor(s, fd).Signalled?
    ensures Inv(Remember(s, id, fd, alloc))
  {
    ForgetFiles(s, fd);
    hide Inv, Legal, Forget, Dup;
    ForgetInv(s);
    KeepCopy(Forget(s), id, fd, alloc);
  }

  lemma RemoveInv(s: Fences, id: nat)
    requires Inv(s) && id in s.entries
    ensures Inv(Remove(s, id))
  {
    var t := Remove(s, id);
    forall fd | fd in t.open ensures fd >= 0 && (t.open[fd].mine ==> Owned(t, fd)) {
      if t.open[fd].mine && fd != t.last.fd {
        var i :| i in s.entries && s.entries[i] == fd;
        assert i in t.entries && t.entries[i] == fd;
      }
    }
  }

  lemma RetireInv(s: Fences, id: nat, alloc: Alloc)
    requires Inv(s) && id in s.entries && Legal(alloc)
    ensures Inv(Retire(s, id, alloc))
  {
    hide Inv;
    match WaitFor(s, s.entries[id])
    case Pending =>
    case Errored => RemoveInv(s, id);
    case Signalled =>
      RememberInv(s, id, s.entries[id], alloc);
      RemoveInv(Remember(s, id, s.entries[id], alloc), id);
  }

  lemma {:induction false} SweepInv(s: Fences, ids: seq<nat>, alloc: Alloc)
    requires Inv(s) && Legal(alloc)
    ensures Inv(Sweep(s, ids, alloc))
    decreases |ids|
  {
    hide Inv, Retire;
    if ids != [] {
      if ids[0] in s.entries {
        RetireInv(s, ids[0], alloc);
      }
      SweepInv(if ids[0] in s.entries then Retire(s, ids[0], alloc) else s, ids[1..], alloc);
    }
  }

  /** Registering a new descriptor of this module's. */
  function Register(s: Fences, id: nat, fd: int, file: File): Fences {
    s.(open := s.open[fd := Desc(file, true)], entries := s.entries[id := fd], registered := s.registered[id := file])
  }

  lemma RegisterEntries(s: Fences, id: nat, fd: int, file: File)
    requires EntriesOk(s) && LastOk(s) && id !in s.entries && fd >= 0 && fd !in s.open
    ensures EntriesOk(Register(s, id, fd, file)) && LastOk(Register(s, id, fd, file))
  {
    assert forall i :: i in s.entries ==> s.entries[i] in s.open;
  }

  lemma RegisterOpen(s: Fences, id: nat, fd: int, file: File, f: int)
    requires OpenOk(s) && id !in s.entries && fd >= 0
    requires f in Register(s, id, fd, file).open
    ensures var t := Register(s, id, fd, file); f >= 0 && (t.open[f].mine ==> Owned(t, f))
  {
    var t := Register(s, id, fd, file);
    if f == fd {
      assert id in t.entries && t.entries[id] == f;
    } else if t.open[f].mine && f != s.last.fd {
      assert Owned(s, f);
      var i :| i in s.entries && s.entries[i] == f;
      assert i in t.entries && t.entries[i] == f;
    }
  }

  lemma RegisterInv(s: Fences, id: nat, fd: int, file: File)
    requires Inv(s) && id !in s.entries && fd >= 0 && fd !in s.open
    ensures Inv(Register(s, id, fd, file))
  {
    hide EntriesOk, LastOk, Owned;
    RegisterEntries(s, id, fd, file);
    var t := Register(s, id, fd, file);
    forall f | f in t.open ensures f >= 0 && (t.open[f].mine ==> Owned(t, f)) {
      RegisterOpen(s, id, fd, file, f);
    }
  }

  lemma CountDup(s: Fences, n: nat)
    requires Inv(s)
    ensures Inv(s.(dups := n))
  {
  }

  lemma InsertInv(s: Fences, id: nat, fd: int, memory: bool, errno: int, alloc: Alloc)
    requires Inv(s) && Legal(alloc)
    ensures Inv(Insert(s, id, fd, memory, errno, alloc).0)
  {
    hide Inv;
    if id !in s.entries && memory {
      var t := s.(dups := s.dups + 1);
      CountDup(s, s.dups + 1);
      var r := alloc(s.dups, s.open);
      if r.Some? && fd in s.open {
        RegisterInv(t, id, r.value, s.open[fd].file);
      }
    }
  }

  lemma GetInv(s: Fences, fd: int, alloc: Alloc)
    requires Inv(s) && Legal(alloc)
    ensures Inv(Dup(s, fd, false, alloc).0)
  {
    var t := Dup(s, fd, false, alloc).0;
    forall f | f in t.open ensures f >= 0 && (t.open[f].mine ==> Owned(t, f)) {
      if t.open[f].mine {
        assert Owned(s, f);
      }
    }
  }

  // --- runs ----------------------------------------------------------------------------------

  /** Calls into the module, and what happens around it: fences complete, and callers open and close descriptors. */
  datatype Op =
    | Set(ids: seq<nat>, id: nat, fd: int, memory: bool, errno: int, alloc: Alloc)
    | Get(id: nat, alloc: Alloc)
    | LastSignalled(alloc: Alloc)
    | Complete(file: File, status: Status)
    | CallerOpens(fd: int, file: File)
    | CallerCloses(fd: int)

  ghost predicate Enabled(s: Fences, op: Op) {
    match op
    case Set(ids, _, _, _, errno, alloc) => Collects(s, ids) && Legal(alloc) && errno > 0
    case Get(_, alloc) => Legal(alloc)
    case LastSignalled(alloc) => Legal(alloc)
    case Complete(file, status) => file !in s.done && !status.Pending?
    case CallerOpens(fd, _) => fd >= 0 && fd !in s.open
    case CallerCloses(fd) => fd in s.open && !s.open[fd].mine
  }

  function Step(s: Fences, op: Op): Fences {
    match op
    case Set(ids, id, fd, memory, errno, alloc) => SetFd(s, ids, id, fd, memory, errno, alloc).0
    case Get(id, alloc) => GetFd(s, id, alloc).0
    case LastSignalled(alloc) => GetLast(s, alloc).0
    case Complete(file, status) => s.(done := s.done[file := status])
    case CallerOpens(fd, file) => s.(open := s.open[fd := Desc(file, false)])
    case CallerCloses(fd) => s.(open := s.open - {fd})
  }

  lemma AroundInv(s: Fences, op: Op)
    requires Inv(s) && Enabled(s, op) && (op.Complete? || op.CallerOpens? || op.CallerCloses?)
    ensures Inv(Step(s, op))
  {
    var t := Step(s, op);
    forall f | f in t.open ensures f >= 0 && (t.open[f].mine ==> Owned(t, f)) {
      if t.open[f].mine {
        assert Owned(s, f);
      }
    }
  }

  lemma StepInv(s: Fences, op: Op)
    requires Inv(s) && Enabled(s, op)
    ensures Inv(Step(s, op))
  {
    hide Inv, Legal, Collects;
    match op
    case Set(ids, id, fd, memory, errno, alloc) =>
      SweepInv(s, ids, alloc);
      InsertInv(Sweep(s, ids, alloc), id, fd, memory, errno, alloc);
    case Get(id, alloc) =>
      if id in s.entries {
        GetInv(s, s.entries[id], alloc);
      }
    case LastSignalled(alloc) => GetInv(s, s.last.fd, alloc);
    case _ => AroundInv(s, op);
  }

  ghost predicate Runs(s: Fences, ops: seq<Op>, t: Fences)
    decreases |ops|
  {
    if ops == [] then s == t else Enabled(s, ops[0]) && Runs(Step(s, ops[0]), ops[1..], t)
  }

  lemma {:induction false} RunInv(s: Fences, ops: seq<Op>, t: Fences)
    requires Inv(s) && Runs(s, ops, t)
    ensures Inv(t)
    decreases |ops|
  {
    hide Inv, Enabled, Step;
    if ops != [] {
      StepInv(s, ops[0]);
      RunInv(Step(s, ops[0]), ops[1..], t);
    }
  }

  /**
   * In every reachable state the descriptors this module has open are exactly those of the table plus the last
   * signalled one, no two of them equal, and every descriptor it ever closed was open and its own: so each is closed
   * once.
   */
  lemma DescriptorsAccounted(ops: seq<Op>, s: Fences)
    requires Runs(INITIAL(), ops, s)
    ensures forall fd :: Owned(s, fd) <==> fd in s.open && s.open[fd].mine
    ensures forall i, j :: i in s.entries && j in s.entries && i != j ==> s.entries[i] != s.entries[j]
    ensures forall i :: i in s.entries ==> s.entries[i] != s.last.fd
    ensures forall i :: 0 <= i < |s.closes| ==> s.closes[i]
  {
    RunInv(INITIAL(), ops, s);
  }

  /** A lookup in any reachable state returns a new descriptor of the file registered under that id, for the caller. */
  lemma LookupYieldsRegistered(ops: seq<Op>, s: Fences, id: nat, alloc: Alloc)
    requires Runs(INITIAL(), ops, s) && Legal(alloc)
    ensures var (t, fd) := GetFd(s, id, alloc);
      && (fd >= 0 ==> id in s.registered && fd !in s.open && t.open == s.open[fd := Desc(s.registered[id], false)])
      && (fd < 0 ==> fd == -1 && t.open == s.open)
      && (fd >= 0 <==> id in s.registered && alloc(s.dups, s.open).Some?)
  {
    RunInv(INITIAL(), ops, s);
  }

  /** The last-signalled lookup returns a new descriptor, the caller's, of a file that has signalled. */
  lemma LastYieldsSignalled(ops: seq<Op>, s: Fences, alloc: Alloc)
    requires Runs(INITIAL(), ops, s) && Legal(alloc)
    ensures var (t, fd) := GetLast(s, alloc);
      && (fd >= 0 ==>
            && s.last.fd in s.open && StatusOf(s, s.open[s.last.fd].file).Signalled?
            && fd !in s.open && t.open == s.open[fd := Desc(s.open[s.last.fd].file, false)])
      && (fd < 0 ==> fd == -1 && t.open == s.open)
      && (fd >= 0 <==> s.last.fd >= 0 && alloc(s.dups, s.open).Some?)
  {
    RunInv(INITIAL(), ops, s);
  }

  // --- pending fences ------------------------------------------------------------------------

  /** The entry of `id` is the same in both states. */
  ghost predicate SameEntry(s: Fences, t: Fences, id: nat) {
    && id in s.entries && id in t.entries && t.entries[id] == s.entries[id]
    && id in s.registered && id in t.registered && t.registered[id] == s.registered[id]
  }

  lemma RetireKeeps(s: Fences, j: nat, id: nat, alloc: Alloc)
    requires Inv(s) && j in s.entries && id in s.entries
    requires j == id ==> StatusOf(s, s.registered[id]).Pending?
    ensures SameEntry(s, Retire(s, j, alloc), id) && Retire(s, j, alloc).done == s.done
  {
  }

  lemma {:induction false} SweepKeeps(s: Fences, ids: seq<nat>, id: nat, alloc: Alloc)
    requires Inv(s) && Legal(alloc) && id in s.entries
    requires id in ids ==> StatusOf(s, s.registered[id]).Pending?
    ensures SameEntry(s, Sweep(s, ids, alloc), id) && Sweep(s, ids, alloc).done == s.done
    decreases |ids|
  {
    hide Retire, Legal;
    if ids != [] {
      if ids[0] in s.entries {
        RetireKeeps(s, ids[0], id, alloc);
        RetireInv(s, ids[0], alloc);
      }
      var t := if ids[0] in s.entries then Retire(s, ids[0], alloc) else s;
      SweepKeeps(t, ids[1..], id, alloc);
    }
  }

  lemma InsertKeeps(s: Fences, id: nat, j: nat, fd: int, memory: bool, errno: int, alloc: Alloc)
    requires EntriesOk(s) && id in s.entries
    ensures SameEntry(s, Insert(s, j, fd, memory, errno, alloc).0, id)
  {
  }

  lemma SetKeeps(s: Fences, op: Op, id: nat)
    requires Inv(s) && op.Set? && Enabled(s, op) && id in s.entries
    requires Special(id) || StatusOf(s, s.registered[id]).Pending?
    ensures SameEntry(s, Step(s, op), id)
  {
    hide Inv, Insert, Sweep, Legal;
    assert Special(id) ==> id !in op.ids;
    var t := Sweep(s, op.ids, op.alloc);
    SweepKeeps(s, op.ids, id, op.alloc);
    SweepInv(s, op.ids, op.alloc);
    InvEntries(t);
    InsertKeeps(t, id, op.id, op.fd, op.memory, op.errno, op.alloc);
  }

  lemma InvEntries(s: Fences)
    requires Inv(s)
    ensures EntriesOk(s)
  {
  }

  lemma StepKeeps(s: Fences, op: Op, id: nat)
    requires Inv(s) && Enabled(s, op) && id in s.entries
    requires Special(id) || StatusOf(s, s.registered[id]).Pending?
    ensures SameEntry(s, Step(s, op), id)
  {
    if op.Set? {
      SetKeeps(s, op, id);
    } else {
      hide Sweep;
    }
  }

  lemma StatusMonotone(s: Fences, op: Op, f: File)
    requires Inv(s) && Enabled(s, op) && StatusOf(Step(s, op), f).Pending?
    ensures StatusOf(s, f).Pending?
  {
    if op.Set? {
      SweepDone(s, op.ids, op.alloc);
    }
  }

  lemma {:induction false} SweepDone(s: Fences, ids: seq<nat>, alloc: Alloc)
    ensures Sweep(s, ids, alloc).done == s.done
    decreases |ids|
  {
    if ids != [] {
      SweepDone(if ids[0] in s.entries then Retire(s, ids[0], alloc) else s, ids[1..], alloc);
    }
  }

  lemma {:induction false} RunStatusMonotone(s: Fences, ops: seq<Op>, t: Fences, f: File)
    requires Inv(s) && Runs(s, ops, t) && StatusOf(t, f).Pending?
    ensures StatusOf(s, f).Pending?
    decreases |ops|
  {
    hide Inv, Enabled, Step;
    if ops != [] {
      StepInv(s, ops[0]);
      RunStatusMonotone(Step(s, ops[0]), ops[1..], t, f);
      StatusMonotone(s, ops[0], f);
    }
  }

  /**
   * No pending fence is ever retired or overwritten: whatever happens, an id registered now keeps its descriptor and
   * its file for as long as that file has not completed.
   * This supposes what `WaitFor` does: that waiting on a pending file reports it as pending.  The program retires a
   * fence also when the wait itself fails for another reason.
   */
  lemma {:induction false} PendingKept(s: Fences, ops: seq<Op>, t: Fences, id: nat)
    requires Inv(s) && Runs(s, ops, t) && id in s.entries
    requires StatusOf(t, s.registered[id]).Pending?
    ensures SameEntry(s, t, id)
    decreases |ops|
  {
    if ops != [] {
      RunStatusMonotone(s, ops, t, s.registered[id]);
      hide Enabled, Step;
      StepKeeps(s, ops[0], id);
      StepInv(s, ops[0]);
      PendingKept(Step(s, ops[0]), ops[1..], t, id);
    }
  }

  // --- retiring ------------------------------------------------------------------------------

  lemma RetireRemoves(s: Fences, id: nat, alloc: Alloc)
    requires Inv(s) && id in s.entries && !StatusOf(s, s.registered[id]).Pending?
    ensures id !in Retire(s, id, alloc).entries
  {
  }

  lemma {:induction false} SweepRemovesOnly(s: Fences, ids: seq<nat>, id: nat, alloc: Alloc)
    requires Inv(s) && Legal(alloc) && id !in s.entries
    ensures id !in Sweep(s, ids, alloc).entries
    decreases |ids|
  {
    hide Legal;
    if ids != [] {
      if ids[0] in s.entries {
        RetireInv(s, ids[0], alloc);
      }
      SweepRemovesOnly(if ids[0] in s.entries then Retire(s, ids[0], alloc) else s, ids[1..], id, alloc);
    }
  }

  lemma {:induction false} SweepRemoves(s: Fences, ids: seq<nat>, id: nat, alloc: Alloc)
    requires Inv(s) && Legal(alloc) && id in s.entries && id in ids && !StatusOf(s, s.registered[id]).Pending?
    requires forall i, j :: 0 <= i < j < |ids| ==> ids[i] != ids[j]
    ensures id !in Sweep(s, ids, alloc).entries
    decreases |ids|
  {
    hide Retire, Legal;
    if ids[0] in s.entries {
      RetireInv(s, ids[0], alloc);
    }
    var t := if ids[0] in s.entries then Retire(s, ids[0], alloc) else s;
    if ids[0] == id {
      RetireRemoves(s, id, alloc);
      SweepRemovesOnly(t, ids[1..], id, alloc);
    } else {
      if ids[0] in s.entries {
        RetireKeeps(s, ids[0], id, alloc);
      }
      SweepRemoves(t, ids[1..], id, alloc);
    }
  }

  /** An id is refused as busy iff it is registered and its fence is pending, or the sweep did not look at it. */
  lemma SetBusyIff(s: Fences, ids: seq<nat>, id: nat, fd: int, memory: bool, errno: int, alloc: Alloc)
    requires Inv(s) && Legal(alloc) && Collects(s, ids) && errno > 0 && errno != EBUSY
    ensures SetFd(s, ids, id, fd, memory, errno, alloc).1 == -EBUSY <==>
      id in s.entries && (id !in ids || StatusOf(s, s.registered[id]).Pending?)
    ensures Special(id) ==> id !in ids
  {
    if id !in s.entries {
      SweepRemovesOnly(s, ids, id, alloc);
    } else if id in ids && !StatusOf(s, s.registered[id]).Pending? {
      SweepRemoves(s, ids, id, alloc);
    } else {
      SweepKeeps(s, ids, id, alloc);
    }
  }

  /** Ids 0 and 1 are never retired, even when their fence has signalled. */
  lemma {:induction false} SpecialKept(s: Fences, ops: seq<Op>, t: Fences, id: nat)
    requires Inv(s) && Runs(s, ops, t) && id in s.entries && Special(id)
    ensures SameEntry(s, t, id)
    decreases |ops|
  {
    if ops != [] {
      hide Enabled, Step;
      StepKeeps(s, ops[0], id);
      StepInv(s, ops[0]);
      SpecialKept(Step(s, ops[0]), ops[1..], t, id);
    }
  }

  // --- cleaning up ---------------------------------------------------------------------------

  /** The walk at cleanup sees every id in the hash table proper, once. */
  ghost predicate Walks(s: Fences, ids: seq<nat>) {
    && (forall i, j :: 0 <= i < j < |ids| ==> ids[i] != ids[j])
    && forall id :: id in ids <==> id in s.entries && !Special(id)
  }

  lemma {:induction false} CloseAllInv(s: Fences, ids: seq<nat>)
    requires Inv(s)
    ensures Inv(CloseAll(s, ids))
    ensures forall id :: id in CloseAll(s, ids).entries <==> id in s.entries && id !in ids
    ensures forall id :: id in CloseAll(s, ids).entries ==> CloseAll(s, ids).entries[id] == s.entries[id]
    decreases |ids|
  {
    if ids != [] {
      if ids[0] in s.entries {
        RemoveInv(s, ids[0]);
      }
      hide Inv;
      CloseAllInv(if ids[0] in s.entries then Remove(s, ids[0]) else s, ids[1..]);
      assert forall id :: id in ids <==> id == ids[0] || id in ids[1..];
    }
  }

  /**
   * What this module leaves open after cleanup is exactly what is registered under ids 0 and 1; every close on the
   * way was of an open descriptor of its own.
   */
  lemma CleanupLeaves(s: Fences, ids: seq<nat>)
    requires Inv(s) && Walks(s, ids)
    ensures Inv(Cleanup(s, ids))
    ensures var t := Cleanup(s, ids);
      forall fd :: (fd in t.open && t.open[fd].mine) <==>
        exists id :: id in s.entries && Special(id) && s.entries[id] == fd
  {
    CloseAllInv(s, ids);
    ForgetInv(CloseAll(s, ids));
    var u, t := CloseAll(s, ids), Cleanup(s, ids);
    assert t.entries == u.entries;
    hide CloseAll, Forget;
    forall fd
      ensures (fd in t.open && t.open[fd].mine) <==> exists id :: id in s.entries && Special(id) && s.entries[id] == fd
    {
      assert (fd in t.open && t.open[fd].mine) <==> Owned(t, fd);
      if Owned(t, fd) {
        var id :| id in t.entries && t.entries[id] == fd;
        assert id in s.entries && s.entries[id] == fd;
      }
      if exists id :: id in s.entries && Special(id) && s.entries[id] == fd {
        var id :| id in s.entries && Special(id) && s.entries[id] == fd;
        assert id in t.entries && t.entries[id] == fd;
      }
    }
  }

  /** So cleanup leaves nothing open iff neither id 0 nor id 1 is registered. */
  lemma CleanupLeavesNoneIff(s: Fences, ids: seq<nat>)
    requires Inv(s) && Walks(s, ids)
    ensures (forall fd :: fd in Cleanup(s, ids).open ==> !Cleanup(s, ids).open[fd].mine) <==>
      0 !in s.entries && 1 !in s.entries
  {
    CleanupLeaves(s, ids);
    var t := Cleanup(s, ids);
    if 0 in s.entries {
      var fd := s.entries[0];
      assert fd in t.open && t.open[fd].mine;
    }
    if 1 in s.entries {
      var fd := s.entries[1];
      assert fd in t.open && t.open[fd].mine;
    }
  }

  /** A run after which cleanup leaves a descriptor open: register a fence under id 0, then clean up. */
  lemma CleanupLeavesIdZero(alloc: Alloc)
    requires Legal(alloc) && alloc(0, map[3 := Desc(7, false)]) == Some(4)
    ensures var ops := [CallerOpens(3, 7), Set([], 0, 3, true, 24, alloc)];
      exists s :: Runs(INITIAL(), ops, s) && Walks(s, []) && 4 in Cleanup(s, []).open && Cleanup(s, []).open[4].mine
  {
    var a := CallerOpens(3, 7);
    var b := Set([], 0, 3, true, 24, alloc);
    var ops := [a, b];
    var s1 := Step(INITIAL(), a);
    assert s1.open == map[3 := Desc(7, false)];
    var s2 := Step(s1, b);
    assert ops[0] == a && ops[1..] == [b] && [b][0] == b && [b][1..] == [];
    assert Runs(s2, [], s2);
    assert Runs(s1, [b], s2);
    assert Runs(INITIAL(), ops, s2);
    assert s2.entries == map[0 := 4];
  }
}
