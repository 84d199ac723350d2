/** The fence table as the module's own state, updated in place, proved against the functions of FenceTable. */
module FenceStore {
  import opened Bags
  import opened Machine
  import opened FenceTable

  class Store {
    var entries: map<nat, int>
    var last: Last
    var open: map<int, Desc>
    var done: map<File, Status>
    var dups: nat
    ghost var closes: seq<bool>
    ghost var registered: map<nat, File>

    ghost function Abs(): Fences
      reads this
    {
      Fences(entries, last, open, done, dups, closes, registered)
    }

    ghost predicate Valid()
      reads this
    {
      Inv(Abs())
    }

    constructor ()
      ensures Abs() == INITIAL() && Valid()
    {
      entries, last, open, done, dups := map[], Last(0, -1), map[], map[], 0;
      closes, registered := [], map[];
    }

    method CloseFd(fd: int)
      modifies this
      ensures Abs() == Close(old(Abs()), fd)
    {
      closes := closes + [fd in open && open[fd].mine];
      open := open - {fd};
    }

    method DupFd(fd: int, mine: bool, alloc: Alloc) returns (copy: int)
      modifies this
      ensures (Abs(), copy) == Dup(old(Abs()), fd, mine, alloc)
    {
      var r := alloc(dups, open);
      dups := dups + 1;
      if r.None? || fd !in open {
        return -1;
      }
      open := open[r.value := Desc(open[fd].file, mine)];
      return r.value;
    }

    method RetireFence(id: nat, alloc: Alloc)
      requires Valid() && id in entries && Legal(alloc)
      modifies this
      ensures Valid() && Abs() == Retire(old(Abs()), id, alloc)
    {
      hide Inv, Legal;
      RetireInv(Abs(), id, alloc);
      var fd := entries[id];
      var status := if fd !in open then Errored else if open[fd].file in done then done[open[fd].file] else Pending;
      if status == Pending {
        return;
      }
      if status == Signalled {
        if last.fd >= 0 {
          CloseFd(last.fd);
          last := Last(last.id, -1);
        }
        var copy := DupFd(fd, true, alloc);
        last := Last(id, copy);
      }
      entries := entries - {id};
      registered := registered - {id};
      CloseFd(fd);
    }

    /** Retires what the walk collected, then registers a copy of the caller's descriptor. */
    method SetFd(ids: seq<nat>, id: nat, fd: int, memory: bool, errno: int, alloc: Alloc) returns (ret: int)
      requires Valid() && Collects(Abs(), ids) && Legal(alloc)
      modifies this
      ensures Valid() && (Abs(), ret) == FenceTable.SetFd(old(Abs()), ids, id, fd, memory, errno, alloc)
    {
      hide Inv, Legal, Retire, Collects;
      var i := 0;
      assert ids[0..] == ids;
      while i < |ids|
        invariant 0 <= i <= |ids| && Valid()
        invariant Sweep(Abs(), ids[i..], alloc) == Sweep(old(Abs()), ids, alloc)
      {
        assert ids[i..][1..] == ids[i + 1..];
        if ids[i] in entries {
          RetireFence(ids[i], alloc);
        }
        i := i + 1;
      }
      InsertInv(Abs(), id, fd, memory, errno, alloc);
      if id in entries {
        return -EBUSY;
      }
      if !memory {
        return -ENOMEM;
      }
      var copy := DupFd(fd, true, alloc);
      if copy < 0 || copy !in open {
        return -errno;
      }
      entries := entries[id := copy];
      registered := registered[id := open[copy].file];
      return 0;
    }

    method GetFd(id: nat, alloc: Alloc) returns (fd: int)
      requires Valid() && Legal(alloc)
      modifies this
      ensures Valid() && (Abs(), fd) == FenceTable.GetFd(old(Abs()), id, alloc)
    {
      fd := -1;
      if id in entries {
        GetInv(Abs(), entries[id], alloc);
        fd := DupFd(entries[id], false, alloc);
      }
    }

    method GetLastSignalled(alloc: Alloc) returns (fd: int)
      requires Valid() && Legal(alloc)
      modifies this
      ensures Valid() && (Abs(), fd) == GetLast(old(Abs()), alloc)
    {
      fd := -1;
      if last.fd >= 0 {
        GetInv(Abs(), last.fd, alloc);
        fd := DupFd(last.fd, false, alloc);
      }
    }

    /** Closes what the walk over the hash table sees, and the last signalled descriptor. */
    method CleanupTable(ids: seq<nat>)
      requires Valid() && Walks(Abs(), ids)
      modifies this
      ensures Valid() && Abs() == Cleanup(old(Abs()), ids)
    {
      CleanupLeaves(Abs(), ids);
      hide Inv, Walks, Cleanup;
      var i := 0;
      assert ids[0..] == ids;
      while i < |ids|
        invariant 0 <= i <= |ids|
        invariant CloseAll(Abs(), ids[i..]) == CloseAll(old(Abs()), ids)
      {
        assert ids[i..][1..] == ids[i + 1..];
        if ids[i] in entries {
          var fd := entries[ids[i]];
          entries := entries - {ids[i]};
          registered := registered - {ids[i]};
          CloseFd(fd);
        }
        i := i + 1;
      }
      if last.fd >= 0 {
        CloseFd(last.fd);
        last := Last(last.id, -1);
      }
    }
  }
}
