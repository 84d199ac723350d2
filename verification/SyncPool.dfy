/** The pool of reference-counted syncs with its recycling free list. */
module SyncPool {
  import opened Bags

  /** Address of a malloc'ed sync. */
  type Ref = nat

  datatype Sync = Sync(id: int, refcount: int, value: nat)

  datatype Pool = Pool(syncs: map<Ref, Sync>, free: seq<Ref>, nextId: int)

  const EMPTY_POOL := Pool(map[], [], 1)

  /** Takes a sync from the free list, or mallocs one when the list is empty. */
  function New(p: Pool, value: nat, mem: Option<Ref>): (o: (Pool, Option<Ref>))
    requires forall r :: r in p.free ==> r in p.syncs
    ensures o.1.Some? ==> o.1.value in o.0.syncs
  {
    if p.free != [] then
      var r := p.free[0];
      (p.(syncs := p.syncs[r := Sync(p.syncs[r].id, 1, value)], free := p.free[1..]), Some(r))
    else if mem.None? then
      (p, None)
    else
      (p.(syncs := p.syncs[mem.value := Sync(p.nextId, 1, value)], nextId := p.nextId + 1), mem)
  }

  // A reference that is not in the pool is left alone; `Counted` rules that case out.

  function AddRef(p: Pool, r: Ref): Pool {
    if r !in p.syncs then p
    else p.(syncs := p.syncs[r := p.syncs[r].(refcount := p.syncs[r].refcount + 1)])
  }

  function Unref(p: Pool, r: Ref): Pool {
    if r !in p.syncs then p
    else
      var n := p.syncs[r].refcount - 1;
      var q := p.(syncs := p.syncs[r := p.syncs[r].(refcount := n)]);
      if n != 0 then q else q.(free := [r] + q.free)
  }

  function SetValue(p: Pool, r: Ref, value: nat): Pool {
    if r !in p.syncs then p else p.(syncs := p.syncs[r := p.syncs[r].(value := value)])
  }

  function UnrefAll(p: Pool, refs: seq<Ref>): Pool
    decreases |refs|
  {
    if refs == [] then p else UnrefAll(Unref(p, refs[0]), refs[1..])
  }

  /** Sync ids are unique and below the next one handed out. */
  ghost predicate IdsUnique(p: Pool) {
    && 1 <= p.nextId
    && (forall r :: r in p.syncs ==> 1 <= p.syncs[r].id < p.nextId)
    && (forall r, q :: r in p.syncs && q in p.syncs && p.syncs[r].id == p.syncs[q].id ==> r == q)
  }

  /** The free list names exactly the syncs without references, each once. */
  ghost predicate FreeExact(p: Pool) {
    && (forall r :: r in p.free <==> r in p.syncs && p.syncs[r].refcount == 0)
    && (forall i, j :: 0 <= i < j < |p.free| ==> p.free[i] != p.free[j])
  }

  /** Every reference count is the number of holders in `held`. */
  ghost predicate Counted(p: Pool, held: multiset<Ref>) {
    && IdsUnique(p)
    && FreeExact(p)
    && (forall r :: r in held ==> r in p.syncs)
    && (forall r :: r in p.syncs ==> p.syncs[r].refcount == held[r])
  }

  /** The pools differ at most in reference counts and free list. */
  ghost predicate SameSyncs(p: Pool, q: Pool) {
    && p.syncs.Keys == q.syncs.Keys && p.nextId == q.nextId
    && (forall r :: r in p.syncs ==> p.syncs[r].id == q.syncs[r].id && p.syncs[r].value == q.syncs[r].value)
  }

  lemma CountedNew(p: Pool, held: multiset<Ref>, value: nat, mem: Option<Ref>)
    requires Counted(p, held)
    requires mem.Some? ==> mem.value !in p.syncs
    ensures var (q, r) := New(p, value, mem);
      && (r.None? <==> p.free == [] && mem.None?)
      && (r.None? ==> q == p)
      && (r.Some? ==> Counted(q, held + multiset{r.value}) && held[r.value] == 0)
      && (r.Some? ==> r.value in q.syncs && q.syncs[r.value].value == value)
      && (forall k :: k in p.syncs ==> k in q.syncs && q.syncs[k].id == p.syncs[k].id)
      && (forall k :: k in held ==> q.syncs[k] == p.syncs[k])
  {
    if p.free != [] {
      assert p.free[0] in p.free;
      IdsUniqueNew(p, value, mem);
      FreeExactNew(p, value, mem);
    } else if mem.Some? {
      IdsUniqueNew(p, value, mem);
      FreeExactNew(p, value, mem);
      assert mem.value !in held;
    }
  }

  lemma IdsUniqueNew(p: Pool, value: nat, mem: Option<Ref>)
    requires IdsUnique(p) && FreeExact(p)
    requires mem.Some? ==> mem.value !in p.syncs
    ensures IdsUnique(New(p, value, mem).0)
  {
    var q := New(p, value, mem).0;
    if p.free != [] {
      assert p.free[0] in p.free;
      assert forall r :: r in q.syncs ==> r in p.syncs && q.syncs[r].id == p.syncs[r].id;
    }
  }

  lemma FreeExactNew(p: Pool, value: nat, mem: Option<Ref>)
    requires FreeExact(p)
    requires mem.Some? ==> mem.value !in p.syncs
    ensures FreeExact(New(p, value, mem).0)
  {
    if p.free != [] {
      var r := p.free[0];
      forall k ensures k in p.free[1..] <==> k in p.free && k != r {
        if k in p.free && k != r {
          var i :| 0 <= i < |p.free| && p.free[i] == k;
          assert p.free[1..][i - 1] == k;
        }
      }
    }
  }

  lemma CountedAddRef(p: Pool, held: multiset<Ref>, r: Ref)
    requires Counted(p, held) && r in held
    ensures Counted(AddRef(p, r), held + multiset{r})
    ensures SameSyncs(p, AddRef(p, r))
  {
  }

  lemma CountedUnref(p: Pool, held: multiset<Ref>, r: Ref)
    requires Counted(p, held) && r in held
    ensures p.syncs[r].refcount > 0
    ensures Counted(Unref(p, r), held - multiset{r})
    ensures SameSyncs(p, Unref(p, r))
  {
    var q := Unref(p, r);
    IdsUniqueSame(p, q);
    FreeExactUnref(p, r);
    forall k | k in held - multiset{r} ensures k in q.syncs {
      assert k in held;
    }
  }

  lemma IdsUniqueSame(p: Pool, q: Pool)
    requires IdsUnique(p) && SameSyncs(p, q)
    ensures IdsUnique(q)
  {
  }

  lemma FreeExactUnref(p: Pool, r: Ref)
    requires FreeExact(p) && r in p.syncs && p.syncs[r].refcount > 0
    ensures FreeExact(Unref(p, r))
  {
    assert r !in p.free;
    var q := Unref(p, r);
    forall k ensures k in q.free <==> k in q.syncs && q.syncs[k].refcount == 0 {
      assert k in q.free <==> k in p.free || (k == r && p.syncs[r].refcount == 1);
    }
  }

  lemma CountedSetValue(p: Pool, held: multiset<Ref>, r: Ref, value: nat)
    requires Counted(p, held)
    ensures Counted(SetValue(p, r, value), held)
  {
  }

  lemma {:induction false} CountedUnrefAll(p: Pool, held: multiset<Ref>, refs: seq<Ref>)
    requires Counted(p, held + multiset(refs))
    ensures Counted(UnrefAll(p, refs), held)
    ensures SameSyncs(p, UnrefAll(p, refs))
    decreases |refs|
  {
    if refs == [] {
      assert held + multiset(refs) == held;
    } else {
      var r, rest := refs[0], refs[1..];
      assert refs == [r] + rest;
      CountedUnref(p, held + multiset(refs), r);
      assert held + multiset(refs) - multiset{r} == held + multiset(rest);
      CountedUnrefAll(Unref(p, r), held, rest);
    }
  }
}
