/** Sums of multisets over a sequence: the bookkeeping behind every reference count. */
module Bags {

  datatype Option<+T> = None | Some(value: T)

  /** The sum of `f(x)` over all `x` in `xs`, with multiplicity. */
  function Sum<T, E>(f: T -> multiset<E>, xs: seq<T>): multiset<E> {
    if xs == [] then multiset{} else f(xs[0]) + Sum(f, xs[1..])
  }

  lemma {:induction false} SumConcat<T, E>(f: T -> multiset<E>, a: seq<T>, b: seq<T>)
    ensures Sum(f, a + b) == Sum(f, a) + Sum(f, b)
  {
    if a == [] {
      assert a + b == b;
    } else {
      SumConcat(f, a[1..], b);
      assert (a + b)[1..] == a[1..] + b;
    }
  }

  /** Replacing element `i` trades its share of the sum for the new one. */
  lemma SumUpdate<T, E>(f: T -> multiset<E>, xs: seq<T>, i: nat, x: T)
    requires i < |xs|
    ensures Sum(f, xs[i := x]) + f(xs[i]) == Sum(f, xs) + f(x)
  {
    SumAt(f, xs, i);
    SumAt(f, xs[i := x], i);
    assert xs[i := x][..i] == xs[..i] && xs[i := x][i + 1..] == xs[i + 1..];
  }

  lemma SumAt<T, E>(f: T -> multiset<E>, xs: seq<T>, i: nat)
    requires i < |xs|
    ensures Sum(f, xs) == Sum(f, xs[..i]) + f(xs[i]) + Sum(f, xs[i + 1..])
  {
    assert xs == xs[..i] + ([xs[i]] + xs[i + 1..]);
    SumConcat(f, xs[..i], [xs[i]] + xs[i + 1..]);
    assert ([xs[i]] + xs[i + 1..])[1..] == xs[i + 1..];
  }

  /** Deleting element `i` takes exactly its share out of the sum. */
  lemma SumRemove<T, E>(f: T -> multiset<E>, xs: seq<T>, i: nat)
    requires i < |xs|
    ensures Sum(f, xs[..i] + xs[i + 1..]) + f(xs[i]) == Sum(f, xs)
  {
    SumAt(f, xs, i);
    SumConcat(f, xs[..i], xs[i + 1..]);
  }

  lemma SumAppend<T, E>(f: T -> multiset<E>, xs: seq<T>, x: T)
    ensures Sum(f, xs + [x]) == Sum(f, xs) + f(x)
  {
    SumConcat(f, xs, [x]);
    assert [x][1..] == [];
  }

  /** A summand is contained in the sum. */
  lemma SumContains<T, E>(f: T -> multiset<E>, xs: seq<T>, x: T)
    requires x in xs
    ensures f(x) <= Sum(f, xs)
  {
    var i :| 0 <= i < |xs| && xs[i] == x;
    SumAt(f, xs, i);
  }

  /** Whatever occurs in the sum occurs in some summand. */
  lemma {:induction false} SumSource<T, E>(f: T -> multiset<E>, xs: seq<T>, e: E)
    requires e in Sum(f, xs)
    ensures exists x :: x in xs && e in f(x)
  {
    if e in f(xs[0]) {
      assert xs[0] in xs;
    } else {
      SumSource(f, xs[1..], e);
      var x :| x in xs[1..] && e in f(x);
      assert x in xs;
    }
  }

  lemma {:induction false} SumPointwise<T, E>(f: T -> multiset<E>, a: seq<T>, b: seq<T>)
    requires |a| == |b| && forall i :: 0 <= i < |a| ==> f(a[i]) == f(b[i])
    ensures Sum(f, a) == Sum(f, b)
  {
    if a != [] {
      SumPointwise(f, a[1..], b[1..]);
    }
  }

  lemma {:induction false} SumEmpty<T, E>(f: T -> multiset<E>, xs: seq<T>)
    requires forall x :: x in xs ==> f(x) == multiset{}
    ensures Sum(f, xs) == multiset{}
  {
    if xs != [] {
      assert xs[0] in xs;
      SumEmpty(f, xs[1..]);
    }
  }

  /** Swapping a share `x` for `x + d` grows the sum by `d`. */
  lemma Cancel<E>(after: multiset<E>, before: multiset<E>, x: multiset<E>, d: multiset<E>)
    requires after + x == before + (x + d)
    ensures after == before + d
  {
    forall e ensures after[e] == (before + d)[e] {
      assert (after + x)[e] == (before + (x + d))[e];
    }
  }
}
