/** Stable insertion sort by a strict order, as the library sorts of the source behave. */
module Sorting {

  function Insert<T>(before: (T, T) -> bool, x: T, xs: seq<T>): seq<T> {
    if xs == [] then [x]
    else if before(x, xs[0]) then [x] + xs
    else [xs[0]] + Insert(before, x, xs[1..])
  }

  function Sort<T>(before: (T, T) -> bool, xs: seq<T>): seq<T> {
    if xs == [] then [] else Insert(before, xs[|xs| - 1], Sort(before, xs[..|xs| - 1]))
  }

  /** A strict order in which being neither before nor after is transitive, as comparators need. */
  ghost predicate WeakOrder<T(!new)>(before: (T, T) -> bool) {
    && (forall x :: !before(x, x))
    && (forall x, y, z :: before(x, y) && before(y, z) ==> before(x, z))
    && (forall x, y, z :: !before(x, y) && !before(y, z) ==> !before(x, z))
  }

  type TextOrder = (string, string) -> bool

  /** As a deterministic text order is: distinct elements are never tied. */
  ghost predicate TotalOrder<T(!new)>(before: (T, T) -> bool) {
    WeakOrder(before) && forall x, y :: x == y || before(x, y) || before(y, x)
  }

  ghost predicate Sorted<T>(before: (T, T) -> bool, xs: seq<T>) {
    forall i, j :: 0 <= i < j < |xs| ==> !before(xs[j], xs[i])
  }

  /** Distinct elements of `xs` are never tied. */
  ghost predicate Separates<T>(before: (T, T) -> bool, xs: seq<T>) {
    forall x, y :: x in xs && y in xs && x != y ==> before(x, y) || before(y, x)
  }

  lemma {:induction false} InsertPermutes<T>(before: (T, T) -> bool, x: T, xs: seq<T>)
    ensures multiset(Insert(before, x, xs)) == multiset(xs) + multiset{x}
  {
    if xs != [] && !before(x, xs[0]) {
      InsertPermutes(before, x, xs[1..]);
      assert xs == [xs[0]] + xs[1..];
    }
  }

  lemma {:induction false} SortPermutes<T>(before: (T, T) -> bool, xs: seq<T>)
    ensures multiset(Sort(before, xs)) == multiset(xs)
  {
    if xs != [] {
      var init, x := xs[..|xs| - 1], xs[|xs| - 1];
      SortPermutes(before, init);
      InsertPermutes(before, x, Sort(before, init));
      LastApart(xs, init, x);
    }
  }

  lemma LastApart<T>(xs: seq<T>, init: seq<T>, x: T)
    requires xs != [] && init == xs[..|xs| - 1] && x == xs[|xs| - 1]
    ensures multiset(xs) == multiset(init) + multiset{x}
  {
    assert xs == init + [x];
  }

  lemma SortMembers<T>(before: (T, T) -> bool, xs: seq<T>)
    ensures forall x :: x in Sort(before, xs) <==> x in xs
    ensures |Sort(before, xs)| == |xs|
  {
    SortPermutes(before, xs);
    forall x ensures x in Sort(before, xs) <==> x in xs {
      assert x in multiset(Sort(before, xs)) <==> x in multiset(xs);
    }
    assert |multiset(Sort(before, xs))| == |multiset(xs)|;
  }

  lemma {:induction false} InsertKeepsSorted<T(!new)>(before: (T, T) -> bool, x: T, xs: seq<T>)
    requires WeakOrder(before) && Sorted(before, xs)
    ensures Sorted(before, Insert(before, x, xs))
  {
    if xs != [] {
      if before(x, xs[0]) {
        forall j | 0 <= j < |xs|
          ensures !before(xs[j], x)
        {
          if j > 0 { assert !before(xs[j], xs[0]); }
        }
      } else {
        InsertKeepsSorted(before, x, xs[1..]);
        InsertStaysAfter(before, x, xs[1..], xs[0]);
      }
    }
  }

  lemma {:induction false} InsertStaysAfter<T>(before: (T, T) -> bool, x: T, xs: seq<T>, low: T)
    requires !before(x, low) && forall i :: 0 <= i < |xs| ==> !before(xs[i], low)
    ensures forall i :: 0 <= i < |Insert(before, x, xs)| ==> !before(Insert(before, x, xs)[i], low)
  {
    if xs != [] && !before(x, xs[0]) {
      InsertStaysAfter(before, x, xs[1..], low);
    }
  }

  lemma {:induction false} SortSorts<T(!new)>(before: (T, T) -> bool, xs: seq<T>)
    requires WeakOrder(before)
    ensures Sorted(before, Sort(before, xs))
  {
    if xs != [] {
      SortSorts(before, xs[..|xs| - 1]);
      InsertKeepsSorted(before, xs[|xs| - 1], Sort(before, xs[..|xs| - 1]));
    }
  }

  lemma SameHead<T>(before: (T, T) -> bool, a: seq<T>, b: seq<T>)
    requires Sorted(before, a) && Sorted(before, b) && Separates(before, a)
    requires multiset(a) == multiset(b) && a != []
    ensures b != [] && a[0] == b[0]
  {
    assert a[0] in multiset(b);
    assert b[0] in multiset(a);
    var j :| 0 <= j < |b| && b[j] == a[0];
    var i :| 0 <= i < |a| && a[i] == b[0];
    assert j > 0 ==> !before(b[j], b[0]);
    assert i > 0 ==> !before(a[i], a[0]);
  }

  lemma TailOfSorted<T>(before: (T, T) -> bool, xs: seq<T>)
    requires xs != [] && Sorted(before, xs)
    ensures multiset(xs[1..]) == multiset(xs) - multiset{xs[0]}
    ensures Sorted(before, xs[1..]) && (Separates(before, xs) ==> Separates(before, xs[1..]))
  {
    assert xs == [xs[0]] + xs[1..];
    assert forall x :: x in xs[1..] ==> x in xs;
  }

  lemma Peel<T>(before: (T, T) -> bool, a: seq<T>, b: seq<T>)
    requires Sorted(before, a) && Sorted(before, b) && Separates(before, a)
    requires multiset(a) == multiset(b) && a != []
    ensures b != [] && a[0] == b[0] && multiset(a[1..]) == multiset(b[1..])
    ensures Sorted(before, a[1..]) && Sorted(before, b[1..]) && Separates(before, a[1..])
  {
    SameHead(before, a, b);
    TailOfSorted(before, a);
    TailOfSorted(before, b);
  }

  lemma EmptyMultiset<T>(xs: seq<T>)
    requires multiset(xs) == multiset{}
    ensures xs == []
  {
    assert |xs| == |multiset(xs)|;
  }

  lemma {:induction false} SortedIsUnique<T>(before: (T, T) -> bool, a: seq<T>, b: seq<T>)
    requires Sorted(before, a) && Sorted(before, b) && Separates(before, a)
    requires multiset(a) == multiset(b)
    ensures a == b
  {
    if a == [] {
      EmptyMultiset(b);
    } else {
      Peel(before, a, b);
      SortedIsUnique(before, a[1..], b[1..]);
    }
  }

  /** Without ties the input order leaves no trace. */
  lemma SortForgetsOrder<T(!new)>(before: (T, T) -> bool, a: seq<T>, b: seq<T>)
    requires WeakOrder(before) && Separates(before, a) && multiset(a) == multiset(b)
    ensures Sort(before, a) == Sort(before, b)
  {
    SortSorts(before, a);
    SortSorts(before, b);
    SortPermutes(before, a);
    SortPermutes(before, b);
    SortMembers(before, a);
    SortedIsUnique(before, Sort(before, a), Sort(before, b));
  }

  lemma {:induction false} SortOfSorted<T>(before: (T, T) -> bool, xs: seq<T>)
    requires Sorted(before, xs)
    ensures Sort(before, xs) == xs
  {
    if xs != [] {
      var init, x := xs[..|xs| - 1], xs[|xs| - 1];
      SortOfSorted(before, init);
      InsertLast(before, x, init);
      assert xs == init + [x];
    }
  }

  lemma {:induction false} InsertLast<T>(before: (T, T) -> bool, x: T, xs: seq<T>)
    requires forall i :: 0 <= i < |xs| ==> !before(x, xs[i])
    ensures Insert(before, x, xs) == xs + [x]
  {
    if xs != [] {
      InsertLast(before, x, xs[1..]);
      assert xs + [x] == [xs[0]] + (xs[1..] + [x]);
    }
  }

  ghost predicate Distinct<T>(xs: seq<T>) {
    forall i, j :: 0 <= i < j < |xs| ==> xs[i] != xs[j]
  }

  lemma {:induction false} DistinctMultiset<T>(a: seq<T>, b: seq<T>)
    requires Distinct(a) && Distinct(b) && forall x :: x in a <==> x in b
    ensures multiset(a) == multiset(b)
  {
    DistinctCounts(a);
    DistinctCounts(b);
    forall x ensures multiset(a)[x] == multiset(b)[x] {
      assert x in a <==> x in b;
    }
  }

  lemma {:induction false} DistinctCounts<T>(a: seq<T>)
    requires Distinct(a)
    ensures forall x :: multiset(a)[x] == if x in a then 1 else 0
  {
    if a != [] {
      var init := a[..|a| - 1];
      DistinctCounts(init);
      assert a == init + [a[|a| - 1]];
    }
  }

  /** `ORDER BY p, q`: ties of the first order go to the second. */
  function Then<T>(p: (T, T) -> bool, q: (T, T) -> bool): (T, T) -> bool {
    (a, b) => p(a, b) || (!p(b, a) && q(a, b))
  }

  lemma ThenIsOrder<T(!new)>(p: (T, T) -> bool, q: (T, T) -> bool)
    requires WeakOrder(p) && WeakOrder(q)
    ensures WeakOrder(Then(p, q))
  {
    var both := Then(p, q);
    forall x, y, z
      ensures !both(x, x)
      ensures both(x, y) && both(y, z) ==> both(x, z)
      ensures !both(x, y) && !both(y, z) ==> !both(x, z)
    {}
  }

  lemma {:induction false} InsertAgrees<T>(p: (T, T) -> bool, q: (T, T) -> bool, x: T, xs: seq<T>)
    requires forall y :: y in xs ==> p(x, y) == q(x, y)
    ensures Insert(p, x, xs) == Insert(q, x, xs)
  {
    if xs != [] {
      assert xs[0] in xs;
      InsertAgrees(p, q, x, xs[1..]);
    }
  }

  /** Two orders that agree on the elements at hand sort them alike. */
  lemma {:induction false} SortAgrees<T>(p: (T, T) -> bool, q: (T, T) -> bool, xs: seq<T>)
    requires forall x, y :: x in xs && y in xs ==> p(x, y) == q(x, y)
    ensures Sort(p, xs) == Sort(q, xs)
  {
    if xs != [] {
      var init := xs[..|xs| - 1];
      SortAgrees(p, q, init);
      assert xs[|xs| - 1] in xs;
      forall y | y in Sort(p, init) ensures p(xs[|xs| - 1], y) == q(xs[|xs| - 1], y) {
        SortPermutes(p, init);
        assert y in multiset(Sort(p, init)) && y in multiset(init);
      }
      InsertAgrees(p, q, xs[|xs| - 1], Sort(p, init));
    }
  }

  lemma SortDistinct<T>(before: (T, T) -> bool, xs: seq<T>)
    requires Distinct(xs)
    ensures Distinct(Sort(before, xs))
  {
    var sorted := Sort(before, xs);
    SortPermutes(before, xs);
    DistinctCounts(xs);
    forall i, j | 0 <= i < j < |sorted|
      ensures sorted[i] != sorted[j]
    {
      Twice(sorted, i, j);
    }
  }

  lemma Twice<T>(xs: seq<T>, i: nat, j: nat)
    requires i < j < |xs|
    ensures xs[i] == xs[j] ==> multiset(xs)[xs[i]] >= 2
  {
    assert xs == xs[..j] + [xs[j]] + xs[j + 1..];
    assert xs[..j][i] == xs[i];
    assert multiset(xs[..j])[xs[i]] >= 1;
  }
}
