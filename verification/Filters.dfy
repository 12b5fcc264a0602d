/** Filtering sequences, and how it goes together with sorting. */
module Filters {
  import opened Prelude
  import opened Sorting

  function Filter<T>(p: T -> bool, xs: seq<T>): seq<T> {
    if xs == [] then [] else (if p(xs[0]) then [xs[0]] else []) + Filter(p, xs[1..])
  }

  function Take<T>(n: nat, xs: seq<T>): seq<T> {
    if n < |xs| then xs[..n] else xs
  }

  lemma {:induction false} FilterCount<T>(p: T -> bool, xs: seq<T>, x: T)
    ensures multiset(Filter(p, xs))[x] == if p(x) then multiset(xs)[x] else 0
  {
    if xs != [] {
      FilterCount(p, xs[1..], x);
      assert xs == [xs[0]] + xs[1..];
    }
  }

  lemma {:induction false} FilterSuffix<T>(p: T -> bool, xs: seq<T>, i: nat)
    requires i <= |xs|
    requires forall j :: 0 <= j < i ==> !p(xs[j])
    requires forall j :: i <= j < |xs| ==> p(xs[j])
    ensures Filter(p, xs) == xs[i..]
  {
    if xs != [] {
      if i > 0 {
        FilterSuffix(p, xs[1..], i - 1);
        assert xs[1..][i - 1..] == xs[i..];
      } else {
        FilterSuffix(p, xs[1..], 0);
        assert xs == [xs[0]] + xs[1..];
      }
    }
  }

  lemma FilterPermutes<T(!new)>(p: T -> bool, a: seq<T>, b: seq<T>)
    requires multiset(a) == multiset(b)
    ensures multiset(Filter(p, a)) == multiset(Filter(p, b))
  {
    forall x ensures multiset(Filter(p, a))[x] == multiset(Filter(p, b))[x] {
      FilterCount(p, a, x);
      FilterCount(p, b, x);
    }
  }

  lemma {:induction false} FilterAgree<T>(p: T -> bool, q: T -> bool, xs: seq<T>)
    requires forall x :: x in xs ==> p(x) == q(x)
    ensures Filter(p, xs) == Filter(q, xs)
  {
    if xs != [] {
      FilterAgree(p, q, xs[1..]);
      assert xs[0] in xs;
    }
  }

  lemma {:induction false} FilterMembers<T>(p: T -> bool, xs: seq<T>)
    ensures forall x :: x in Filter(p, xs) <==> x in xs && p(x)
  {
    if xs != [] {
      FilterMembers(p, xs[1..]);
      assert xs == [xs[0]] + xs[1..];
    }
  }

  lemma FilterDistinct<T(!new)>(p: T -> bool, xs: seq<T>)
    requires Distinct(xs)
    ensures Distinct(Filter(p, xs))
  {
    var ys := Filter(p, xs);
    DistinctCounts(xs);
    forall i, j | 0 <= i < j < |ys|
      ensures ys[i] != ys[j]
    {
      FilterCount(p, xs, ys[i]);
      Twice(ys, i, j);
    }
  }

  /** `UNION ALL` of two filters that exclude each other. */
  lemma FilterUnion<T(!new)>(p: T -> bool, q: T -> bool, both: T -> bool, xs: seq<T>)
    requires forall x :: !(p(x) && q(x)) && (both(x) <==> p(x) || q(x))
    ensures multiset(Filter(p, xs) + Filter(q, xs)) == multiset(Filter(both, xs))
  {
    forall x
      ensures multiset(Filter(p, xs) + Filter(q, xs))[x] == multiset(Filter(both, xs))[x]
    {
      FilterCount(p, xs, x);
      FilterCount(q, xs, x);
      FilterCount(both, xs, x);
    }
  }

  lemma {:induction false} FilterTwice<R>(p: R -> bool, q: R -> bool, both: R -> bool, rows: seq<R>)
    requires forall r :: r in rows ==> (both(r) <==> p(r) && q(r))
    ensures Filter(q, Filter(p, rows)) == Filter(both, rows)
  {
    if rows != [] {
      assert rows[0] in rows;
      FilterTwice(p, q, both, rows[1..]);
      var rest := Filter(p, rows[1..]);
      assert ([rows[0]] + rest)[1..] == rest && [] + rest == rest;
      assert Filter(both, rows[1..]) == Filter(q, rest);
    }
  }

  lemma FilterHead<T>(p: T -> bool, x: T, rest: seq<T>)
    ensures Filter(p, [x] + rest) == (if p(x) then [x] else []) + Filter(p, rest)
  {
    assert ([x] + rest)[1..] == rest;
  }

  lemma {:induction false} FilterInsert<T(!new)>(before: (T, T) -> bool, p: T -> bool, x: T, xs: seq<T>)
    requires WeakOrder(before) && Sorted(before, xs)
    ensures Filter(p, Insert(before, x, xs)) == if p(x) then Insert(before, x, Filter(p, xs)) else Filter(p, xs)
  {
    FilterHead(p, x, xs);
    if xs == [] {
    } else if before(x, xs[0]) {
      InsertFirst(before, p, x, xs);
    } else {
      var tail := xs[1..];
      FilterInsert(before, p, x, tail);
      FilterHead(p, xs[0], Insert(before, x, tail));
      FilterHead(p, xs[0], tail);
      assert xs == [xs[0]] + tail;
      var deep := Filter(p, Insert(before, x, tail));
      assert Filter(p, Insert(before, x, xs)) == if p(xs[0]) then [xs[0]] + deep else deep;
      assert Filter(p, xs) == if p(xs[0]) then [xs[0]] + Filter(p, tail) else Filter(p, tail);
    }
  }

  lemma InsertFirst<T(!new)>(before: (T, T) -> bool, p: T -> bool, x: T, xs: seq<T>)
    requires WeakOrder(before) && Sorted(before, xs) && xs != [] && before(x, xs[0])
    ensures Insert(before, x, Filter(p, xs)) == [x] + Filter(p, xs)
  {
    FilterMembers(p, xs);
    var ys := Filter(p, xs);
    if ys != [] {
      assert ys[0] in xs;
      var j :| 0 <= j < |xs| && xs[j] == ys[0];
      assert j > 0 ==> !before(xs[j], xs[0]);
      assert before(x, ys[0]);
    }
  }

  lemma SortLast<T>(before: (T, T) -> bool, init: seq<T>, last: T)
    ensures Sort(before, init + [last]) == Insert(before, last, Sort(before, init))
  {
    assert (init + [last])[..|init|] == init;
  }

  /** A stable sort and a filter may change places. */
  lemma {:induction false} FilterSort<T(!new)>(before: (T, T) -> bool, p: T -> bool, xs: seq<T>)
    requires WeakOrder(before)
    ensures Filter(p, Sort(before, xs)) == Sort(before, Filter(p, xs))
  {
    if xs != [] {
      var init, last := xs[..|xs| - 1], xs[|xs| - 1];
      assert xs == init + [last];
      FilterSort(before, p, init);
      SortSorts(before, init);
      FilterInsert(before, p, last, Sort(before, init));
      SortLast(before, init, last);
      FilterLast(p, init, last);
      SortLast(before, Filter(p, init), last);
    }
  }

  lemma {:induction false} FilterLast<T>(p: T -> bool, init: seq<T>, last: T)
    ensures Filter(p, init + [last]) == if p(last) then Filter(p, init) + [last] else Filter(p, init)
  {
    if init != [] {
      FilterLast(p, init[1..], last);
      assert (init + [last])[1..] == init[1..] + [last];
    }
  }

  lemma {:induction false} FilterAppend<T>(p: T -> bool, a: seq<T>, b: seq<T>)
    ensures Filter(p, a + b) == Filter(p, a) + Filter(p, b)
  {
    if b == [] {
      assert a + b == a;
      assert Filter(p, a) + [] == Filter(p, a);
    } else {
      var init, last := b[..|b| - 1], b[|b| - 1];
      assert b == init + [last];
      Regroup(a, init, [last]);
      FilterAppend(p, a, init);
      FilterLast(p, a + init, last);
      FilterLast(p, init, last);
      Regroup(Filter(p, a), Filter(p, init), [last]);
    }
  }

  lemma {:induction false} FilterShorter<T>(p: T -> bool, xs: seq<T>)
    ensures |Filter(p, xs)| <= |xs|
  {
    if xs != [] { FilterShorter(p, xs[1..]); }
  }
}
