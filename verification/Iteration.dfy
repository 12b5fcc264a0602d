/** Repeated application and folding over an arbitrary state, with the algebra the checksum needs. */
module Iteration {

  function Iterate<T>(f: T -> T, x: T, n: nat): T
    decreases n
  {
    if n == 0 then x else Iterate(f, f(x), n - 1)
  }

  function Fold<S, T>(f: (T, S) -> T, x: T, xs: seq<S>): T
    decreases |xs|
  {
    if xs == [] then x else Fold(f, f(x, xs[0]), xs[1..])
  }

  /** The outputs of `n` successive states. */
  function Unfold<S, T>(output: T -> S, next: T -> T, x: T, n: nat): seq<S>
    decreases n
  {
    if n == 0 then [] else [output(x)] + Unfold(output, next, next(x), n - 1)
  }

  /** Two functions that agree along the way reach the same place. */
  ghost predicate AgreeAlong<T>(f: T -> T, g: T -> T, x: T, n: nat)
    decreases n
  {
    n == 0 || (f(x) == g(x) && AgreeAlong(f, g, g(x), n - 1))
  }

  lemma {:induction false} IterateAgrees<T>(f: T -> T, g: T -> T, x: T, n: nat)
    requires AgreeAlong(f, g, x, n)
    ensures Iterate(f, x, n) == Iterate(g, x, n)
    decreases n
  {
    if n > 0 {
      IterateAgrees(f, g, g(x), n - 1);
    }
  }

  lemma {:induction false} IterateSum<T>(f: T -> T, x: T, m: nat, n: nat)
    ensures Iterate(f, Iterate(f, x, m), n) == Iterate(f, x, m + n)
    decreases m
  {
    if m > 0 {
      IterateSum(f, f(x), m - 1, n);
    }
  }

  ghost predicate Injective<T(!new)>(f: T -> T) {
    forall a, b :: f(a) == f(b) ==> a == b
  }

  lemma {:induction false} IterateInjective<T(!new)>(f: T -> T, x: T, y: T, n: nat)
    requires Injective(f)
    requires Iterate(f, x, n) == Iterate(f, y, n)
    ensures x == y
    decreases n
  {
    if n > 0 {
      IterateInjective(f, f(x), f(y), n - 1);
    }
  }

  ghost predicate Distributes<T(!new)>(f: T -> T, op: (T, T) -> T) {
    forall a, b :: f(op(a, b)) == op(f(a), f(b))
  }

  lemma {:induction false} IterateDistributes<T(!new)>(f: T -> T, op: (T, T) -> T, x: T, y: T, n: nat)
    requires Distributes(f, op)
    ensures Iterate(f, op(x, y), n) == op(Iterate(f, x, n), Iterate(f, y, n))
    decreases n
  {
    if n > 0 {
      IterateDistributes(f, op, f(x), f(y), n - 1);
    }
  }

  /** Mixing `b` in before a round is feeding its output during the round and keeping what follows. */
  ghost predicate Mixes<S, T(!new)>(f: T -> T, op: (T, T) -> T, feed: (T, S) -> T, output: T -> S, next: T -> T) {
    forall a, b :: f(op(a, b)) == op(feed(a, output(b)), next(b))
  }

  /**
   * Feeding the outputs of `x` one at a time, against mixing `x` in first: the two states
   * differ by what is left of `x`.
   */
  lemma {:induction false} MixedInFirst<S, T(!new)>(
      f: T -> T, op: (T, T) -> T, feed: (T, S) -> T, output: T -> S, next: T -> T, c: T, x: T, n: nat)
    requires Mixes(f, op, feed, output, next)
    ensures Iterate(f, op(c, x), n) == op(Fold(feed, c, Unfold(output, next, x, n)), Iterate(next, x, n))
    decreases n
  {
    if n > 0 {
      MixedInFirst(f, op, feed, output, next, feed(c, output(x)), next(x), n - 1);
      assert Unfold(output, next, x, n)[1..] == Unfold(output, next, next(x), n - 1);
    }
  }

  lemma FoldNext<S, T>(f: (T, S) -> T, x: T, xs: seq<S>, i: nat)
    requires i < |xs|
    ensures Fold(f, x, xs[i..]) == Fold(f, f(x, xs[i]), xs[i + 1..])
  {
    assert xs[i..][1..] == xs[i + 1..];
  }

  lemma {:induction false} FoldConcat<S, T>(f: (T, S) -> T, x: T, a: seq<S>, b: seq<S>)
    ensures Fold(f, x, a + b) == Fold(f, Fold(f, x, a), b)
    decreases |a|
  {
    if a == [] {
      assert a + b == b;
    } else {
      assert (a + b)[1..] == a[1..] + b;
      FoldConcat(f, f(x, a[0]), a[1..], b);
    }
  }

  ghost predicate KeepsApart<S(!new), T(!new)>(f: (T, S) -> T) {
    forall a, b, s :: f(a, s) == f(b, s) ==> a == b
  }

  lemma {:induction false} FoldInjective<S(!new), T(!new)>(f: (T, S) -> T, x: T, y: T, xs: seq<S>)
    requires KeepsApart(f)
    requires Fold(f, x, xs) == Fold(f, y, xs)
    ensures x == y
    decreases |xs|
  {
    if xs != [] {
      FoldInjective(f, f(x, xs[0]), f(y, xs[0]), xs[1..]);
    }
  }

  // ---- Loops ----

  /** Going on from `x` leads back to `x`. */
  ghost predicate Loops<T>(f: T -> T, x: T) {
    exists n: nat :: n > 0 && Iterate(f, x, n) == x
  }

  lemma LoopGoesOn<T>(f: T -> T, x: T)
    requires Loops(f, x)
    ensures Loops(f, f(x))
  {
    var n: nat :| n > 0 && Iterate(f, x, n) == x;
    IterateSum(f, x, n, 1);
    assert Iterate(f, x, n + 1) == Iterate(f, f(x), n);
    assert Iterate(f, x, 1) == Iterate(f, f(x), 0);
  }

  lemma OneStep<T>(f: T -> T, x: T, n: nat)
    ensures Iterate(f, x, n + 1) == f(Iterate(f, x, n))
  {
    IterateSum(f, x, n, 1);
    var y := Iterate(f, x, n);
    assert Iterate(f, y, 1) == Iterate(f, f(y), 0);
  }

  lemma {:induction false} FixedStays<T>(f: T -> T, x: T, n: nat)
    requires f(x) == x
    ensures Iterate(f, x, n) == x
  {
    if n > 0 { FixedStays(f, x, n - 1); }
  }

  /** The first time a loop is back. */
  ghost predicate FirstReturn<T>(f: T -> T, x: T, n: nat) {
    n > 0 && Iterate(f, x, n) == x && forall m: nat :: 0 < m < n ==> Iterate(f, x, m) != x
  }

  lemma {:induction false} FirstReturnExists<T>(f: T -> T, x: T, n: nat) returns (m: nat)
    requires n > 0 && Iterate(f, x, n) == x
    ensures FirstReturn(f, x, m)
  {
    if k: nat :| 0 < k < n && Iterate(f, x, k) == x {
      m := FirstReturnExists(f, x, k);
    } else {
      m := n;
    }
  }

  /** A loop that passes an element twice has been back before. */
  lemma BackBefore<T>(f: T -> T, x: T, n: nat, i: nat, j: nat)
    requires i < j < n && Iterate(f, x, n) == x && Iterate(f, x, i) == Iterate(f, x, j)
    ensures 0 < i + (n - j) < n && Iterate(f, x, i + (n - j)) == x
  {
    IterateSum(f, x, i, n - j);
    IterateSum(f, x, j, n - j);
    assert j + (n - j) == n;
  }

  /** Everything passed in the first `n` steps. */
  ghost function Passed<T>(f: T -> T, x: T, n: nat): set<T> {
    if n == 0 then {x} else Passed(f, x, n - 1) + {Iterate(f, x, n)}
  }

  lemma {:induction false} PassedHolds<T>(f: T -> T, x: T, n: nat, k: nat)
    requires k <= n
    ensures Iterate(f, x, k) in Passed(f, x, n)
  {
    if k < n { PassedHolds(f, x, n - 1, k); }
  }

  lemma {:induction false} PassedOnly<T>(f: T -> T, x: T, n: nat, y: T) returns (k: nat)
    requires y in Passed(f, x, n)
    ensures k <= n && Iterate(f, x, k) == y
  {
    if y == Iterate(f, x, n) {
      k := n;
    } else {
      k := PassedOnly(f, x, n - 1, y);
    }
  }

  ghost predicate NewAt<T>(f: T -> T, x: T, i: nat) {
    Iterate(f, x, i + 1) !in Passed(f, x, i)
  }

  /** A loop of `n` steps that comes to something new with each but the last. */
  ghost predicate IsRing<T>(f: T -> T, x: T, n: nat) {
    n > 0 && Iterate(f, x, n) == x && forall i: nat :: i + 1 < n ==> NewAt(f, x, i)
  }

  lemma RingExists<T>(f: T -> T, x: T) returns (n: nat)
    requires Loops(f, x)
    ensures IsRing(f, x, n)
  {
    var m: nat :| m > 0 && Iterate(f, x, m) == x;
    n := FirstReturnExists(f, x, m);
    forall i: nat | i + 1 < n ensures NewAt(f, x, i) {
      if Iterate(f, x, i + 1) in Passed(f, x, i) {
        var k := PassedOnly(f, x, i, Iterate(f, x, i + 1));
        BackBefore(f, x, n, k, i + 1);
      }
    }
  }
}
