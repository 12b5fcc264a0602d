/**
 * Retention of backups: the newest copies are protected by count, the others go once they are older
 * than the age limit. Stamps are compared as text; the instant of a stamp may be unreadable.
 */
module Retention {
  import opened Prelude
  import opened Sorting
  import opened Filters

  datatype Backup = Backup(id: string, stamp: string, at: Option<int>)

  datatype Policy = Policy(keepDays: Option<nat>, keepLast: Option<nat>)

  const DAY_MS: int := 24 * 60 * 60 * 1000

  function NewestFirst(collate: TextOrder): (Backup, Backup) -> bool {
    (a: Backup, b: Backup) => collate(b.stamp, a.stamp)
  }

  function Ordered(collate: TextOrder, backups: seq<Backup>): seq<Backup> {
    Sort(NewestFirst(collate), backups)
  }

  /** Older than the age limit; an unreadable stamp never is. */
  predicate Aged(policy: Policy, now: int, b: Backup) {
    policy.keepDays.Some? && b.at.Some? && b.at.value < now - policy.keepDays.value * DAY_MS
  }

  function Protected(policy: Policy, count: nat): nat {
    if policy.keepLast.None? then 0 else if policy.keepLast.value < count then policy.keepLast.value else count
  }

  function Expired(collate: TextOrder, backups: seq<Backup>, policy: Policy, now: int): seq<Backup> {
    var ordered := Ordered(collate, backups);
    Filter((b: Backup) => Aged(policy, now, b), ordered[Protected(policy, |ordered|)..])
  }

  function ExpiredBefore(ordered: seq<Backup>, policy: Policy, now: int, from: nat, i: nat): seq<Backup>
    requires from <= |ordered| && i <= |ordered|
  {
    if i <= from then [] else Filter((b: Backup) => Aged(policy, now, b), ordered[from..i])
  }

  lemma ExpiredNext(ordered: seq<Backup>, policy: Policy, now: int, from: nat, i: nat)
    requires from <= |ordered| && i < |ordered|
    ensures
      ExpiredBefore(ordered, policy, now, from, i + 1)
      == ExpiredBefore(ordered, policy, now, from, i)
        + if i >= from && Aged(policy, now, ordered[i]) then [ordered[i]] else []
  {
    if i >= from {
      assert ordered[from..i + 1] == ordered[from..i] + [ordered[i]];
      FilterLast((b: Backup) => Aged(policy, now, b), ordered[from..i], ordered[i]);
    }
  }

  method SelectExpired(
      collate: TextOrder, backups: seq<Backup>, policy: Policy, now: int) returns (expired: seq<Backup>)
    ensures expired == Expired(collate, backups, policy, now)
  {
    expired := [];
    var ordered := Ordered(collate, backups);
    ghost var from := Protected(policy, |ordered|);
    if policy.keepDays.None? && policy.keepLast.None? {
      FilterSuffix((b: Backup) => Aged(policy, now, b), ordered[from..], |ordered| - from);
      return;
    }
    var i := 0;
    while i < |ordered|
      invariant 0 <= i <= |ordered|
      invariant expired == ExpiredBefore(ordered, policy, now, from, i)
    {
      var backup := ordered[i];
      ExpiredNext(ordered, policy, now, from, i);
      if policy.keepLast.Some? && i < policy.keepLast.value {
      } else if policy.keepDays.Some? && backup.at.Some? && backup.at.value < now - policy.keepDays.value * DAY_MS {
        expired := expired + [backup];
      }
      i := i + 1;
    }
    assert ordered[from..i] == ordered[from..];
  }

  function Ids(backups: seq<Backup>): set<string> {
    set b | b in backups :: b.id
  }

  function AfterPrune(collate: TextOrder, backups: seq<Backup>, policy: Policy, now: int): seq<Backup> {
    var gone := Ids(Expired(collate, Ordered(collate, backups), policy, now));
    Filter((b: Backup) => b.id !in gone, backups)
  }

  class Directory {
    var backups: seq<Backup>

    constructor ()
      ensures backups == []
    {
      backups := [];
    }

    method Create(b: Backup)
      modifies this
      ensures backups == old(backups) + [b]
    {
      backups := backups + [b];
    }

    /** Delete the expired backups one by one; report their ids and how many are left. */
    method Prune(collate: TextOrder, policy: Policy, now: int) returns (pruned: seq<string>, kept: int)
      requires TotalOrder(collate)
      modifies this
      ensures backups == AfterPrune(collate, old(backups), policy, now)
      ensures |pruned| == |Expired(collate, old(backups), policy, now)|
      ensures forall i :: 0 <= i < |pruned| ==> pruned[i] == Expired(collate, old(backups), policy, now)[i].id
      ensures UniqueIds(old(backups)) ==> kept == |backups|
    {
      OrderedTwice(collate, backups);
      SortMembers(NewestFirst(collate), backups);
      if UniqueIds(backups) {
        KeptCount(collate, backups, policy, now);
      }
      var listed := Ordered(collate, backups);
      var expired := SelectExpired(collate, listed, policy, now);
      DeleteAll(expired);
      pruned := seq(|expired|, i requires 0 <= i < |expired| => expired[i].id);
      kept := |listed| - |set b | b in expired :: b.id|;
    }

    method DeleteAll(expired: seq<Backup>)
      modifies this
      ensures backups == Filter((b: Backup) => b.id !in Ids(expired), old(backups))
    {
      ghost var before := backups;
      AllKept(before);
      var i := 0;
      while i < |expired|
        invariant 0 <= i <= |expired|
        invariant backups == Filter((b: Backup) => b.id !in Ids(expired[..i]), before)
      {
        assert expired[..i + 1] == expired[..i] + [expired[i]];
        DropOne(before, expired[..i], expired[i]);
        backups := Filter((b: Backup) => b.id != expired[i].id, backups);
        i := i + 1;
      }
      assert expired[..i] == expired;
    }
  }

  lemma AllKept(backups: seq<Backup>)
    ensures Filter((b: Backup) => b.id !in Ids([]), backups) == backups
  {
    FilterSuffix((b: Backup) => b.id !in Ids([]), backups, 0);
    assert backups[0..] == backups;
  }

  lemma DropOne(backups: seq<Backup>, gone: seq<Backup>, e: Backup)
    ensures
      Filter((b: Backup) => b.id != e.id, Filter((b: Backup) => b.id !in Ids(gone), backups))
      == Filter((b: Backup) => b.id !in Ids(gone + [e]), backups)
    ensures Ids(gone + [e]) == Ids(gone) + {e.id}
  {
    assert Ids(gone + [e]) == Ids(gone) + {e.id};
    FilterTwice((b: Backup) => b.id !in Ids(gone), (b: Backup) => b.id != e.id,
      (b: Backup) => b.id !in Ids(gone + [e]), backups);
  }

  // ---- What a prune removes ----

  ghost predicate UniqueIds(backups: seq<Backup>) {
    forall i, j :: 0 <= i < j < |backups| ==> backups[i].id != backups[j].id
  }

  ghost predicate UniqueStamps(backups: seq<Backup>) {
    forall i, j :: 0 <= i < j < |backups| ==> backups[i].stamp != backups[j].stamp
  }

  lemma NewestFirstIsOrder(collate: TextOrder)
    requires TotalOrder(collate)
    ensures WeakOrder(NewestFirst(collate))
  {
    forall x: Backup, y: Backup, z: Backup
      ensures !collate(x.stamp, x.stamp)
      ensures collate(y.stamp, x.stamp) && collate(z.stamp, y.stamp) ==> collate(z.stamp, x.stamp)
      ensures !collate(y.stamp, x.stamp) && !collate(z.stamp, y.stamp) ==> !collate(z.stamp, x.stamp)
    {
      assert collate(z.stamp, y.stamp) && collate(y.stamp, x.stamp) ==> collate(z.stamp, x.stamp);
      assert !collate(z.stamp, y.stamp) && !collate(y.stamp, x.stamp) ==> !collate(z.stamp, x.stamp);
    }
  }

  lemma OrderedTwice(collate: TextOrder, backups: seq<Backup>)
    requires TotalOrder(collate)
    ensures Ordered(collate, Ordered(collate, backups)) == Ordered(collate, backups)
  {
    NewestFirstIsOrder(collate);
    SortSorts(NewestFirst(collate), backups);
    SortOfSorted(NewestFirst(collate), Ordered(collate, backups));
  }

  lemma {:induction false} CountGone(backups: seq<Backup>, gone: set<string>)
    requires UniqueIds(backups) && gone <= Ids(backups)
    ensures |Filter((b: Backup) => b.id !in gone, backups)| == |backups| - |gone|
  {
    if backups == [] {
      assert gone == {};
    } else {
      var init, last := backups[..|backups| - 1], backups[|backups| - 1];
      assert backups == init + [last];
      FilterLast((b: Backup) => b.id !in gone, init, last);
      CountGone(init, gone - {last.id});
      FilterAgree((b: Backup) => b.id !in gone, (b: Backup) => b.id !in gone - {last.id}, init);
    }
  }

  lemma ExpiredMembers(collate: TextOrder, backups: seq<Backup>, policy: Policy, now: int, b: Backup)
    ensures
      var ordered := Ordered(collate, backups);
      b in Expired(collate, backups, policy, now)
      <==> b in ordered[Protected(policy, |ordered|)..] && Aged(policy, now, b)
    ensures b in Expired(collate, backups, policy, now) ==> b in backups
  {
    var ordered := Ordered(collate, backups);
    FilterMembers((b: Backup) => Aged(policy, now, b), ordered[Protected(policy, |ordered|)..]);
    SortMembers(NewestFirst(collate), backups);
    assert b in ordered[Protected(policy, |ordered|)..] ==> b in ordered;
  }

  lemma KeptCount(collate: TextOrder, backups: seq<Backup>, policy: Policy, now: int)
    requires TotalOrder(collate) && UniqueIds(backups)
    ensures |AfterPrune(collate, backups, policy, now)| == |backups| - |Ids(Expired(collate, backups, policy, now))|
  {
    var expired := Expired(collate, backups, policy, now);
    OrderedTwice(collate, backups);
    forall b | b in expired ensures b in backups {
      ExpiredMembers(collate, backups, policy, now, b);
    }
    CountGone(backups, Ids(expired));
  }

  /** A backup stays exactly when it is not expired. */
  lemma StaysExact(collate: TextOrder, backups: seq<Backup>, policy: Policy, now: int, b: Backup)
    requires TotalOrder(collate) && UniqueIds(backups) && b in backups
    ensures b.id in Ids(Expired(collate, backups, policy, now)) <==> b in Expired(collate, backups, policy, now)
    ensures b in AfterPrune(collate, backups, policy, now) <==> b !in Expired(collate, backups, policy, now)
  {
    OrderedTwice(collate, backups);
    var expired := Expired(collate, backups, policy, now);
    if b.id in Ids(expired) {
      var e :| e in expired && e.id == b.id;
      ExpiredMembers(collate, backups, policy, now, e);
      var i :| 0 <= i < |backups| && backups[i] == e;
      var j :| 0 <= j < |backups| && backups[j] == b;
    }
    FilterMembers((b: Backup) => b.id !in Ids(expired), backups);
  }

  /** How many backups are newer than `b`. */
  function Newer(collate: TextOrder, backups: seq<Backup>, b: Backup): nat {
    |Filter((x: Backup) => collate(b.stamp, x.stamp), backups)|
  }

  lemma {:induction false} FilterPrefix(p: Backup -> bool, xs: seq<Backup>, i: nat)
    requires i <= |xs| && (forall j :: 0 <= j < i ==> p(xs[j])) && (forall j :: i <= j < |xs| ==> !p(xs[j]))
    ensures Filter(p, xs) == xs[..i]
  {
    if xs != [] {
      if i > 0 {
        FilterPrefix(p, xs[1..], i - 1);
        assert xs[..i] == [xs[0]] + xs[1..][..i - 1];
      } else {
        FilterPrefix(p, xs[1..], 0);
      }
    }
  }

  lemma StampsApart(collate: TextOrder, backups: seq<Backup>)
    requires TotalOrder(collate) && UniqueStamps(backups)
    ensures UniqueStamps(Ordered(collate, backups)) && Sorted(NewestFirst(collate), Ordered(collate, backups))
  {
    var ordered := Ordered(collate, backups);
    NewestFirstIsOrder(collate);
    SortSorts(NewestFirst(collate), backups);
    SortMembers(NewestFirst(collate), backups);
    SortDistinct(NewestFirst(collate), backups);
    forall i, j | 0 <= i < j < |ordered| ensures ordered[i].stamp != ordered[j].stamp {
      assert ordered[i] in backups && ordered[j] in backups;
      var k :| 0 <= k < |backups| && backups[k] == ordered[i];
      var l :| 0 <= l < |backups| && backups[l] == ordered[j];
    }
  }

  /** The place of a backup in the newest-first order is the number of newer ones. */
  lemma PlaceIsNewer(collate: TextOrder, backups: seq<Backup>, i: nat)
    requires TotalOrder(collate) && UniqueStamps(backups) && i < |Ordered(collate, backups)|
    ensures Newer(collate, backups, Ordered(collate, backups)[i]) == i
  {
    var ordered := Ordered(collate, backups);
    var newer := (x: Backup) => collate(ordered[i].stamp, x.stamp);
    StampsApart(collate, backups);
    forall j | 0 <= j < |ordered| ensures newer(ordered[j]) <==> j < i {
      StampAt(collate, ordered, i, j);
    }
    FilterPrefix(newer, ordered, i);
    SortPermutes(NewestFirst(collate), backups);
    FilterPermutes(newer, ordered, backups);
    assert |multiset(Filter(newer, ordered))| == |multiset(Filter(newer, backups))|;
  }

  lemma StampAt(collate: TextOrder, ordered: seq<Backup>, i: nat, j: nat)
    requires
      TotalOrder(collate) && UniqueStamps(ordered) && Sorted(NewestFirst(collate), ordered) && i < |ordered|
      && j < |ordered|
    ensures collate(ordered[i].stamp, ordered[j].stamp) <==> j < i
  {
    if j < i {
      assert !NewestFirst(collate)(ordered[i], ordered[j]);
      assert ordered[j].stamp != ordered[i].stamp;
    } else if i < j {
      assert !NewestFirst(collate)(ordered[j], ordered[i]);
    }
  }

  /** A backup expires exactly when enough newer ones exist and it is over age. */
  lemma ExpiredExact(collate: TextOrder, backups: seq<Backup>, policy: Policy, now: int, b: Backup)
    requires TotalOrder(collate) && UniqueStamps(backups) && b in backups
    ensures
      b in Expired(collate, backups, policy, now)
      <==> && policy.keepDays.Some? && b.at.Some? && now - b.at.value > 86_400_000 * policy.keepDays.value
           && (policy.keepLast.None? || Newer(collate, backups, b) >= policy.keepLast.value)
  {
    var ordered := Ordered(collate, backups);
    var from := Protected(policy, |ordered|);
    ExpiredMembers(collate, backups, policy, now, b);
    SortMembers(NewestFirst(collate), backups);
    var i :| 0 <= i < |ordered| && ordered[i] == b;
    PlaceIsNewer(collate, backups, i);
    if i >= from { assert ordered[from..][i - from] == b; }
    if b in ordered[from..] {
      var j :| from <= j < |ordered| && ordered[j] == b;
      PlaceIsNewer(collate, backups, j);
    }
  }

  // ---- Pruning twice ----

  /** After a prune the protected head is untouched and the tail has lost its expired part. */
  lemma OrderedAfter(collate: TextOrder, backups: seq<Backup>, policy: Policy, now: int)
    requires TotalOrder(collate) && UniqueIds(backups)
    ensures
      var ordered, stays := Ordered(collate, backups),
        (b: Backup) => b.id !in Ids(Expired(collate, backups, policy, now));
      var from := Protected(policy, |ordered|);
      Ordered(collate, AfterPrune(collate, backups, policy, now)) == ordered[..from] + Filter(stays, ordered[from..])
  {
    var ordered, stays := Ordered(collate, backups),
      (b: Backup) => b.id !in Ids(Expired(collate, backups, policy, now));
    var from := Protected(policy, |ordered|);
    NewestFirstIsOrder(collate);
    OrderedTwice(collate, backups);
    FilterSort(NewestFirst(collate), stays, backups);
    assert ordered == ordered[..from] + ordered[from..];
    FilterAppend(stays, ordered[..from], ordered[from..]);
    SortMembers(NewestFirst(collate), backups);
    OrderedDistinct(collate, backups);
    forall i | 0 <= i < from ensures stays(ordered[i]) {
      assert ordered[i] in backups;
      StaysExact(collate, backups, policy, now, ordered[i]);
      ExpiredMembers(collate, backups, policy, now, ordered[i]);
    }
    FilterPrefix(stays, ordered[..from], from);
    assert ordered[..from][..from] == ordered[..from];
  }

  lemma OrderedDistinct(collate: TextOrder, backups: seq<Backup>)
    requires UniqueIds(backups)
    ensures Distinct(Ordered(collate, backups))
  {
    assert Distinct(backups);
    SortDistinct(NewestFirst(collate), backups);
  }

  lemma PruneKeepsIds(collate: TextOrder, backups: seq<Backup>, policy: Policy, now: int)
    requires UniqueIds(backups)
    ensures UniqueIds(AfterPrune(collate, backups, policy, now))
  {
    var left := AfterPrune(collate, backups, policy, now);
    var stays := (b: Backup) => b.id !in Ids(Expired(collate, Ordered(collate, backups), policy, now));
    FilterMembers(stays, backups);
    assert Distinct(backups);
    FilterDistinct(stays, backups);
    forall i, j | 0 <= i < j < |left| ensures left[i].id != left[j].id {
      assert left[i] in backups && left[j] in backups && left[i] != left[j];
      IdsTellApart(backups, left[i], left[j]);
    }
  }

  lemma IdsTellApart(backups: seq<Backup>, a: Backup, b: Backup)
    requires UniqueIds(backups) && a in backups && b in backups && a != b
    ensures a.id != b.id
  {}

  lemma TailAfter(collate: TextOrder, backups: seq<Backup>, policy: Policy, now: int)
    requires TotalOrder(collate) && UniqueIds(backups)
    ensures
      var ordered, left := Ordered(collate, backups), Ordered(collate, AfterPrune(collate, backups, policy, now));
      var stays := (b: Backup) => b.id !in Ids(Expired(collate, backups, policy, now));
      left[Protected(policy, |left|)..] == Filter(stays, ordered[Protected(policy, |ordered|)..])
  {
    var ordered := Ordered(collate, backups);
    var stays := (b: Backup) => b.id !in Ids(Expired(collate, backups, policy, now));
    var from := Protected(policy, |ordered|);
    OrderedAfter(collate, backups, policy, now);
    FilterShorter(stays, ordered[from..]);
    SameTail(ordered[..from], Filter(stays, ordered[from..]), policy, |ordered|);
  }

  /** What a second prune finds expired: what it would have found at once, less what is gone. */
  lemma ExpiredAfter(collate: TextOrder, backups: seq<Backup>, policy: Policy, t1: int, t2: int, b: Backup)
    requires TotalOrder(collate) && UniqueIds(backups) && b in AfterPrune(collate, backups, policy, t1)
    ensures
      b in Expired(collate, AfterPrune(collate, backups, policy, t1), policy, t2)
      <==> b in Expired(collate, backups, policy, t2)
  {
    var ordered := Ordered(collate, backups);
    var stays := (b: Backup) => b.id !in Ids(Expired(collate, backups, policy, t1));
    OrderedTwice(collate, backups);
    FilterMembers(stays, backups);
    assert stays(b);
    TailAfter(collate, backups, policy, t1);
    FilterMembers(stays, ordered[Protected(policy, |ordered|)..]);
    ExpiredMembers(collate, backups, policy, t2, b);
    ExpiredMembers(collate, AfterPrune(collate, backups, policy, t1), policy, t2, b);
  }

  lemma SameTail(head: seq<Backup>, tail: seq<Backup>, policy: Policy, count: nat)
    requires |head| == Protected(policy, count) && |tail| <= count - |head|
    ensures (head + tail)[Protected(policy, |head + tail|)..] == tail
  {}

  lemma AgedLater(collate: TextOrder, backups: seq<Backup>, policy: Policy, t1: int, t2: int, b: Backup)
    requires t1 <= t2 && b in Expired(collate, backups, policy, t1)
    ensures b in Expired(collate, backups, policy, t2)
  {
    ExpiredMembers(collate, backups, policy, t1, b);
    ExpiredMembers(collate, backups, policy, t2, b);
  }

  /** Pruning at one time and again at a later one leaves what pruning once at the later time leaves. */
  lemma PruneTwice(collate: TextOrder, backups: seq<Backup>, policy: Policy, t1: int, t2: int)
    requires TotalOrder(collate) && UniqueIds(backups) && t1 <= t2
    ensures
      AfterPrune(collate, AfterPrune(collate, backups, policy, t1), policy, t2)
      == AfterPrune(collate, backups, policy, t2)
  {
    var left := AfterPrune(collate, backups, policy, t1);
    OrderedTwice(collate, backups);
    OrderedTwice(collate, left);
    PruneKeepsIds(collate, backups, policy, t1);
    var first := (b: Backup) => b.id !in Ids(Expired(collate, backups, policy, t1));
    var second := (b: Backup) => b.id !in Ids(Expired(collate, left, policy, t2));
    var once := (b: Backup) => b.id !in Ids(Expired(collate, backups, policy, t2));
    forall b | b in backups ensures once(b) <==> first(b) && second(b) {
      StaysExact(collate, backups, policy, t1, b);
      StaysExact(collate, backups, policy, t2, b);
      if b in left {
        StaysExact(collate, left, policy, t2, b);
        ExpiredAfter(collate, backups, policy, t1, t2, b);
      } else {
        AgedLater(collate, backups, policy, t1, t2, b);
      }
      if b in Expired(collate, backups, policy, t1) { AgedLater(collate, backups, policy, t1, t2, b); }
    }
    FilterTwice(first, second, once, backups);
  }

  // ---- Any interleaving of creating and pruning ----

  datatype Op = Create(b: Backup) | Prune(policy: Policy, now: int)

  /** What the directory holds in the end. */
  function AfterOps(collate: TextOrder, ops: seq<Op>): seq<Backup> {
    if ops == [] then []
    else
      var left := AfterOps(collate, ops[..|ops| - 1]);
      match ops[|ops| - 1]
      case Create(b) => left + [b]
      case Prune(policy, now) => AfterPrune(collate, left, policy, now)
  }

  /** Every backup ever created. */
  function Created(ops: seq<Op>): seq<Backup> {
    if ops == [] then []
    else Created(ops[..|ops| - 1]) + match ops[|ops| - 1] case Create(b) => [b] case Prune(_, _) => []
  }

  /** Every prune keeps at least the newest `n`. */
  ghost predicate KeepsAtLeast(ops: seq<Op>, n: nat) {
    forall i :: 0 <= i < |ops| && ops[i].Prune? ==>
      ops[i].policy.keepDays.None? || (ops[i].policy.keepLast.Some? && ops[i].policy.keepLast.value >= n)
  }

  /** The directory is a part of what was created. */
  ghost predicate PartOf(left: seq<Backup>, ever: seq<Backup>) {
    forall b :: multiset(left)[b] <= multiset(ever)[b]
  }

  lemma NewerOfPart(collate: TextOrder, left: seq<Backup>, ever: seq<Backup>, b: Backup)
    requires PartOf(left, ever)
    ensures Newer(collate, left, b) <= Newer(collate, ever, b)
  {
    var newer := (x: Backup) => collate(b.stamp, x.stamp);
    forall x ensures multiset(Filter(newer, left))[x] <= multiset(Filter(newer, ever))[x] {
      FilterCount(newer, left, x);
      FilterCount(newer, ever, x);
    }
    assert multiset(Filter(newer, left)) <= multiset(Filter(newer, ever));
    SmallerIsShorter(Filter(newer, left), Filter(newer, ever));
  }

  lemma SmallerIsShorter(a: seq<Backup>, b: seq<Backup>)
    requires multiset(a) <= multiset(b)
    ensures |a| <= |b|
  {
    assert |multiset(b)| == |multiset(a)| + |multiset(b) - multiset(a)|;
  }

  lemma PartIsUnique(left: seq<Backup>, ever: seq<Backup>)
    requires PartOf(left, ever) && UniqueIds(ever) && UniqueStamps(ever)
    ensures UniqueIds(left) && UniqueStamps(left)
  {
    assert Distinct(ever);
    DistinctCounts(ever);
    forall i, j | 0 <= i < j < |left| ensures left[i].id != left[j].id && left[i].stamp != left[j].stamp {
      Twice(left, i, j);
      PartMember(left, ever, left[i]);
      PartMember(left, ever, left[j]);
      assert multiset(left)[left[i]] <= multiset(ever)[left[i]];
      var k :| 0 <= k < |ever| && ever[k] == left[i];
      var l :| 0 <= l < |ever| && ever[l] == left[j];
    }
  }

  lemma PartMember(left: seq<Backup>, ever: seq<Backup>, b: Backup)
    requires PartOf(left, ever) && b in left
    ensures b in ever
  {
    assert multiset(left)[b] <= multiset(ever)[b];
  }

  /** The newest `n` backups ever created are all there. */
  ghost predicate Safe(collate: TextOrder, left: seq<Backup>, ever: seq<Backup>, n: nat) {
    PartOf(left, ever) && forall b :: b in ever && Newer(collate, ever, b) < n ==> b in left
  }

  lemma CreateKeepsSafe(collate: TextOrder, left: seq<Backup>, ever: seq<Backup>, b: Backup, n: nat)
    requires Safe(collate, left, ever, n)
    ensures Safe(collate, left + [b], ever + [b], n)
  {
    forall x | x in ever + [b] && Newer(collate, ever + [b], x) < n
      ensures x in left + [b]
    {
      FilterAppend((y: Backup) => collate(x.stamp, y.stamp), ever, [b]);
      assert x in ever ==> Newer(collate, ever, x) < n;
    }
    forall x ensures multiset(left + [b])[x] <= multiset(ever + [b])[x] {
      assert multiset(left)[x] <= multiset(ever)[x];
    }
  }

  lemma PruneKeepsSafe(collate: TextOrder, left: seq<Backup>, ever: seq<Backup>, policy: Policy, now: int, n: nat)
    requires TotalOrder(collate) && Safe(collate, left, ever, n) && UniqueIds(ever) && UniqueStamps(ever)
    requires policy.keepDays.None? || (policy.keepLast.Some? && policy.keepLast.value >= n)
    ensures Safe(collate, AfterPrune(collate, left, policy, now), ever, n)
  {
    PartIsUnique(left, ever);
    forall b | b in ever && Newer(collate, ever, b) < n
      ensures b in AfterPrune(collate, left, policy, now)
    {
      NewerOfPart(collate, left, ever, b);
      ExpiredExact(collate, left, policy, now, b);
      StaysExact(collate, left, policy, now, b);
    }
    var stays := (b: Backup) => b.id !in Ids(Expired(collate, Ordered(collate, left), policy, now));
    forall b ensures multiset(AfterPrune(collate, left, policy, now))[b] <= multiset(ever)[b] {
      FilterCount(stays, left, b);
      assert multiset(left)[b] <= multiset(ever)[b];
    }
  }

  lemma UniquePrefix(init: seq<Backup>, more: seq<Backup>)
    requires UniqueIds(init + more) && UniqueStamps(init + more)
    ensures UniqueIds(init) && UniqueStamps(init)
  {
    var all := init + more;
    forall i, j | 0 <= i < j < |init| ensures init[i].id != init[j].id && init[i].stamp != init[j].stamp {
      assert all[i] == init[i] && all[j] == init[j];
    }
  }

  /**
   * Over every interleaving of creating and pruning, with any ages and clocks, the newest `n` backups
   * ever created survive when each prune keeps at least `n`.
   */
  lemma {:induction false} NewestSurvive(collate: TextOrder, ops: seq<Op>, n: nat)
    requires TotalOrder(collate) && KeepsAtLeast(ops, n) && UniqueIds(Created(ops)) && UniqueStamps(Created(ops))
    ensures Safe(collate, AfterOps(collate, ops), Created(ops), n)
  {
    if ops != [] {
      var init, op := ops[..|ops| - 1], ops[|ops| - 1];
      UniquePrefix(Created(init), match op case Create(b) => [b] case Prune(_, _) => []);
      NewestSurvive(collate, init, n);
      match op {
        case Create(b) => CreateKeepsSafe(collate, AfterOps(collate, init), Created(init), b, n);
        case Prune(policy, now) =>
          assert Created(ops) == Created(init);
          PruneKeepsSafe(collate, AfterOps(collate, init), Created(init), policy, now, n);
      }
    }
  }
}
