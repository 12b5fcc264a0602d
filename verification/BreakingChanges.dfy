/**
 * The breaking-changes document and the merge gate, both read off a schema diff. How a single change
 * is worded is a parameter.
 */
module BreakingChanges {
  import opened Prelude
  import opened Sorting
  import opened Filters
  import opened StableJson
  import opened SchemaDiff
  import opened ClassDiff

  // ---- Enumerations ----

  datatype EnumChange = Narrow | Widen | OtherChange

  function EnumOf(v: Option<JsValue>): Option<seq<JsValue>> {
    if v.None? then None
    else
      var e := FieldOf(v.value, "enum");
      if e.Some? && e.value.JArr? then Some(e.value.items) else None
  }

  /** `includes` finds primitives; a separately parsed array or object is never identical. */
  predicate Includes(list: seq<JsValue>, x: JsValue) {
    Primitive(x) && x in list
  }

  function Missing(from: seq<JsValue>, list: seq<JsValue>): seq<JsValue> {
    Filter((x: JsValue) => !Includes(list, x), from)
  }

  function EnumChangeKind(oldV: Option<JsValue>, newV: Option<JsValue>): EnumChange {
    var o, n := EnumOf(oldV), EnumOf(newV);
    if o.None? || n.None? || o.value == [] then OtherChange
    else
      var lost, gained := Missing(o.value, n.value), Missing(n.value, o.value);
      if lost != [] && gained != [] then OtherChange
      else if lost != [] then Narrow
      else if gained != [] then Widen
      else OtherChange
  }

  ghost predicate Covers(list: seq<JsValue>, xs: seq<JsValue>) {
    forall x :: x in xs ==> Includes(list, x)
  }

  lemma MissingExact(from: seq<JsValue>, list: seq<JsValue>)
    ensures Missing(from, list) == [] <==> Covers(list, from)
  {
    FilterMembers((x: JsValue) => !Includes(list, x), from);
    var missing := Missing(from, list);
    if missing != [] { assert missing[0] in missing; }
  }

  /** Narrowing loses values and gains none; widening gains values and loses none. */
  lemma EnumChangeExact(oldV: Option<JsValue>, newV: Option<JsValue>)
    ensures
      var o, n, kind := EnumOf(oldV), EnumOf(newV), EnumChangeKind(oldV, newV);
      var comparable := o.Some? && n.Some? && o.value != [];
      && (kind == Narrow <==> comparable && Covers(o.value, n.value) && !Covers(n.value, o.value))
      && (kind == Widen <==> comparable && Covers(n.value, o.value) && !Covers(o.value, n.value))
  {
    var o, n := EnumOf(oldV), EnumOf(newV);
    if o.Some? && n.Some? {
      MissingExact(o.value, n.value);
      MissingExact(n.value, o.value);
    }
  }

  /** What narrows one way widens the other way, unless everything was lost. */
  lemma NarrowIsWidenBackwards(oldV: Option<JsValue>, newV: Option<JsValue>)
    requires EnumOf(newV) != Some([])
    ensures EnumChangeKind(oldV, newV) == Narrow ==> EnumChangeKind(newV, oldV) == Widen
    ensures EnumChangeKind(oldV, newV) == Widen ==> EnumChangeKind(newV, oldV) == Narrow
  {
    EnumChangeExact(oldV, newV);
    EnumChangeExact(newV, oldV);
  }

  // ---- Classification ----

  predicate Docish(key: string) {
    key == "description" || key == "title" || key == "example"
  }

  predicate NullableBreaking(oldV: Option<JsValue>, newV: Option<JsValue>) {
    && oldV.Some? && newV.Some?
    && FieldOf(oldV.value, "nullable") == Some(JBool(true)) && FieldOf(newV.value, "nullable") == Some(JBool(false))
  }

  /** A changed key that breaks the contract of a property on its own. */
  predicate Hard(d: Diff, key: string) {
    if key == "enum" then EnumChangeKind(d.oldV, d.newV) != Widen
    else if Docish(key) then false
    else if key == "nullable" then NullableBreaking(d.oldV, d.newV)
    else true
  }

  predicate AllDocish(changes: seq<string>) {
    forall c :: c in changes ==> Docish(c)
  }

  predicate PropertyBreaking(d: Diff) {
    exists c :: c in d.changes && Hard(d, c)
  }

  predicate ClassBreaking(d: Diff) {
    exists c :: c in d.changes && c != "description"
  }

  /** With its order of tests and early returns, breaking means: some change is hard. */
  method ClassifyModifiedProperty(d: Diff) returns (breaking: bool)
    ensures breaking == PropertyBreaking(d)
  {
    var changes := d.changes;
    if changes == [] { return false; }
    if AllDocish(changes) {
      assert forall c :: c in changes ==> !Hard(d, c);
      return false;
    }
    if "nullable" in changes && NullableBreaking(d.oldV, d.newV) {
      assert Hard(d, "nullable");
      return true;
    }
    if "enum" in changes {
      var kind := EnumChangeKind(d.oldV, d.newV);
      if kind == Widen && (forall c :: c in changes && c != "enum" ==> Docish(c)) {
        assert forall c :: c in changes ==> !Hard(d, c);
        return false;
      }
      if kind == Narrow {
        assert Hard(d, "enum");
        return true;
      }
    }
    var i := 0;
    while i < |changes|
      invariant 0 <= i <= |changes|
      invariant forall j :: 0 <= j < i ==> changes[j] == "enum" || !Hard(d, changes[j])
    {
      var c := changes[i];
      if c != "enum" && !Docish(c) && !(c == "nullable" && !NullableBreaking(d.oldV, d.newV)) {
        assert Hard(d, c) && c in changes;
        return true;
      }
      i := i + 1;
    }
    if "enum" in changes {
      breaking := EnumChangeKind(d.oldV, d.newV) != Widen;
      assert breaking ==> Hard(d, "enum");
      return;
    }
    return false;
  }

  method ClassifyModifiedSchema(d: Diff) returns (breaking: bool)
    ensures breaking == ClassBreaking(d)
  {
    if d.changes == [] { return false; }
    if forall c :: c in d.changes ==> c == "description" { return false; }
    assert exists c :: c in d.changes && c != "description";
    return true;
  }

  // ---- The document ----

  datatype Category = Breaking | Additions | Other

  datatype Bullet = Bullet(stableId: string, text: string, category: Category)

  type Wording = Diff -> string

  function StableId(path: string): string {
    "components." + path
  }

  function CategoryOf(d: Diff): Category {
    match d.kind
    case Removed => Breaking
    case Added => Additions
    case _ => if (if d.itemType == ClassType then ClassBreaking(d) else PropertyBreaking(d)) then Breaking else Other
  }

  function BulletOf(line: Wording, d: Diff): Bullet {
    Bullet(StableId(d.path), "`" + StableId(d.path) + "` \U{2014} " + line(d), CategoryOf(d))
  }

  /** A property whose whole class is in the same bucket. */
  predicate Redundant(d: Diff, bucket: seq<Diff>) {
    && d.itemType == PropertyType
    && var name := ClassOfProperty(d.path);
       name.Some? && exists x ::
         x in bucket && x.itemType == ClassType && x.kind == d.kind && x.path == ClassPath(name.value)
  }

  function Bullets(line: Wording, diffs: seq<Diff>): seq<Bullet> {
    seq(|diffs|, i requires 0 <= i < |diffs| => BulletOf(line, diffs[i]))
  }

  function Told(bucket: seq<Diff>): seq<Diff> {
    Filter((d: Diff) => !Redundant(d, bucket), bucket)
  }

  /** The diffs that get a bullet. */
  function ToldOf(s: DiffSummary): seq<Diff> {
    Told(s.removed) + Told(s.added) + s.modified
  }

  predicate LowerId(a: Bullet, b: Bullet) {
    Less(a.stableId, b.stableId)
  }

  predicate LowerText(a: Bullet, b: Bullet) {
    Less(a.text, b.text)
  }

  function BulletOrder(): (Bullet, Bullet) -> bool {
    Then(LowerId, LowerText)
  }

  function Document(line: Wording, s: DiffSummary): seq<Bullet> {
    Sort(BulletOrder(), Bullets(line, ToldOf(s)))
  }

  lemma OneMoreBullet(line: Wording, diffs: seq<Diff>, d: Diff)
    ensures Bullets(line, diffs + [d]) == Bullets(line, diffs) + [BulletOf(line, d)]
  {}

  method BulletsOfBucket(
      line: Wording, bucket: seq<Diff>, category: Category, told: seq<Diff>, out: seq<Bullet>) returns (r: seq<Bullet>)
    requires out == Bullets(line, told)
    requires forall d :: d in bucket ==> CategoryOf(d) == category
    ensures r == Bullets(line, told + Told(bucket))
  {
    r := out;
    ghost var toTell := (d: Diff) => !Redundant(d, bucket);
    var i := 0;
    assert told + Filter(toTell, bucket[..0]) == told;
    while i < |bucket|
      invariant 0 <= i <= |bucket|
      invariant r == Bullets(line, told + Filter(toTell, bucket[..i]))
    {
      var d := bucket[i];
      assert bucket[..i + 1] == bucket[..i] + [d];
      FilterLast(toTell, bucket[..i], d);
      if !Redundant(d, bucket) {
        OneMoreBullet(line, told + Filter(toTell, bucket[..i]), d);
        Regroup(told, Filter(toTell, bucket[..i]), [d]);
        r := r + [Bullet(StableId(d.path), "`" + StableId(d.path) + "` \U{2014} " + line(d), category)];
      }
      i := i + 1;
    }
    assert bucket[..i] == bucket;
  }

  method BuildBreakingChangesBullets(line: Wording, s: DiffSummary) returns (r: seq<Bullet>)
    requires KindsApart(s)
    ensures r == Document(line, s)
  {
    var out := BulletsOfBucket(line, s.removed, Breaking, [], []);
    assert [] + Told(s.removed) == Told(s.removed);
    out := BulletsOfBucket(line, s.added, Additions, Told(s.removed), out);
    ghost var told := Told(s.removed) + Told(s.added);
    var i := 0;
    assert told + s.modified[..0] == told;
    while i < |s.modified|
      invariant 0 <= i <= |s.modified|
      invariant out == Bullets(line, told + s.modified[..i])
    {
      var d := s.modified[i];
      var breaking;
      if d.itemType == ClassType {
        breaking := ClassifyModifiedSchema(d);
      } else {
        breaking := ClassifyModifiedProperty(d);
      }
      OneMoreBullet(line, told + s.modified[..i], d);
      assert (told + s.modified[..i]) + [d] == told + s.modified[..i + 1];
      out := out + [Bullet(StableId(d.path), "`" + StableId(d.path) + "` \U{2014} " + line(d),
        if breaking then Breaking else Other)];
      i := i + 1;
    }
    assert s.modified[..i] == s.modified;
    r := Sort(BulletOrder(), out);
  }

  // ---- One bullet per change ----

  /** The class is on one side only. */
  predicate OneSided(a: Entries, b: Entries, name: string) {
    (name in a.at) != (name in b.at)
  }

  ghost predicate PartOfWholeClass(a: Entries, b: Entries, item: Item) {
    item.PropertyItem? && OneSided(a, b, item.name)
  }

  /** Changed, and not covered by its class's own bullet. */
  ghost predicate ToldItem(a: Entries, b: Entries, item: Item) {
    Present(a, b, item) && ItemDiff(a, b, item).kind != Unchanged && !PartOfWholeClass(a, b, item)
  }

  ghost predicate Readable(a: Entries, b: Entries) {
    TidySchemas(a) && TidySchemas(b) && PlainNames(a) && PlainNames(b)
  }

  lemma RedundantIsOneSided(a: Entries, b: Entries, kind: Kind, item: Item)
    requires
      Readable(a, b) && Present(a, b, item) && ItemDiff(a, b, item).kind == kind && (kind == Added || kind == Removed)
    requires Redundant(ItemDiff(a, b, item), Bucket(Bucketed(Diffs(a, b)), kind))
    ensures PartOfWholeClass(a, b, item)
  {
    var bucket := Bucket(Bucketed(Diffs(a, b)), kind);
    ReadItemPath(item);
    var x :| x in bucket && x.itemType == ClassType && x.path == ClassPath(item.name);
    var y := BucketItem(a, b, kind, x, item.name);
  }

  lemma OneSidedIsRedundant(a: Entries, b: Entries, kind: Kind, item: Item)
    requires
      Readable(a, b) && Present(a, b, item) && ItemDiff(a, b, item).kind == kind && (kind == Added || kind == Removed)
    requires PartOfWholeClass(a, b, item)
    ensures Redundant(ItemDiff(a, b, item), Bucket(Bucketed(Diffs(a, b)), kind))
  {
    var x := ItemDiff(a, b, ClassItem(item.name));
    ReadItemPath(item);
    assert Present(a, b, ClassItem(item.name));
    DiffKind(PathOf(item), PropertyType, ValueOf(a, item), ValueOf(b, item), kind);
    DiffKind(ClassPath(item.name), ClassType, Member(a, item.name), Member(b, item.name), kind);
    Partition(a, b, kind, x);
    assert x in Bucket(Bucketed(Diffs(a, b)), kind);
  }

  lemma RedundantExact(a: Entries, b: Entries, kind: Kind, item: Item)
    requires
      Readable(a, b) && Present(a, b, item) && ItemDiff(a, b, item).kind == kind && (kind == Added || kind == Removed)
    ensures Redundant(ItemDiff(a, b, item), Bucket(Bucketed(Diffs(a, b)), kind)) <==> PartOfWholeClass(a, b, item)
  {
    if Redundant(ItemDiff(a, b, item), Bucket(Bucketed(Diffs(a, b)), kind)) { RedundantIsOneSided(a, b, kind, item); }
    if PartOfWholeClass(a, b, item) { OneSidedIsRedundant(a, b, kind, item); }
  }

  lemma BucketHas(a: Entries, b: Entries, kind: Kind, d: Diff)
    requires TidySchemas(a) && TidySchemas(b)
    ensures
      d in Bucket(Bucketed(Diffs(a, b)), kind)
      <==> exists item :: Present(a, b, item) && d == ItemDiff(a, b, item) && d.kind == kind
  {
    FilterMembers((x: Diff) => x.kind == kind, Diffs(a, b));
    DiffsExact(a, b, d);
  }

  lemma ToldBucketExact(a: Entries, b: Entries, kind: Kind, d: Diff)
    requires Readable(a, b) && (kind == Added || kind == Removed)
    ensures
      d in Told(Bucket(Bucketed(Diffs(a, b)), kind))
      <==> exists item :: ToldItem(a, b, item) && d == ItemDiff(a, b, item) && d.kind == kind
  {
    var bucket := Bucket(Bucketed(Diffs(a, b)), kind);
    FilterMembers((x: Diff) => !Redundant(x, bucket), bucket);
    BucketHas(a, b, kind, d);
    forall item | Present(a, b, item) && d == ItemDiff(a, b, item) && d.kind == kind
      ensures Redundant(d, bucket) <==> PartOfWholeClass(a, b, item)
    {
      RedundantExact(a, b, kind, item);
    }
  }

  lemma ToldExact(a: Entries, b: Entries, d: Diff)
    requires Readable(a, b)
    ensures d in ToldOf(Bucketed(Diffs(a, b))) <==> exists item :: ToldItem(a, b, item) && d == ItemDiff(a, b, item)
  {
    ToldBucketExact(a, b, Added, d);
    ToldBucketExact(a, b, Removed, d);
    BucketHas(a, b, Modified, d);
    forall item | Present(a, b, item) && ItemDiff(a, b, item).kind == Modified ensures ToldItem(a, b, item) {}
  }

  lemma ItemsApart(a: Entries, b: Entries, x: Item, y: Item)
    requires Readable(a, b) && Present(a, b, x) && Present(a, b, y)
    ensures ItemDiff(a, b, x).path == ItemDiff(a, b, y).path <==> x == y
  {
    PathsTellApart(x, y);
  }

  lemma DiffsDistinct(a: Entries, b: Entries)
    requires Readable(a, b)
    ensures Distinct(Diffs(a, b))
  {
    ItemsExact(a, b);
    var items := Items(a, b);
    forall i, j | 0 <= i < j < |items| ensures Diffs(a, b)[i] != Diffs(a, b)[j] {
      assert items[i] in items && items[j] in items;
      ItemsApart(a, b, items[i], items[j]);
    }
  }

  lemma ToldDistinct(a: Entries, b: Entries)
    requires Readable(a, b)
    ensures Distinct(ToldOf(Bucketed(Diffs(a, b))))
  {
    var s := Bucketed(Diffs(a, b));
    DiffsDistinct(a, b);
    BucketsHoldTheirKind(Diffs(a, b));
    FilterDistinct((d: Diff) => d.kind == Removed, Diffs(a, b));
    FilterDistinct((d: Diff) => d.kind == Added, Diffs(a, b));
    FilterDistinct((d: Diff) => d.kind == Modified, Diffs(a, b));
    FilterDistinct((d: Diff) => !Redundant(d, s.removed), s.removed);
    FilterDistinct((d: Diff) => !Redundant(d, s.added), s.added);
    FilterMembers((d: Diff) => !Redundant(d, s.removed), s.removed);
    FilterMembers((d: Diff) => !Redundant(d, s.added), s.added);
    KindsAppend(Told(s.removed), Removed, Told(s.added), Added);
  }

  lemma KindsAppend(xs: seq<Diff>, kx: Kind, ys: seq<Diff>, ky: Kind)
    requires Distinct(xs) && Distinct(ys) && kx != ky
    requires (forall d :: d in xs ==> d.kind == kx) && (forall d :: d in ys ==> d.kind == ky)
    ensures Distinct(xs + ys)
  {
    forall i, j | 0 <= i < |xs| && 0 <= j < |ys| ensures xs[i] != ys[j] {
      assert xs[i] in xs && ys[j] in ys;
    }
    DistinctAppend(xs, ys);
  }

  lemma BulletsMembers(line: Wording, diffs: seq<Diff>, x: Bullet)
    ensures x in Bullets(line, diffs) <==> exists d :: d in diffs && x == BulletOf(line, d)
  {
    if d :| d in diffs && x == BulletOf(line, d) {
      var i :| 0 <= i < |diffs| && diffs[i] == d;
      assert Bullets(line, diffs)[i] == x;
    }
  }

  lemma DocumentMembers(line: Wording, s: DiffSummary, x: Bullet)
    ensures x in Document(line, s) <==> exists d :: d in ToldOf(s) && x == BulletOf(line, d)
  {
    SortMembers(BulletOrder(), Bullets(line, ToldOf(s)));
    BulletsMembers(line, ToldOf(s), x);
  }

  lemma SameId(line: Wording, d: Diff, e: Diff)
    ensures BulletOf(line, d).stableId == BulletOf(line, e).stableId <==> d.path == e.path
  {
    SplitAt(StableId(d.path), "components.", d.path);
    SplitAt(StableId(e.path), "components.", e.path);
  }

  /** No two diffs that are told share a path. */
  lemma ToldApart(a: Entries, b: Entries, d: Diff, e: Diff)
    requires Readable(a, b) && d in ToldOf(Bucketed(Diffs(a, b))) && e in ToldOf(Bucketed(Diffs(a, b)))
    ensures d.path == e.path <==> d == e
  {
    ToldExact(a, b, d);
    ToldExact(a, b, e);
    var x :| ToldItem(a, b, x) && d == ItemDiff(a, b, x);
    var y :| ToldItem(a, b, y) && e == ItemDiff(a, b, y);
    ItemsApart(a, b, x, y);
  }

  ghost predicate IdsApart(bullets: seq<Bullet>) {
    forall i, j :: 0 <= i < j < |bullets| ==> bullets[i].stableId != bullets[j].stableId
  }

  /** The identifiers of the document are distinct, and so are its bullets. */
  lemma DocumentDistinct(line: Wording, a: Entries, b: Entries)
    requires Readable(a, b)
    ensures IdsApart(Bullets(line, ToldOf(Bucketed(Diffs(a, b))))) && Distinct(Document(line, Bucketed(Diffs(a, b))))
  {
    var told := ToldOf(Bucketed(Diffs(a, b)));
    ToldDistinct(a, b);
    forall i, j | 0 <= i < j < |told| ensures Bullets(line, told)[i].stableId != Bullets(line, told)[j].stableId {
      assert told[i] in told && told[j] in told;
      ToldApart(a, b, told[i], told[j]);
      SameId(line, told[i], told[j]);
    }
    assert Distinct(Bullets(line, told));
    SortDistinct(BulletOrder(), Bullets(line, told));
  }

  /** A bullet about this path. */
  predicate About(x: Bullet, path: string) {
    x.stableId == StableId(path)
  }

  /**
   * Every change has exactly one bullet of its own, except that a property of a wholly added or
   * removed class has none, and then its class has one.
   */
  lemma EveryChangeTold(line: Wording, a: Entries, b: Entries, item: Item)
    requires Readable(a, b) && Present(a, b, item) && ItemDiff(a, b, item).kind != Unchanged
    ensures
      var document, x := Document(line, Bucketed(Diffs(a, b))), BulletOf(line, ItemDiff(a, b, item));
      && Distinct(document)
      && (if PartOfWholeClass(a, b, item)
          then NoneAbout(document, PathOf(item)) && BulletOf(line, ItemDiff(a, b, ClassItem(item.name))) in document
          else x in document && OnlyAbout(document, PathOf(item), x))
  {
    DocumentDistinct(line, a, b);
    forall y | y in Document(line, Bucketed(Diffs(a, b))) && About(y, PathOf(item))
      ensures y == BulletOf(line, ItemDiff(a, b, item)) && ToldItem(a, b, item)
    {
      ToldAbout(line, a, b, item, y);
    }
    if PartOfWholeClass(a, b, item) {
      assert ToldItem(a, b, ClassItem(item.name));
      ItemIsTold(line, a, b, ClassItem(item.name));
    } else {
      ItemIsTold(line, a, b, item);
    }
  }

  ghost predicate NoneAbout(document: seq<Bullet>, path: string) {
    forall y :: y in document ==> !About(y, path)
  }

  ghost predicate OnlyAbout(document: seq<Bullet>, path: string, x: Bullet) {
    forall y :: y in document && About(y, path) ==> y == x
  }

  lemma ToldAbout(line: Wording, a: Entries, b: Entries, item: Item, y: Bullet)
    requires
      Readable(a, b) && Present(a, b, item) && y in Document(line, Bucketed(Diffs(a, b))) && About(y, PathOf(item))
    ensures y == BulletOf(line, ItemDiff(a, b, item)) && ToldItem(a, b, item)
  {
    DocumentMembers(line, Bucketed(Diffs(a, b)), y);
    var e :| e in ToldOf(Bucketed(Diffs(a, b))) && y == BulletOf(line, e);
    ToldExact(a, b, e);
    var other :| ToldItem(a, b, other) && e == ItemDiff(a, b, other);
    SameId(line, e, ItemDiff(a, b, item));
    ItemsApart(a, b, item, other);
  }

  lemma ItemIsTold(line: Wording, a: Entries, b: Entries, item: Item)
    requires Readable(a, b) && ToldItem(a, b, item)
    ensures BulletOf(line, ItemDiff(a, b, item)) in Document(line, Bucketed(Diffs(a, b)))
  {
    ToldExact(a, b, ItemDiff(a, b, item));
    DocumentMembers(line, Bucketed(Diffs(a, b)), BulletOf(line, ItemDiff(a, b, item)));
  }

  // ---- The order of the buckets leaves no trace ----

  lemma TakeOut(ys: seq<Diff>, d: Diff) returns (front: seq<Diff>, back: seq<Diff>)
    requires d in multiset(ys)
    ensures ys == front + [d] + back && multiset(front + back) == multiset(ys) - multiset{d}
  {
    var j :| 0 <= j < |ys| && ys[j] == d;
    front, back := ys[..j], ys[j + 1..];
    assert ys == front + [d] + back;
  }

  lemma LastBullet(line: Wording, xs: seq<Diff>)
    requires xs != []
    ensures
      multiset(Bullets(line, xs)) == multiset(Bullets(line, xs[..|xs| - 1])) + multiset{BulletOf(line, xs[|xs| - 1])}
  {
    assert xs == xs[..|xs| - 1] + [xs[|xs| - 1]];
    OneMoreBullet(line, xs[..|xs| - 1], xs[|xs| - 1]);
  }

  lemma {:induction false} BulletsPermute(line: Wording, xs: seq<Diff>, ys: seq<Diff>)
    requires multiset(xs) == multiset(ys)
    ensures multiset(Bullets(line, xs)) == multiset(Bullets(line, ys))
  {
    if xs == [] {
      EmptyMultiset(ys);
    } else {
      var d := xs[|xs| - 1];
      LastApart(xs, xs[..|xs| - 1], d);
      var front, back := TakeOut(ys, d);
      BulletsPermute(line, xs[..|xs| - 1], front + back);
      LastBullet(line, xs);
      BulletsAround(line, front, d, back);
    }
  }

  lemma BulletsAround(line: Wording, front: seq<Diff>, d: Diff, back: seq<Diff>)
    ensures
      multiset(Bullets(line, front + [d] + back)) == multiset(Bullets(line, front + back)) + multiset{BulletOf(line, d)}
  {
    assert Bullets(line, front + [d] + back) == Bullets(line, front) + [BulletOf(line, d)] + Bullets(line, back);
    assert Bullets(line, front + back) == Bullets(line, front) + Bullets(line, back);
  }

  ghost predicate SameBuckets(s: DiffSummary, t: DiffSummary) {
    && multiset(s.added) == multiset(t.added) && multiset(s.removed) == multiset(t.removed)
    && multiset(s.modified) == multiset(t.modified)
  }

  lemma ToldPermutes(x: seq<Diff>, y: seq<Diff>)
    requires multiset(x) == multiset(y)
    ensures multiset(Told(x)) == multiset(Told(y))
  {
    forall d ensures d in x <==> d in y {
      assert d in multiset(x) <==> d in multiset(y);
    }
    forall d: Diff ensures Redundant(d, x) <==> Redundant(d, y) {}
    FilterAgree((d: Diff) => !Redundant(d, x), (d: Diff) => !Redundant(d, y), x);
    FilterPermutes((d: Diff) => !Redundant(d, y), x, y);
  }

  lemma BulletOrderIsOrder()
    ensures WeakOrder(BulletOrder())
  {
    LessIsOrder();
    forall x: Bullet, y: Bullet, z: Bullet
      ensures
        !LowerId(x, x) && (LowerId(x, y) && LowerId(y, z) ==> LowerId(x, z))
        && (!LowerId(x, y) && !LowerId(y, z) ==> !LowerId(x, z))
    {
      LessTransitive(x.stableId, y.stableId, z.stableId);
      LessIrreflexive(x.stableId);
    }
    forall x: Bullet, y: Bullet, z: Bullet
      ensures
        !LowerText(x, x) && (LowerText(x, y) && LowerText(y, z) ==> LowerText(x, z))
        && (!LowerText(x, y) && !LowerText(y, z) ==> !LowerText(x, z))
    {
      LessTransitive(x.text, y.text, z.text);
      LessIrreflexive(x.text);
    }
    assert WeakOrder(LowerId) && WeakOrder(LowerText);
    ThenIsOrder(LowerId, LowerText);
  }

  lemma OrderByIds(x: Bullet, y: Bullet)
    requires x.stableId != y.stableId
    ensures BulletOrder()(x, y) || BulletOrder()(y, x)
  {
    LessTotal(x.stableId, y.stableId);
    assert BulletOrder()(x, y) == (LowerId(x, y) || (!LowerId(y, x) && LowerText(x, y)));
    assert BulletOrder()(y, x) == (LowerId(y, x) || (!LowerId(x, y) && LowerText(y, x)));
  }

  lemma ApartSeparates(bullets: seq<Bullet>)
    requires IdsApart(bullets)
    ensures Separates(BulletOrder(), bullets) && Distinct(bullets)
  {
    forall x, y | x in bullets && y in bullets && x != y
      ensures BulletOrder()(x, y) || BulletOrder()(y, x)
    {
      var i :| 0 <= i < |bullets| && bullets[i] == x;
      var j :| 0 <= j < |bullets| && bullets[j] == y;
      OrderByIds(x, y);
    }
  }

  lemma SameToldBullets(line: Wording, s: DiffSummary, t: DiffSummary)
    requires SameBuckets(s, t)
    ensures multiset(Bullets(line, ToldOf(s))) == multiset(Bullets(line, ToldOf(t)))
  {
    ToldPermutes(s.removed, t.removed);
    ToldPermutes(s.added, t.added);
    assert multiset(ToldOf(s)) == multiset(Told(s.removed)) + multiset(Told(s.added)) + multiset(s.modified);
    assert multiset(ToldOf(t)) == multiset(Told(t.removed)) + multiset(Told(t.added)) + multiset(t.modified);
    BulletsPermute(line, ToldOf(s), ToldOf(t));
  }

  lemma SortedAlike(xs: seq<Bullet>, ys: seq<Bullet>)
    requires IdsApart(xs) && multiset(xs) == multiset(ys)
    ensures Sort(BulletOrder(), xs) == Sort(BulletOrder(), ys)
  {
    BulletOrderIsOrder();
    ApartSeparates(xs);
    SortForgetsOrder(BulletOrder(), xs, ys);
  }

  /** However the buckets are ordered, the document is the same list. */
  lemma DocumentForgetsOrder(line: Wording, a: Entries, b: Entries, t: DiffSummary)
    requires Readable(a, b) && SameBuckets(Bucketed(Diffs(a, b)), t)
    ensures Document(line, t) == Document(line, Bucketed(Diffs(a, b)))
  {
    var s := Bucketed(Diffs(a, b));
    SameToldBullets(line, s, t);
    DocumentDistinct(line, a, b);
    SortedAlike(Bullets(line, ToldOf(s)), Bullets(line, ToldOf(t)));
  }

  // ---- The merge gate ----

  datatype MergeClassification = MergeClassification(canAutoMerge: bool, conflictPaths: seq<string>,
    addedSchemaNames: seq<string>)

  function Paths(diffs: seq<Diff>): seq<string> {
    seq(|diffs|, i requires 0 <= i < |diffs| => diffs[i].path)
  }

  function WithoutPrefix(path: string): string {
    if StartsWith(path, "schemas.") then path[|"schemas."|..] else path
  }

  function ClassifyMergeDiff(s: DiffSummary): MergeClassification {
    var conflictPaths := Paths(s.modified) + Paths(s.removed);
    var classes := Filter((d: Diff) => d.itemType == ClassType && StartsWith(d.path, "schemas."), s.added);
    MergeClassification(conflictPaths == [], conflictPaths,
                        seq(|classes|, i requires 0 <= i < |classes| => WithoutPrefix(classes[i].path)))
  }

  /** The target's item is still there and equal in every tracked key, as a value. */
  ghost predicate Survives(target: Entries, source: Entries, item: Item)
    requires ValueOf(target, item).Some?
  {
    && ValueOf(source, item).Some?
    && Same(TableOf(TypeOf(item)), ValueOf(target, item).value, ValueOf(source, item).value)
  }

  lemma PathsMembers(diffs: seq<Diff>, path: string)
    ensures path in Paths(diffs) <==> exists d :: d in diffs && d.path == path
  {
    if d :| d in diffs && d.path == path {
      var i :| 0 <= i < |diffs| && diffs[i] == d;
      assert Paths(diffs)[i] == path;
    }
  }

  /** A tracked key that the code compares by `!==` holds an array or an object. */
  ghost predicate HoldsReference(target: Entries, item: Item)
    requires ValueOf(target, item).Some?
  {
    !NoReferences(TableOf(TypeOf(item)), ValueOf(target, item).value)
  }

  /** In the target, but gone from the source, changed there, or compared by reference. */
  ghost predicate Conflicts(target: Entries, source: Entries, item: Item) {
    ValueOf(target, item).Some? && (!Survives(target, source, item) || HoldsReference(target, item))
  }

  lemma ConflictIsListed(target: Entries, source: Entries, item: Item)
    requires TidySchemas(target) && TidySchemas(source) && Conflicts(target, source, item)
    ensures
      var s := Bucketed(Diffs(target, source));
      ItemDiff(target, source, item) in Bucket(s, Modified) || ItemDiff(target, source, item) in Bucket(s, Removed)
  {
    var kind := if ValueOf(source, item).None? then Removed else Modified;
    assert Became(kind, TypeOf(item), ValueOf(target, item), ValueOf(source, item)) by {
      if kind == Modified {
        NoChanges(TableOf(TypeOf(item)), ValueOf(target, item).value, ValueOf(source, item).value);
      }
    }
    ItemInBucket(target, source, kind, item);
  }

  lemma ItemInBucket(a: Entries, b: Entries, kind: Kind, item: Item)
    requires TidySchemas(a) && TidySchemas(b)
    requires Present(a, b, item) && Became(kind, TypeOf(item), ValueOf(a, item), ValueOf(b, item))
    ensures ItemDiff(a, b, item) in Bucket(Bucketed(Diffs(a, b)), kind)
  {
    Partition(a, b, kind, ItemDiff(a, b, item));
  }

  lemma ListedIsConflict(target: Entries, source: Entries, kind: Kind, d: Diff) returns (item: Item)
    requires TidySchemas(target) && TidySchemas(source) && (kind == Modified || kind == Removed)
    requires d in Bucket(Bucketed(Diffs(target, source)), kind)
    ensures Conflicts(target, source, item) && PathOf(item) == d.path
  {
    Partition(target, source, kind, d);
    item :| Present(target, source, item) && Became(kind, TypeOf(item), ValueOf(target, item), ValueOf(source, item))
            && d == ItemDiff(target, source, item);
  }

  /** The conflict paths are those of the target's items that do not survive or hold a reference. */
  lemma ConflictsExact(target: Entries, source: Entries, path: string)
    requires TidySchemas(target) && TidySchemas(source)
    ensures
      path in ClassifyMergeDiff(Bucketed(Diffs(target, source))).conflictPaths
      <==> exists item :: Conflicts(target, source, item) && PathOf(item) == path
  {
    var s := Bucketed(Diffs(target, source));
    PathsMembers(s.modified, path);
    PathsMembers(s.removed, path);
    if item :| Conflicts(target, source, item) && PathOf(item) == path {
      ConflictIsListed(target, source, item);
    }
    if d :| d in s.modified && d.path == path {
      var item := ListedIsConflict(target, source, Modified, d);
    }
    if d :| d in s.removed && d.path == path {
      var item := ListedIsConflict(target, source, Removed, d);
    }
  }

  lemma ConflictStops(target: Entries, source: Entries, item: Item)
    requires TidySchemas(target) && TidySchemas(source) && Conflicts(target, source, item)
    ensures !ClassifyMergeDiff(Bucketed(Diffs(target, source))).canAutoMerge
  {
    ConflictsExact(target, source, PathOf(item));
  }

  lemma StoppedByConflict(target: Entries, source: Entries) returns (item: Item)
    requires TidySchemas(target) && TidySchemas(source)
    requires !ClassifyMergeDiff(Bucketed(Diffs(target, source))).canAutoMerge
    ensures Conflicts(target, source, item)
  {
    var paths := ClassifyMergeDiff(Bucketed(Diffs(target, source))).conflictPaths;
    assert paths[0] in paths;
    ConflictsExact(target, source, paths[0]);
    item :| Conflicts(target, source, item) && PathOf(item) == paths[0];
  }

  lemma NoConflictMerges(target: Entries, source: Entries)
    requires TidySchemas(target) && TidySchemas(source)
    ensures
      ClassifyMergeDiff(Bucketed(Diffs(target, source))).canAutoMerge
      <==> forall item :: !Conflicts(target, source, item)
  {
    if ClassifyMergeDiff(Bucketed(Diffs(target, source))).canAutoMerge {
      forall item ensures !Conflicts(target, source, item) {
        if Conflicts(target, source, item) { ConflictStops(target, source, item); }
      }
    } else {
      var item := StoppedByConflict(target, source);
    }
  }

  ghost predicate EverythingSurvives(target: Entries, source: Entries) {
    forall item :: ValueOf(target, item).Some? ==> Survives(target, source, item)
  }

  ghost predicate NothingHoldsReference(target: Entries) {
    forall item :: ValueOf(target, item).Some? ==> !HoldsReference(target, item)
  }

  /**
   * A merge goes through exactly when every class and property of the target survives with equal
   * tracked keys and none of them holds an array or an object under a key compared by `!==`.
   */
  lemma CanAutoMergeExact(target: Entries, source: Entries)
    requires TidySchemas(target) && TidySchemas(source)
    ensures
      ClassifyMergeDiff(Bucketed(Diffs(target, source))).canAutoMerge
      <==> EverythingSurvives(target, source) && NothingHoldsReference(target)
  {
    NoConflictMerges(target, source);
    if forall item :: !Conflicts(target, source, item) {
      forall item | ValueOf(target, item).Some?
        ensures Survives(target, source, item) && !HoldsReference(target, item)
      {
        assert !Conflicts(target, source, item);
      }
    }
  }

  lemma EverythingSurvivesItself(target: Entries)
    ensures EverythingSurvives(target, target)
  {
    forall item | ValueOf(target, item).Some? ensures Survives(target, target, item) {
      SameAsItself(TableOf(TypeOf(item)), ValueOf(target, item).value);
    }
  }

  /** Merging an equal document goes through exactly when nothing in it is compared by reference. */
  lemma SelfMergeExact(target: Entries)
    requires TidySchemas(target)
    ensures ClassifyMergeDiff(Bucketed(Diffs(target, target))).canAutoMerge <==> NothingHoldsReference(target)
  {
    EverythingSurvivesItself(target);
    CanAutoMergeExact(target, target);
  }

  /** A target with a class whose type is a list merges with no document, not with its own copy. */
  lemma ListTypeNeverMerges(target: Entries, source: Entries, name: string, items: seq<JsValue>)
    requires TidySchemas(target) && TidySchemas(source)
    requires Member(target, name).Some? && FieldOf(Member(target, name).value, "type") == Some(JArr(items))
    ensures !ClassifyMergeDiff(Bucketed(Diffs(target, source))).canAutoMerge
  {
    assert SCHEMA_TABLE[1] == Tracked("type", ByIdentity);
    assert ComparesByIdentity(SCHEMA_TABLE[1], Member(target, name).value);
    assert Conflicts(target, source, ClassItem(name));
    NoConflictMerges(target, source);
  }

  /** And then nothing in the document is breaking. */
  lemma AutoMergeBreaksNothing(line: Wording, target: Entries, source: Entries)
    requires ClassifyMergeDiff(Bucketed(Diffs(target, source))).canAutoMerge
    ensures forall x :: x in Document(line, Bucketed(Diffs(target, source))) ==> x.category == Additions
  {
    var s := Bucketed(Diffs(target, source));
    BucketsHoldTheirKind(Diffs(target, source));
    assert |Paths(s.modified)| == 0 && |Paths(s.removed)| == 0;
    FilterMembers((d: Diff) => !Redundant(d, s.added), s.added);
    FilterMembers((d: Diff) => !Redundant(d, s.removed), s.removed);
    forall x | x in Document(line, s) ensures x.category == Additions {
      DocumentMembers(line, s, x);
    }
  }
}
