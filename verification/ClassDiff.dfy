/** The per-class views of a schema diff, which read class names back from paths. */
module ClassDiff {
  import opened Prelude
  import opened Sorting
  import opened Filters
  import opened SchemaDiff

  // ---- Paths ----

  /** What a path's reader can recover: a name without dots that is not empty. */
  predicate Plain(name: string) {
    name != "" && '.' !in name
  }

  ghost predicate PlainNames(s: Entries) {
    forall n :: n in s.at ==> Plain(n)
  }

  function BeforeDot(s: string): (r: string)
    ensures |r| <= |s|
  {
    if s == "" || s[0] == '.' then "" else [s[0]] + BeforeDot(s[1..])
  }

  /** The pattern `^schemas\.([^.]+)\.properties\.`. */
  function ClassOfProperty(path: string): Option<string> {
    if !StartsWith(path, "schemas.") then None
    else
      var rest := path[|"schemas."|..];
      var name := BeforeDot(rest);
      if name != "" && StartsWith(rest[|name|..], ".properties.") then Some(name) else None
  }

  /** The pattern `^schemas\.([^.]+)$`. */
  function ClassOfClass(path: string): Option<string> {
    if !StartsWith(path, "schemas.") then None
    else
      var rest := path[|"schemas."|..];
      if Plain(rest) then Some(rest) else None
  }

  lemma {:induction false} BeforeDotIsPrefix(s: string)
    ensures |BeforeDot(s)| <= |s| && BeforeDot(s) == s[..|BeforeDot(s)|] && '.' !in BeforeDot(s)
    ensures |BeforeDot(s)| < |s| ==> s[|BeforeDot(s)|] == '.'
  {
    if s != "" && s[0] != '.' {
      BeforeDotIsPrefix(s[1..]);
    }
  }

  lemma {:induction false} BeforeDotOf(name: string, tail: string)
    requires '.' !in name && (tail == "" || tail[0] == '.')
    ensures BeforeDot(name + tail) == name
  {
    if name == "" {
      assert name + tail == tail;
    } else {
      assert (name + tail)[1..] == name[1..] + tail;
      BeforeDotOf(name[1..], tail);
      assert [name[0]] + name[1..] == name;
    }
  }

  lemma SplitAt(s: string, a: string, b: string)
    requires s == a + b
    ensures s[..|a|] == a && s[|a|..] == b
  {}

  lemma StartsAt(s: string, prefix: string)
    requires StartsWith(s, prefix)
    ensures s == prefix + s[|prefix|..]
  {}

  lemma PrefixParts(name: string, more: string)
    ensures PropertyPrefix(name) + more == "schemas." + (name + (".properties." + more))
  {}

  lemma ReadPrefix(name: string, more: string)
    requires Plain(name)
    ensures ClassOfProperty("schemas." + (name + (".properties." + more))) == Some(name)
  {
    var tail := ".properties." + more;
    SplitAt("schemas." + (name + tail), "schemas.", name + tail);
    BeforeDotOf(name, tail);
    SplitAt(name + tail, name, tail);
    SplitAt(tail, ".properties.", more);
  }

  lemma FoundPrefix(name: string, path: string)
    requires ClassOfProperty(path) == Some(name)
    ensures StartsWith(path, PropertyPrefix(name))
  {
    var rest := path[|"schemas."|..];
    StartsAt(path, "schemas.");
    BeforeDotIsPrefix(rest);
    StartsAt(rest, name);
    StartsAt(rest[|name|..], ".properties.");
    var more := rest[|name|..][|".properties."|..];
    PrefixParts(name, more);
    SplitAt(path, PropertyPrefix(name), more);
  }

  /** A path starts with a plain class's property prefix exactly when the reader finds that class. */
  lemma PrefixExact(name: string, path: string)
    requires Plain(name)
    ensures ClassOfProperty(path) == Some(name) <==> StartsWith(path, PropertyPrefix(name))
  {
    if StartsWith(path, PropertyPrefix(name)) {
      StartsAt(path, PropertyPrefix(name));
      PrefixParts(name, path[|PropertyPrefix(name)|..]);
      ReadPrefix(name, path[|PropertyPrefix(name)|..]);
    }
    if ClassOfProperty(path) == Some(name) {
      FoundPrefix(name, path);
    }
  }

  lemma ReadItemPath(item: Item)
    requires Plain(item.name)
    ensures
      item.PropertyItem? ==> ClassOfProperty(PathOf(item)) == Some(item.name) && ClassOfClass(PathOf(item)) == None
    ensures item.ClassItem? ==> ClassOfClass(PathOf(item)) == Some(item.name) && ClassOfProperty(PathOf(item)) == None
  {
    var path := PathOf(item);
    match item {
      case ClassItem(n) =>
        SplitAt(path, "schemas.", n);
        BeforeDotOf(n, "");
        assert n + "" == n;
      case PropertyItem(n, p) =>
        SplitAt(path, PropertyPrefix(n), p);
        PrefixExact(n, path);
        assert path == "schemas." + (n + (".properties." + p));
        SplitAt(path, "schemas.", n + (".properties." + p));
        assert (n + (".properties." + p))[|n|] == '.';
    }
  }

  /** Different items have different paths. */
  lemma PathsTellApart(x: Item, y: Item)
    requires Plain(x.name) && Plain(y.name)
    ensures PathOf(x) == PathOf(y) <==> x == y
  {
    ReadItemPath(x);
    ReadItemPath(y);
    if PathOf(x) == PathOf(y) && x.PropertyItem? {
      SplitAt(PathOf(x), PropertyPrefix(x.name), x.prop);
      SplitAt(PathOf(y), PropertyPrefix(y.name), y.prop);
    }
  }

  // ---- The views ----

  predicate CountsFor(name: string, d: Diff) {
    d.itemType == PropertyType && ClassOfProperty(d.path) == Some(name)
  }

  function CountFor(diffs: seq<Diff>, name: string): nat {
    |Filter((d: Diff) => CountsFor(name, d), diffs)|
  }

  function Counted(counts: map<string, nat>, name: string): nat {
    if name in counts then counts[name] else 0
  }

  ghost predicate Counts(counts: map<string, nat>, diffs: seq<Diff>) {
    forall n :: Counted(counts, n) == CountFor(diffs, n)
  }

  lemma CountsNext(counts: map<string, nat>, diffs: seq<Diff>, d: Diff)
    requires Counts(counts, diffs)
    ensures
      var name := ClassOfProperty(d.path);
      Counts(if d.itemType == PropertyType && name.Some? then counts[name.value := Counted(counts, name.value) + 1]
        else counts, diffs + [d])
  {
    forall n ensures CountFor(diffs + [d], n) == Counted(counts, n) + if CountsFor(n, d) then 1 else 0 {
      FilterLast((x: Diff) => CountsFor(n, x), diffs, d);
      assert Counted(counts, n) == CountFor(diffs, n);
    }
  }

  method CountPropertyDiffs(diffs: seq<Diff>) returns (counts: map<string, nat>)
    ensures Counts(counts, diffs)
  {
    counts := map[];
    var i := 0;
    while i < |diffs|
      invariant 0 <= i <= |diffs| && Counts(counts, diffs[..i])
    {
      var d := diffs[i];
      CountsNext(counts, diffs[..i], d);
      assert diffs[..i + 1] == diffs[..i] + [d];
      if d.itemType == PropertyType {
        var name := ClassOfProperty(d.path);
        if name.Some? { counts := counts[name.value := Counted(counts, name.value) + 1]; }
      }
      i := i + 1;
    }
    assert diffs[..i] == diffs;
  }

  predicate IsClassDiff(name: string, d: Diff) {
    d.itemType == ClassType && ClassOfClass(d.path) == Some(name)
  }

  /** The last diff of a class among `diffs`. */
  function LastOf(diffs: seq<Diff>, name: string): Option<Diff> {
    if diffs == [] then None
    else if IsClassDiff(name, diffs[|diffs| - 1]) then Some(diffs[|diffs| - 1])
    else LastOf(diffs[..|diffs| - 1], name)
  }

  function Found(byName: map<string, Diff>, name: string): Option<Diff> {
    if name in byName then Some(byName[name]) else None
  }

  method ModifiedClasses(diffs: seq<Diff>) returns (byName: map<string, Diff>)
    ensures forall n :: Found(byName, n) == LastOf(diffs, n)
  {
    byName := map[];
    var i := 0;
    while i < |diffs|
      invariant 0 <= i <= |diffs|
      invariant forall n :: Found(byName, n) == LastOf(diffs[..i], n)
    {
      var d := diffs[i];
      assert diffs[..i + 1][..i] == diffs[..i];
      if d.itemType == ClassType {
        var name := ClassOfClass(d.path);
        if name.Some? { byName := byName[name.value := d]; }
      }
      i := i + 1;
    }
    assert diffs[..i] == diffs;
  }

  predicate Concerns(name: string, d: Diff) {
    || (d.itemType == ClassType && d.path == ClassPath(name))
    || (d.itemType == PropertyType && StartsWith(d.path, PropertyPrefix(name)))
  }

  function ChangeOrder(collate: TextOrder): (Diff, Diff) -> bool {
    (x: Diff, y: Diff) => if x.itemType != y.itemType then x.itemType == ClassType else collate(x.path, y.path)
  }

  function Changed(s: DiffSummary): seq<Diff> {
    s.added + s.removed + s.modified
  }

  function ClassChanges(collate: TextOrder, s: DiffSummary, name: string): seq<Diff> {
    Sort(ChangeOrder(collate), Filter((d: Diff) => Concerns(name, d), Changed(s)))
  }

  method AppendConcerned(name: string, bucket: seq<Diff>, out: seq<Diff>) returns (r: seq<Diff>)
    ensures r == out + Filter((d: Diff) => Concerns(name, d), bucket)
  {
    r := out;
    var i := 0;
    while i < |bucket|
      invariant 0 <= i <= |bucket|
      invariant r == out + Filter((d: Diff) => Concerns(name, d), bucket[..i])
    {
      var d := bucket[i];
      assert bucket[..i + 1] == bucket[..i] + [d];
      FilterLast((d: Diff) => Concerns(name, d), bucket[..i], d);
      if d.itemType == ClassType && d.path == ClassPath(name) {
        r := r + [d];
      } else if d.itemType == PropertyType && StartsWith(d.path, PropertyPrefix(name)) {
        r := r + [d];
      }
      i := i + 1;
    }
    assert bucket[..i] == bucket;
  }

  method GetClassChangeDiffs(collate: TextOrder, s: DiffSummary, name: string) returns (r: seq<Diff>)
    ensures r == ClassChanges(collate, s, name)
  {
    var out := AppendConcerned(name, s.added, []);
    out := AppendConcerned(name, s.removed, out);
    out := AppendConcerned(name, s.modified, out);
    ThreeBuckets((d: Diff) => Concerns(name, d), s);
    assert out == Filter((d: Diff) => Concerns(name, d), Changed(s));
    r := Sort(ChangeOrder(collate), out);
  }

  lemma ThreeBuckets(p: Diff -> bool, s: DiffSummary)
    ensures Filter(p, Changed(s)) == ([] + Filter(p, s.added)) + Filter(p, s.removed) + Filter(p, s.modified)
  {
    FilterAppend(p, s.added, s.removed);
    FilterAppend(p, s.added + s.removed, s.modified);
    assert [] + Filter(p, s.added) == Filter(p, s.added);
  }

  datatype ClassRow = ClassRow(
    name: string, status: Kind, propertyAdded: nat, propertyRemoved: nat, propertyModified: nat,
    classChanges: Option<seq<string>>)

  function StatusRow(
      name: string, in1: bool, in2: bool, added: nat, removed: nat, modified: nat, mod: Option<Diff>): ClassRow
  {
    if !in1 && in2 then ClassRow(name, Added, added, 0, 0, None)
    else if in1 && !in2 then ClassRow(name, Removed, 0, removed, 0, None)
    else
      ClassRow(
        name, if mod.Some? || added > 0 || removed > 0 || modified > 0 then Modified else Unchanged,
        added, removed, modified, if mod.Some? then Some(mod.value.changes) else None)
  }

  /** The row a summary gives for a name, by counting its buckets. */
  function RowOf(s: DiffSummary, a: Entries, b: Entries, name: string): ClassRow {
    StatusRow(name, name in a.at, name in b.at, CountFor(s.added, name), CountFor(s.removed, name),
      CountFor(s.modified, name),
              LastOf(s.modified, name))
  }

  method BuildClassLevelDiff(collate: TextOrder, a: Entries, b: Entries) returns (rows: Option<seq<ClassRow>>)
    ensures rows.Some? <==> Comparable(a, b, Items(a, b))
    ensures rows.Some? ==>
      var names := Sort(collate, AllKeys(a, b));
      && |rows.value| == |names|
      && forall i :: 0 <= i < |names| ==> rows.value[i] == RowOf(Bucketed(Diffs(a, b)), a, b, names[i])
  {
    var summary := CompareSchemas(a, b);
    if summary.None? { return None; }
    var out := ClassRows(summary.value, a, b, Sort(collate, AllKeys(a, b)));
    return Some(out);
  }

  method ClassRows(s: DiffSummary, a: Entries, b: Entries, names: seq<string>) returns (rows: seq<ClassRow>)
    ensures |rows| == |names| && forall i :: 0 <= i < |names| ==> rows[i] == RowOf(s, a, b, names[i])
  {
    var added := CountPropertyDiffs(s.added);
    var removed := CountPropertyDiffs(s.removed);
    var modified := CountPropertyDiffs(s.modified);
    var byName := ModifiedClasses(s.modified);
    rows := [];
    var i := 0;
    while i < |names|
      invariant 0 <= i <= |names| && |rows| == i
      invariant forall j :: 0 <= j < i ==> rows[j] == RowOf(s, a, b, names[j])
    {
      var n := names[i];
      assert Found(byName, n) == LastOf(s.modified, n);
      rows := rows + [StatusRow(
        n, n in a.at, n in b.at, Counted(added, n), Counted(removed, n), Counted(modified, n), Found(byName, n))];
      i := i + 1;
    }
  }

  // ---- The views agree ----

  lemma SizeOfSorted(p: Diff -> bool, before: (Diff, Diff) -> bool, xs: seq<Diff>)
    ensures |Filter(p, Sort(before, xs))| == |Filter(p, xs)|
  {
    SortPermutes(before, xs);
    FilterPermutes(p, Sort(before, xs), xs);
    assert |multiset(Filter(p, Sort(before, xs)))| == |multiset(Filter(p, xs))|;
  }

  predicate PropertyOfKind(kind: Kind, d: Diff) {
    d.itemType == PropertyType && d.kind == kind
  }

  ghost predicate KindsApart(s: DiffSummary) {
    && (forall d :: d in s.added ==> d.kind == Added)
    && (forall d :: d in s.removed ==> d.kind == Removed)
    && (forall d :: d in s.modified ==> d.kind == Modified)
  }

  lemma BucketsHoldTheirKind(diffs: seq<Diff>)
    ensures KindsApart(Bucketed(diffs))
  {
    FilterMembers((d: Diff) => d.kind == Added, diffs);
    FilterMembers((d: Diff) => d.kind == Removed, diffs);
    FilterMembers((d: Diff) => d.kind == Modified, diffs);
  }

  lemma OwnBucket(s: DiffSummary, name: string, kind: Kind, bucket: seq<Diff>, k: Kind)
    requires Plain(name) && forall d :: d in bucket ==> d.kind == k
    ensures
      |Filter((d: Diff) => Concerns(name, d) && PropertyOfKind(kind, d), bucket)|
        == if kind == k then CountFor(bucket, name) else 0
  {
    var both := (d: Diff) => Concerns(name, d) && PropertyOfKind(kind, d);
    forall d: Diff ensures d.itemType == PropertyType ==> (Concerns(name, d) <==> CountsFor(name, d)) {
      PrefixExact(name, d.path);
    }
    if kind == k {
      FilterAgree(both, (d: Diff) => CountsFor(name, d), bucket);
    } else {
      FilterSuffix(both, bucket, |bucket|);
    }
  }

  /** Each count of a row is the number of such rows in the class's own change list. */
  lemma CountsAgree(collate: TextOrder, s: DiffSummary, name: string, kind: Kind)
    requires Plain(name) && KindsApart(s) && kind != Unchanged
    ensures
      CountFor(Bucket(s, kind), name) == |Filter((d: Diff) => PropertyOfKind(kind, d), ClassChanges(collate, s, name))|
  {
    var concerns, ofKind := (d: Diff) => Concerns(name, d), (d: Diff) => PropertyOfKind(kind, d);
    var both := (d: Diff) => Concerns(name, d) && PropertyOfKind(kind, d);
    SizeOfSorted(ofKind, ChangeOrder(collate), Filter(concerns, Changed(s)));
    FilterTwice(concerns, ofKind, both, Changed(s));
    ThreeBuckets(both, s);
    OwnBucket(s, name, kind, s.added, Added);
    OwnBucket(s, name, kind, s.removed, Removed);
    OwnBucket(s, name, kind, s.modified, Modified);
  }

  lemma ChangesMembers(collate: TextOrder, s: DiffSummary, name: string, d: Diff)
    ensures
      d in ClassChanges(collate, s, name) <==> Concerns(name, d) && (d in s.added || d in s.removed || d in s.modified)
  {
    FilterMembers((x: Diff) => Concerns(name, x), Changed(s));
    SortMembers(ChangeOrder(collate), Filter((x: Diff) => Concerns(name, x), Changed(s)));
  }

  /** Where a diff in a bucket comes from, and that its path says so. */
  lemma BucketItem(a: Entries, b: Entries, kind: Kind, d: Diff, name: string) returns (item: Item)
    requires TidySchemas(a) && TidySchemas(b) && PlainNames(a) && PlainNames(b) && Plain(name)
    requires d in Bucket(Bucketed(Diffs(a, b)), kind)
    ensures Present(a, b, item) && d == ItemDiff(a, b, item) && d.kind == kind
    ensures Became(kind, TypeOf(item), ValueOf(a, item), ValueOf(b, item))
    ensures Concerns(name, d) <==> item.name == name
    ensures CountsFor(name, d) <==> item.PropertyItem? && item.name == name
    ensures IsClassDiff(name, d) <==> item == ClassItem(name)
  {
    Partition(a, b, kind, d);
    item :| Present(a, b, item) && Became(kind, TypeOf(item), ValueOf(a, item), ValueOf(b, item))
      && d == ItemDiff(a, b, item);
    DiffKind(PathOf(item), TypeOf(item), ValueOf(a, item), ValueOf(b, item), kind);
    ReadItemPath(item);
    PrefixExact(name, d.path);
  }

  lemma NoCount(a: Entries, b: Entries, kind: Kind, name: string)
    requires TidySchemas(a) && TidySchemas(b) && PlainNames(a) && PlainNames(b) && Plain(name)
    requires (kind != Added && name !in a.at) || (kind != Removed && name !in b.at)
    ensures CountFor(Bucket(Bucketed(Diffs(a, b)), kind), name) == 0
  {
    var bucket := Bucket(Bucketed(Diffs(a, b)), kind);
    forall i | 0 <= i < |bucket| ensures !CountsFor(name, bucket[i]) {
      var item := BucketItem(a, b, kind, bucket[i], name);
    }
    FilterSuffix((d: Diff) => CountsFor(name, d), bucket, |bucket|);
  }

  function ChangesOf(collate: TextOrder, a: Entries, b: Entries, name: string): seq<Diff> {
    ClassChanges(collate, Bucketed(Diffs(a, b)), name)
  }

  /** Each row's counts are those of the class's change list. */
  lemma RowCountsAgree(collate: TextOrder, a: Entries, b: Entries, name: string)
    requires TidySchemas(a) && TidySchemas(b) && PlainNames(a) && PlainNames(b)
    requires name in a.at || name in b.at
    ensures
      var row, changes := RowOf(Bucketed(Diffs(a, b)), a, b, name), ChangesOf(collate, a, b, name);
      && row.propertyAdded == |Filter((d: Diff) => PropertyOfKind(Added, d), changes)|
      && row.propertyRemoved == |Filter((d: Diff) => PropertyOfKind(Removed, d), changes)|
      && row.propertyModified == |Filter((d: Diff) => PropertyOfKind(Modified, d), changes)|
  {
    var s := Bucketed(Diffs(a, b));
    BucketsHoldTheirKind(Diffs(a, b));
    CountsAgree(collate, s, name, Added);
    CountsAgree(collate, s, name, Removed);
    CountsAgree(collate, s, name, Modified);
    if name !in a.at {
      NoCount(a, b, Removed, name);
      NoCount(a, b, Modified, name);
    } else if name !in b.at {
      NoCount(a, b, Added, name);
      NoCount(a, b, Modified, name);
    }
  }

  predicate ClassOfKind(kind: Kind, d: Diff) {
    d.itemType == ClassType && d.kind == kind
  }

  lemma ClassDiffPresent(a: Entries, b: Entries, collate: TextOrder, name: string, kind: Kind)
    requires
      TidySchemas(a) && TidySchemas(b) && PlainNames(a) && PlainNames(b) && (name in a.at || name in b.at)
      && kind != Unchanged
    ensures
      (exists d :: d in ChangesOf(collate, a, b, name) && ClassOfKind(kind, d))
      <==> Became(kind, ClassType, Member(a, name), Member(b, name))
    ensures
      forall d :: d in ChangesOf(collate, a, b, name) && ClassOfKind(kind, d) ==> d == ItemDiff(a, b, ClassItem(name))
  {
    var s := Bucketed(Diffs(a, b));
    BucketsHoldTheirKind(Diffs(a, b));
    forall d | d in ChangesOf(collate, a, b, name) && ClassOfKind(kind, d)
      ensures d == ItemDiff(a, b, ClassItem(name)) && Became(kind, ClassType, Member(a, name), Member(b, name))
    {
      ChangesMembers(collate, s, name, d);
      var item := BucketItem(a, b, kind, d, name);
    }
    if Became(kind, ClassType, Member(a, name), Member(b, name)) {
      var d := ItemDiff(a, b, ClassItem(name));
      assert Present(a, b, ClassItem(name));
      DiffKind(ClassPath(name), ClassType, Member(a, name), Member(b, name), kind);
      Partition(a, b, kind, d);
      ChangesMembers(collate, s, name, d);
      assert d in ChangesOf(collate, a, b, name) && ClassOfKind(kind, d);
    }
  }

  lemma {:induction false} LastOfExact(diffs: seq<Diff>, name: string)
    ensures LastOf(diffs, name).None? <==> forall d :: d in diffs ==> !IsClassDiff(name, d)
    ensures
      LastOf(diffs, name).Some? ==> LastOf(diffs, name).value in diffs && IsClassDiff(name, LastOf(diffs, name).value)
  {
    if diffs != [] {
      var init, last := diffs[..|diffs| - 1], diffs[|diffs| - 1];
      assert diffs == init + [last];
      LastOfExact(init, name);
    }
  }

  /** The class diff a row looks at is there exactly when the class itself was modified. */
  lemma ModifiedClassFound(a: Entries, b: Entries, name: string)
    requires TidySchemas(a) && TidySchemas(b) && PlainNames(a) && PlainNames(b) && (name in a.at || name in b.at)
    ensures
      LastOf(Bucketed(Diffs(a, b)).modified, name)
      == if Became(Modified, ClassType, Member(a, name), Member(b, name)) then Some(ItemDiff(a, b, ClassItem(name)))
        else None
  {
    var modified := Bucket(Bucketed(Diffs(a, b)), Modified);
    LastOfExact(modified, name);
    if LastOf(modified, name).Some? {
      var item := BucketItem(a, b, Modified, LastOf(modified, name).value, name);
    }
    if Became(Modified, ClassType, Member(a, name), Member(b, name)) {
      var d := ItemDiff(a, b, ClassItem(name));
      assert Present(a, b, ClassItem(name));
      Partition(a, b, Modified, d);
      ReadItemPath(ClassItem(name));
      assert d in modified && IsClassDiff(name, d);
    }
  }

  predicate NothingCounted(row: ClassRow) {
    row.propertyAdded == 0 && row.propertyRemoved == 0 && row.propertyModified == 0
  }

  lemma EmptyFilter(p: Diff -> bool, xs: seq<Diff>)
    ensures |Filter(p, xs)| == 0 <==> forall d :: d in xs ==> !p(d)
  {
    FilterMembers(p, xs);
    if |Filter(p, xs)| > 0 {
      assert Filter(p, xs)[0] in Filter(p, xs);
    }
  }

  /** Nothing is counted exactly when the change list holds no property. */
  lemma NothingCountedExact(collate: TextOrder, a: Entries, b: Entries, name: string)
    requires TidySchemas(a) && TidySchemas(b) && PlainNames(a) && PlainNames(b) && (name in a.at || name in b.at)
    ensures
      NothingCounted(RowOf(Bucketed(Diffs(a, b)), a, b, name))
      <==> forall d :: d in ChangesOf(collate, a, b, name) ==> d.itemType == ClassType
  {
    var s, changes := Bucketed(Diffs(a, b)), ChangesOf(collate, a, b, name);
    RowCountsAgree(collate, a, b, name);
    EmptyFilter((d: Diff) => PropertyOfKind(Added, d), changes);
    EmptyFilter((d: Diff) => PropertyOfKind(Removed, d), changes);
    EmptyFilter((d: Diff) => PropertyOfKind(Modified, d), changes);
    BucketsHoldTheirKind(Diffs(a, b));
    forall d | d in changes
      ensures
        d.itemType == ClassType || PropertyOfKind(Added, d) || PropertyOfKind(Removed, d) || PropertyOfKind(Modified, d)
      ensures d.kind != Unchanged
    {
      ChangesMembers(collate, s, name, d);
    }
  }

  /** Each row's status and class changes are what the class's change list says. */
  lemma RowStatusAgrees(collate: TextOrder, a: Entries, b: Entries, name: string)
    requires TidySchemas(a) && TidySchemas(b) && PlainNames(a) && PlainNames(b) && (name in a.at || name in b.at)
    ensures
      var row, changes := RowOf(Bucketed(Diffs(a, b)), a, b, name), ChangesOf(collate, a, b, name);
      && (row.status == Unchanged <==> changes == [])
      && (row.status == Added <==> exists d :: d in changes && ClassOfKind(Added, d))
      && (row.status == Removed <==> exists d :: d in changes && ClassOfKind(Removed, d))
      && (row.classChanges.Some? <==> exists d :: d in changes && ClassOfKind(Modified, d))
      && (forall d :: d in changes && ClassOfKind(Modified, d) ==> row.classChanges == Some(d.changes))
  {
    ClassDiffPresent(a, b, collate, name, Added);
    ClassDiffPresent(a, b, collate, name, Removed);
    ClassDiffPresent(a, b, collate, name, Modified);
    ModifiedClassFound(a, b, name);
    NothingCountedExact(collate, a, b, name);
    NoClassDiff(collate, a, b, name);
  }

  lemma NoClassDiff(collate: TextOrder, a: Entries, b: Entries, name: string)
    requires TidySchemas(a) && TidySchemas(b)
    ensures
      var changes := ChangesOf(collate, a, b, name);
      changes == [] <==>
        && (forall d :: d in changes ==> d.itemType == ClassType)
        && !(exists d :: d in changes && ClassOfKind(Added, d))
        && !(exists d :: d in changes && ClassOfKind(Removed, d))
        && !(exists d :: d in changes && ClassOfKind(Modified, d))
  {
    var changes := ChangesOf(collate, a, b, name);
    BucketsHoldTheirKind(Diffs(a, b));
    if changes != [] {
      assert changes[0] in changes;
      ChangesMembers(collate, Bucketed(Diffs(a, b)), name, changes[0]);
      assert ClassOfKind(Added, changes[0]) || ClassOfKind(Removed, changes[0]) || ClassOfKind(Modified, changes[0])
             || changes[0].itemType == PropertyType;
    }
  }

  // ---- The order of a class's changes ----

  lemma ChangeOrderIsOrder(collate: TextOrder)
    requires TotalOrder(collate)
    ensures WeakOrder(ChangeOrder(collate))
  {
    var before := ChangeOrder(collate);
    forall x: Diff, y: Diff, z: Diff
      ensures !before(x, x) && (before(x, y) && before(y, z) ==> before(x, z))
      ensures !before(x, y) && !before(y, z) ==> !before(x, z)
    {
      assert collate(x.path, y.path) && collate(y.path, z.path) ==> collate(x.path, z.path);
      assert !collate(x.path, y.path) && !collate(y.path, z.path) ==> !collate(x.path, z.path);
    }
  }

  /** The class's own change comes before those of its properties, and these go by path. */
  lemma ChangesAreOrdered(collate: TextOrder, s: DiffSummary, name: string, i: nat, j: nat)
    requires TotalOrder(collate) && i < j < |ClassChanges(collate, s, name)|
    ensures
      var x, y := ClassChanges(collate, s, name)[i], ClassChanges(collate, s, name)[j];
      && !(x.itemType == PropertyType && y.itemType == ClassType)
      && (x.itemType == y.itemType ==> !collate(y.path, x.path))
  {
    ChangeOrderIsOrder(collate);
    SortSorts(ChangeOrder(collate), Filter((d: Diff) => Concerns(name, d), Changed(s)));
    var x, y := ClassChanges(collate, s, name)[i], ClassChanges(collate, s, name)[j];
    assert !ChangeOrder(collate)(y, x);
  }
}
