/**
 * The diff of two sets of OpenAPI component schemas, and its per-class views. Objects list their keys
 * in order; class names are free of dots where a view has to read them back from a path.
 */
module SchemaDiff {
  import opened Prelude
  import opened Sorting
  import opened Filters
  import opened StableJson

  // ---- Objects ----

  /** The members of an object, in key order. */
  datatype Entries = Entries(keys: seq<string>, at: map<string, JsValue>)

  const NOTHING := Entries([], map[])

  /** `value || {}` where an object is expected. */
  function EntriesOf(v: Option<JsValue>): Entries {
    if v.Some? && v.value.JObj? then Entries(v.value.keys, v.value.at) else NOTHING
  }

  function Member(e: Entries, key: string): Option<JsValue> {
    if key in e.at then Some(e.at[key]) else None
  }

  function FieldOf(v: JsValue, key: string): Option<JsValue> {
    if v.JObj? && key in v.at then Some(v.at[key]) else None
  }

  /** `spec?.components?.schemas || {}`. */
  function Schemas(spec: JsValue): Entries {
    var components := FieldOf(spec, "components");
    if components.None? then NOTHING else EntriesOf(FieldOf(components.value, "schemas"))
  }

  function Properties(schema: Option<JsValue>): Entries {
    if schema.None? then NOTHING else EntriesOf(FieldOf(schema.value, "properties"))
  }

  ghost predicate Tidy(e: Entries) {
    Distinct(e.keys) && forall k :: k in e.keys <==> k in e.at
  }

  /** Keys are listed once each, here and in the properties of each class. */
  ghost predicate TidySchemas(s: Entries) {
    Tidy(s) && forall n :: Tidy(Properties(Member(s, n)))
  }

  lemma FieldIsWellFormed(v: JsValue, key: string)
    requires WellFormed(v)
    ensures FieldOf(v, key).Some? ==> WellFormed(FieldOf(v, key).value)
  {}

  lemma EntriesAreTidy(v: Option<JsValue>)
    requires v.Some? ==> WellFormed(v.value)
    ensures Tidy(EntriesOf(v))
    ensures forall k :: k in EntriesOf(v).at ==> WellFormed(EntriesOf(v).at[k])
  {}

  lemma WellFormedIsTidy(spec: JsValue)
    requires WellFormed(spec)
    ensures TidySchemas(Schemas(spec))
  {
    var components := FieldOf(spec, "components");
    FieldIsWellFormed(spec, "components");
    if components.Some? {
      FieldIsWellFormed(components.value, "schemas");
      EntriesAreTidy(FieldOf(components.value, "schemas"));
    }
    var s := Schemas(spec);
    forall n ensures Tidy(Properties(Member(s, n))) {
      if n in s.at {
        FieldIsWellFormed(s.at[n], "properties");
        EntriesAreTidy(FieldOf(s.at[n], "properties"));
      }
    }
  }

  // ---- Comparing two values key by key ----

  /** How the code compares one tracked key: by `!==`, by JSON text, or by text with `|| []`. */
  datatype Mode = ByIdentity | ByText | ByTextOrEmpty

  datatype Tracked = Tracked(key: string, mode: Mode)

  predicate Primitive(v: JsValue) {
    !v.JArr? && !v.JObj?
  }

  predicate Falsy(v: Option<JsValue>) {
    v.None? || v.value == JNull || v.value == JBool(false) || v.value == JInt(0) || v.value == JStr("")
  }

  function OrEmpty(v: Option<JsValue>): JsValue {
    if Falsy(v) then JArr([]) else v.value
  }

  /** Two separately parsed arrays or objects are never identical. */
  predicate Differs(mode: Mode, x: Option<JsValue>, y: Option<JsValue>) {
    match mode
    case ByIdentity => x != y || (x.Some? && !Primitive(x.value))
    case ByText => x != y
    case ByTextOrEmpty => OrEmpty(x) != OrEmpty(y)
  }

  const SCHEMA_TABLE: seq<Tracked> := [
    Tracked("description", ByIdentity), Tracked("type", ByIdentity), Tracked("required", ByTextOrEmpty),
    Tracked("allOf", ByText), Tracked("anyOf", ByText), Tracked("oneOf", ByText)]

  const PROPERTY_TABLE: seq<Tracked> := [
    Tracked("type", ByText), Tracked("description", ByIdentity), Tracked("format", ByIdentity),
    Tracked("$ref", ByIdentity),
    Tracked("enum", ByText), Tracked("items", ByText), Tracked("default", ByText), Tracked("nullable", ByIdentity),
    Tracked("readOnly", ByIdentity), Tracked("writeOnly", ByIdentity), Tracked("deprecated", ByIdentity),
    Tracked("example", ByText), Tracked("title", ByIdentity),
    Tracked("minimum", ByText), Tracked("maximum", ByText), Tracked("exclusiveMinimum", ByText),
    Tracked("exclusiveMaximum", ByText), Tracked("minLength", ByText), Tracked("maxLength", ByText),
    Tracked("pattern", ByText), Tracked("minItems", ByText), Tracked("maxItems", ByText),
    Tracked("multipleOf", ByText), Tracked("uniqueItems", ByText)]

  predicate Changed(t: Tracked, a: JsValue, b: JsValue) {
    Differs(t.mode, FieldOf(a, t.key), FieldOf(b, t.key))
  }

  function Changes(table: seq<Tracked>, a: JsValue, b: JsValue): seq<string> {
    if table == [] then []
    else
      Changes(table[..|table| - 1], a, b)
      + if Changed(table[|table| - 1], a, b) then [table[|table| - 1].key] else []
  }

  method CompareObjects(table: seq<Tracked>, a: JsValue, b: JsValue) returns (changes: seq<string>)
    ensures changes == Changes(table, a, b)
  {
    changes := [];
    var i := 0;
    while i < |table|
      invariant 0 <= i <= |table| && changes == Changes(table[..i], a, b)
    {
      if Changed(table[i], a, b) { changes := changes + [table[i].key]; }
      assert table[..i + 1][..i] == table[..i];
      i := i + 1;
    }
    assert table[..i] == table;
  }

  predicate EqualIn(t: Tracked, a: JsValue, b: JsValue) {
    var x, y := FieldOf(a, t.key), FieldOf(b, t.key);
    if t.mode == ByTextOrEmpty then OrEmpty(x) == OrEmpty(y) else x == y
  }

  /** Equal in every tracked key, as values; a missing list counts as an empty one where the code says so. */
  ghost predicate Same(table: seq<Tracked>, a: JsValue, b: JsValue) {
    forall i :: 0 <= i < |table| ==> EqualIn(table[i], a, b)
  }

  predicate ComparesByIdentity(t: Tracked, v: JsValue) {
    t.mode == ByIdentity && FieldOf(v, t.key).Some? && !Primitive(FieldOf(v, t.key).value)
  }

  /** No key that the code compares by `!==` holds an array or an object. */
  ghost predicate NoReferences(table: seq<Tracked>, v: JsValue) {
    forall i :: 0 <= i < |table| ==> !ComparesByIdentity(table[i], v)
  }

  lemma ChangedExact(t: Tracked, a: JsValue, b: JsValue)
    ensures !Changed(t, a, b) <==> EqualIn(t, a, b) && !ComparesByIdentity(t, a)
  {}

  /**
   * Nothing is reported exactly when the two are equal in every tracked key and none of the keys
   * compared by `!==` holds an array or an object, which the code takes for changed however equal.
   */
  lemma {:induction false} NoChanges(table: seq<Tracked>, a: JsValue, b: JsValue)
    ensures Changes(table, a, b) == [] <==> Same(table, a, b) && NoReferences(table, a)
  {
    if table != [] {
      var init, last := table[..|table| - 1], table[|table| - 1];
      assert table == init + [last];
      NoChanges(init, a, b);
      ChangedExact(last, a, b);
      SameNext(init, last, a, b);
    }
  }

  lemma SameNext(init: seq<Tracked>, last: Tracked, a: JsValue, b: JsValue)
    ensures Same(init + [last], a, b) <==> Same(init, a, b) && EqualIn(last, a, b)
    ensures NoReferences(init + [last], a) <==> NoReferences(init, a) && !ComparesByIdentity(last, a)
  {
    var table := init + [last];
    assert forall i :: 0 <= i < |init| ==> init[i] == table[i];
    assert table[|init|] == last;
  }

  lemma {:induction false} ChangesSwap(table: seq<Tracked>, a: JsValue, b: JsValue)
    ensures Changes(table, a, b) == Changes(table, b, a)
  {
    if table != [] { ChangesSwap(table[..|table| - 1], a, b); }
  }

  // ---- The diff ----

  datatype Kind = Added | Removed | Modified | Unchanged

  datatype ItemType = ClassType | PropertyType

  datatype Diff = Diff(
    kind: Kind, path: string, itemType: ItemType, oldV: Option<JsValue>, newV: Option<JsValue>, changes: seq<string>)

  datatype DiffSummary = DiffSummary(added: seq<Diff>, removed: seq<Diff>, modified: seq<Diff>, same: seq<Diff>)

  /** A class, or a property of a class. */
  datatype Item = ClassItem(name: string) | PropertyItem(name: string, prop: string)

  function ClassPath(name: string): string {
    "schemas." + name
  }

  function PropertyPrefix(name: string): string {
    ClassPath(name) + ".properties."
  }

  function PathOf(item: Item): string {
    match item
    case ClassItem(n) => ClassPath(n)
    case PropertyItem(n, p) => PropertyPrefix(n) + p
  }

  function ValueOf(s: Entries, item: Item): Option<JsValue> {
    match item
    case ClassItem(n) => Member(s, n)
    case PropertyItem(n, p) => Member(Properties(Member(s, n)), p)
  }

  function TypeOf(item: Item): ItemType {
    if item.ClassItem? then ClassType else PropertyType
  }

  function TableOf(t: ItemType): seq<Tracked> {
    if t == ClassType then SCHEMA_TABLE else PROPERTY_TABLE
  }

  function DiffOf(path: string, t: ItemType, oldV: Option<JsValue>, newV: Option<JsValue>): Diff {
    if oldV.None? then Diff(Added, path, t, None, newV, [])
    else if newV.None? then Diff(Removed, path, t, oldV, None, [])
    else
      var changes := Changes(TableOf(t), oldV.value, newV.value);
      Diff(if changes != [] then Modified else Unchanged, path, t, oldV, newV, changes)
  }

  function ItemDiff(a: Entries, b: Entries, item: Item): Diff {
    DiffOf(PathOf(item), TypeOf(item), ValueOf(a, item), ValueOf(b, item))
  }

  /** `new Set([...keys of a, ...keys of b])`. */
  function AllKeys(a: Entries, b: Entries): seq<string> {
    a.keys + Filter((k: string) => k !in a.at, b.keys)
  }

  function PropertyKeys(a: Entries, b: Entries, name: string): seq<string> {
    AllKeys(Properties(Member(a, name)), Properties(Member(b, name)))
  }

  function PropertyItems(name: string, props: seq<string>): seq<Item> {
    seq(|props|, i requires 0 <= i < |props| => PropertyItem(name, props[i]))
  }

  function ItemsOf(a: Entries, b: Entries, names: seq<string>): seq<Item> {
    if names == [] then []
    else
      var n := names[|names| - 1];
      ItemsOf(a, b, names[..|names| - 1]) + ([ClassItem(n)] + PropertyItems(n, PropertyKeys(a, b, n)))
  }

  function DiffsOf(a: Entries, b: Entries, items: seq<Item>): seq<Diff> {
    seq(|items|, i requires 0 <= i < |items| => ItemDiff(a, b, items[i]))
  }

  function Items(a: Entries, b: Entries): seq<Item> {
    ItemsOf(a, b, AllKeys(a, b))
  }

  function Diffs(a: Entries, b: Entries): seq<Diff> {
    DiffsOf(a, b, Items(a, b))
  }

  function OfKind(kind: Kind, diffs: seq<Diff>): seq<Diff> {
    Filter((d: Diff) => d.kind == kind, diffs)
  }

  function Bucketed(diffs: seq<Diff>): DiffSummary {
    DiffSummary(OfKind(Added, diffs), OfKind(Removed, diffs), OfKind(Modified, diffs), OfKind(Unchanged, diffs))
  }

  /** Reading a field of null throws. */
  predicate Throws(oldV: Option<JsValue>, newV: Option<JsValue>) {
    oldV.Some? && newV.Some? && (oldV.value == JNull || newV.value == JNull)
  }

  ghost predicate Comparable(a: Entries, b: Entries, items: seq<Item>) {
    forall i :: 0 <= i < |items| ==> !Throws(ValueOf(a, items[i]), ValueOf(b, items[i]))
  }

  method CompareItem(path: string, t: ItemType, oldV: Option<JsValue>, newV: Option<JsValue>) returns (r: Option<Diff>)
    ensures r == if Throws(oldV, newV) then None else Some(DiffOf(path, t, oldV, newV))
  {
    if oldV.None? {
      return Some(Diff(Added, path, t, None, newV, []));
    } else if newV.None? {
      return Some(Diff(Removed, path, t, oldV, None, []));
    }
    if oldV.value == JNull || newV.value == JNull {
      return None;
    }
    var changes := CompareObjects(TableOf(t), oldV.value, newV.value);
    return Some(Diff(if |changes| > 0 then Modified else Unchanged, path, t, oldV, newV, changes));
  }

  /** The rows so far are those of these items, and none of them threw. */
  ghost predicate Collected(a: Entries, b: Entries, items: seq<Item>, diffs: seq<Diff>) {
    diffs == DiffsOf(a, b, items) && Comparable(a, b, items)
  }

  lemma OneMoreItem(a: Entries, b: Entries, items: seq<Item>, item: Item, diffs: seq<Diff>)
    requires Collected(a, b, items, diffs)
    ensures Throws(ValueOf(a, item), ValueOf(b, item)) ==> !Comparable(a, b, items + [item])
    ensures
      !Throws(ValueOf(a, item), ValueOf(b, item)) ==> Collected(a, b, items + [item], diffs + [ItemDiff(a, b, item)])
  {
    assert forall i :: 0 <= i < |items| ==> (items + [item])[i] == items[i];
    assert (items + [item])[|items|] == item;
  }

  lemma ComparablePrefix(a: Entries, b: Entries, items: seq<Item>, more: seq<Item>)
    ensures Comparable(a, b, items + more) ==> Comparable(a, b, items)
  {
    assert forall i :: 0 <= i < |items| ==> (items + more)[i] == items[i];
  }

  lemma UpToNext(first: seq<Item>, all: seq<Item>, i: nat)
    requires i < |all|
    ensures (first + all[..i]) + [all[i]] == first + all[..i + 1]
    ensures (first + all[..i + 1]) + all[i + 1..] == first + all
  {}

  function ClassItems(a: Entries, b: Entries, name: string): seq<Item> {
    [ClassItem(name)] + PropertyItems(name, PropertyKeys(a, b, name))
  }

  /** The rows of one class: the class itself, then its properties from either side. */
  method CompareClass(
      a: Entries, b: Entries, name: string, ghost before: seq<Item>, diffs: seq<Diff>) returns (r: Option<seq<Diff>>)
    requires Collected(a, b, before, diffs)
    ensures r.Some? <==> Comparable(a, b, before + ClassItems(a, b, name))
    ensures r.Some? ==> Collected(a, b, before + ClassItems(a, b, name), r.value)
  {
    ghost var first := before + [ClassItem(name)];
    Regroup(before, [ClassItem(name)], PropertyItems(name, PropertyKeys(a, b, name)));
    var row := CompareItem(ClassPath(name), ClassType, Member(a, name), Member(b, name));
    OneMoreItem(a, b, before, ClassItem(name), diffs);
    if row.None? {
      ComparablePrefix(a, b, first, PropertyItems(name, PropertyKeys(a, b, name)));
      return None;
    }
    r := CompareProperties(a, b, name, first, diffs + [row.value]);
  }

  method CompareProperties(
      a: Entries, b: Entries, name: string, ghost first: seq<Item>, diffs: seq<Diff>) returns (r: Option<seq<Diff>>)
    requires Collected(a, b, first, diffs)
    ensures r.Some? <==> Comparable(a, b, first + PropertyItems(name, PropertyKeys(a, b, name)))
    ensures r.Some? ==> Collected(a, b, first + PropertyItems(name, PropertyKeys(a, b, name)), r.value)
  {
    var props := PropertyKeys(a, b, name);
    var props1, props2 := Properties(Member(a, name)), Properties(Member(b, name));
    ghost var all := PropertyItems(name, props);
    var out := diffs;
    var i := 0;
    assert first + all[..0] == first;
    while i < |props|
      invariant 0 <= i <= |props|
      invariant Collected(a, b, first + all[..i], out)
    {
      var row := CompareItem(PropertyPrefix(name) + props[i], PropertyType, Member(props1, props[i]),
        Member(props2, props[i]));
      OneMoreItem(a, b, first + all[..i], all[i], out);
      UpToNext(first, all, i);
      if row.None? {
        ComparablePrefix(a, b, first + all[..i + 1], all[i + 1..]);
        return None;
      }
      out := out + [row.value];
      i := i + 1;
    }
    assert all[..i] == all;
    return Some(out);
  }

  method CompareSchemas(a: Entries, b: Entries) returns (r: Option<DiffSummary>)
    ensures r.Some? <==> Comparable(a, b, Items(a, b))
    ensures r.Some? ==> r.value == Bucketed(Diffs(a, b))
  {
    var names := AllKeys(a, b);
    var diffs: seq<Diff> := [];
    var i := 0;
    while i < |names|
      invariant 0 <= i <= |names|
      invariant Collected(a, b, ItemsOf(a, b, names[..i]), diffs)
    {
      ItemsNext(a, b, names, i);
      var rows := CompareClass(a, b, names[i], ItemsOf(a, b, names[..i]), diffs);
      if rows.None? {
        ItemsPrefix(a, b, names, i + 1);
        return None;
      }
      diffs := rows.value;
      i := i + 1;
    }
    assert names[..i] == names;
    return Some(Bucketed(diffs));
  }

  lemma ItemsNext(a: Entries, b: Entries, names: seq<string>, i: nat)
    requires i < |names|
    ensures ItemsOf(a, b, names[..i + 1]) == ItemsOf(a, b, names[..i]) + ClassItems(a, b, names[i])
  {
    assert names[..i + 1][..i] == names[..i];
  }

  lemma {:induction false} ItemsPrefix(a: Entries, b: Entries, names: seq<string>, i: nat)
    requires i <= |names| && !Comparable(a, b, ItemsOf(a, b, names[..i]))
    ensures !Comparable(a, b, ItemsOf(a, b, names))
    decreases |names| - i
  {
    if i == |names| {
      assert names[..i] == names;
    } else {
      ItemsNext(a, b, names, i);
      ComparablePrefix(a, b, ItemsOf(a, b, names[..i]), ClassItems(a, b, names[i]));
      ItemsPrefix(a, b, names, i + 1);
    }
  }

  // ---- Every item is in one bucket ----

  /** The classes and properties of either side. */
  ghost predicate Present(a: Entries, b: Entries, item: Item) {
    ValueOf(a, item).Some? || ValueOf(b, item).Some?
  }

  lemma DistinctAppend<T>(xs: seq<T>, ys: seq<T>)
    requires Distinct(xs) && Distinct(ys) && forall i, j :: 0 <= i < |xs| && 0 <= j < |ys| ==> xs[i] != ys[j]
    ensures Distinct(xs + ys)
  {}

  lemma AllKeysExact(a: Entries, b: Entries)
    requires Tidy(a) && Tidy(b)
    ensures Distinct(AllKeys(a, b)) && forall k :: k in AllKeys(a, b) <==> Member(a, k).Some? || Member(b, k).Some?
  {
    FilterMembers((k: string) => k !in a.at, b.keys);
    FilterDistinct((k: string) => k !in a.at, b.keys);
    var more := Filter((k: string) => k !in a.at, b.keys);
    forall i, j | 0 <= i < |a.keys| && 0 <= j < |more| ensures a.keys[i] != more[j] {
      assert a.keys[i] in a.keys && more[j] in more;
    }
    DistinctAppend(a.keys, more);
  }

  lemma PropertyItemsExact(name: string, props: seq<string>, item: Item)
    requires Distinct(props)
    ensures Distinct(PropertyItems(name, props))
    ensures item in PropertyItems(name, props) <==> item.PropertyItem? && item.name == name && item.prop in props
  {
    var items := PropertyItems(name, props);
    if item.PropertyItem? && item.name == name && item.prop in props {
      var i :| 0 <= i < |props| && props[i] == item.prop;
      assert items[i] == item;
    }
  }

  lemma ClassItemsExact(a: Entries, b: Entries, name: string, item: Item)
    requires TidySchemas(a) && TidySchemas(b) && (Member(a, name).Some? || Member(b, name).Some?)
    ensures Distinct(ClassItems(a, b, name))
    ensures item in ClassItems(a, b, name) <==> item.name == name && Present(a, b, item)
  {
    AllKeysExact(Properties(Member(a, name)), Properties(Member(b, name)));
    PropertyItemsExact(name, PropertyKeys(a, b, name), item);
  }

  lemma {:induction false} ItemsOfExact(a: Entries, b: Entries, names: seq<string>, item: Item)
    requires TidySchemas(a) && TidySchemas(b) && Distinct(names)
    requires forall n :: n in names ==> Member(a, n).Some? || Member(b, n).Some?
    ensures item in ItemsOf(a, b, names) <==> item.name in names && Present(a, b, item)
  {
    if names != [] {
      var init, last := names[..|names| - 1], names[|names| - 1];
      assert names == init + [last];
      ItemsOfExact(a, b, init, item);
      ClassItemsExact(a, b, last, item);
    }
  }

  lemma {:induction false} ItemsOfDistinct(a: Entries, b: Entries, names: seq<string>)
    requires TidySchemas(a) && TidySchemas(b) && Distinct(names)
    requires forall n :: n in names ==> Member(a, n).Some? || Member(b, n).Some?
    ensures Distinct(ItemsOf(a, b, names))
  {
    if names != [] {
      var init, last := names[..|names| - 1], names[|names| - 1];
      ItemsOfDistinct(a, b, init);
      ClassItemsExact(a, b, last, ClassItem(last));
      var before, these := ItemsOf(a, b, init), ClassItems(a, b, last);
      forall i, j | 0 <= i < |before| && 0 <= j < |these| ensures before[i] != these[j] {
        ItemsOfExact(a, b, init, before[i]);
        ClassItemsExact(a, b, last, these[j]);
        assert before[i] in before && these[j] in these;
      }
      DistinctAppend(before, these);
    }
  }

  /** The items compared are exactly those of either side, once each. */
  lemma ItemsExact(a: Entries, b: Entries)
    requires TidySchemas(a) && TidySchemas(b)
    ensures Distinct(Items(a, b)) && forall item :: item in Items(a, b) <==> Present(a, b, item)
  {
    AllKeysExact(a, b);
    ItemsOfDistinct(a, b, AllKeys(a, b));
    forall item ensures item in Items(a, b) <==> Present(a, b, item) {
      ItemsOfExact(a, b, AllKeys(a, b), item);
    }
  }

  lemma DiffsExact(a: Entries, b: Entries, d: Diff)
    requires TidySchemas(a) && TidySchemas(b)
    ensures d in Diffs(a, b) <==> exists item :: Present(a, b, item) && d == ItemDiff(a, b, item)
  {
    ItemsExact(a, b);
    var items := Items(a, b);
    if item :| Present(a, b, item) && d == ItemDiff(a, b, item) {
      assert item in items;
      var i :| 0 <= i < |items| && items[i] == item;
      assert Diffs(a, b)[i] == d;
    }
    if d in Diffs(a, b) {
      var i :| 0 <= i < |items| && Diffs(a, b)[i] == d;
      assert items[i] in items;
    }
  }

  /** Equal in every tracked key, with nothing in it that the code compares by reference. */
  ghost predicate Unmarked(t: ItemType, x: JsValue, y: JsValue) {
    Same(TableOf(t), x, y) && NoReferences(TableOf(t), x)
  }

  /** What became of an item, by its two values alone. */
  ghost predicate Became(kind: Kind, t: ItemType, x: Option<JsValue>, y: Option<JsValue>) {
    match kind
    case Added => x.None? && y.Some?
    case Removed => x.Some? && y.None?
    case Unchanged => x.Some? && y.Some? && Unmarked(t, x.value, y.value)
    case Modified => x.Some? && y.Some? && !Unmarked(t, x.value, y.value)
  }

  lemma DiffKind(path: string, t: ItemType, x: Option<JsValue>, y: Option<JsValue>, kind: Kind)
    requires x.Some? || y.Some?
    ensures DiffOf(path, t, x, y).kind == kind <==> Became(kind, t, x, y)
  {
    if x.Some? && y.Some? { NoChanges(TableOf(t), x.value, y.value); }
  }

  function Bucket(s: DiffSummary, kind: Kind): seq<Diff> {
    match kind
    case Added => s.added
    case Removed => s.removed
    case Modified => s.modified
    case Unchanged => s.same
  }

  /**
   * Each class and property of either side is in exactly one bucket: the one that says what became of
   * it, with its own path and values. Nothing else is in any bucket.
   */
  lemma Partition(a: Entries, b: Entries, kind: Kind, d: Diff)
    requires TidySchemas(a) && TidySchemas(b)
    ensures
      d in Bucket(Bucketed(Diffs(a, b)), kind) <==>
        exists item ::
          Present(a, b, item) && Became(kind, TypeOf(item), ValueOf(a, item), ValueOf(b, item))
          && d == ItemDiff(a, b, item)
  {
    FilterMembers((x: Diff) => x.kind == kind, Diffs(a, b));
    DiffsExact(a, b, d);
    forall item | Present(a, b, item)
      ensures ItemDiff(a, b, item).kind == kind <==> Became(kind, TypeOf(item), ValueOf(a, item), ValueOf(b, item))
    {
      DiffKind(PathOf(item), TypeOf(item), ValueOf(a, item), ValueOf(b, item), kind);
    }
  }

  // ---- Swapping the sides ----

  function FlipKind(kind: Kind): Kind {
    match kind
    case Added => Removed
    case Removed => Added
    case _ => kind
  }

  function Flip(d: Diff): Diff {
    Diff(FlipKind(d.kind), d.path, d.itemType, d.newV, d.oldV, d.changes)
  }

  lemma FlippedItem(a: Entries, b: Entries, item: Item)
    requires Present(a, b, item)
    ensures ItemDiff(b, a, item) == Flip(ItemDiff(a, b, item))
  {
    var x, y := ValueOf(a, item), ValueOf(b, item);
    if x.Some? && y.Some? { ChangesSwap(TableOf(TypeOf(item)), x.value, y.value); }
  }

  lemma FlippedDiff(a: Entries, b: Entries, d: Diff)
    requires TidySchemas(a) && TidySchemas(b) && d in Diffs(a, b)
    ensures Flip(d) in Diffs(b, a)
  {
    DiffsExact(a, b, d);
    var item :| Present(a, b, item) && d == ItemDiff(a, b, item);
    FlippedItem(a, b, item);
    assert Present(b, a, item);
    DiffsExact(b, a, Flip(d));
  }

  lemma InBucket(a: Entries, b: Entries, kind: Kind, d: Diff)
    ensures d in Bucket(Bucketed(Diffs(a, b)), kind) <==> d in Diffs(a, b) && d.kind == kind
  {
    FilterMembers((x: Diff) => x.kind == kind, Diffs(a, b));
  }

  /** Swapping the inputs swaps added with removed, and keeps modified paths and their change lists. */
  lemma Duality(a: Entries, b: Entries, kind: Kind, d: Diff)
    requires TidySchemas(a) && TidySchemas(b)
    ensures d in Bucket(Bucketed(Diffs(a, b)), kind) <==> Flip(d) in Bucket(Bucketed(Diffs(b, a)), FlipKind(kind))
  {
    InBucket(a, b, kind, d);
    InBucket(b, a, FlipKind(kind), Flip(d));
    if d in Diffs(a, b) { FlippedDiff(a, b, d); }
    if Flip(d) in Diffs(b, a) { FlippedDiff(b, a, Flip(d)); }
    assert Flip(Flip(d)) == d;
  }

  // ---- A document against itself ----

  lemma SameAsItself(table: seq<Tracked>, v: JsValue)
    ensures Same(table, v, v)
  {}

  /** A document compared with an equal one shows exactly the items with something compared by reference. */
  lemma SelfDiffExact(a: Entries, d: Diff)
    requires TidySchemas(a)
    ensures
      d in Bucketed(Diffs(a, a)).modified <==>
        exists item :: ValueOf(a, item).Some? && !NoReferences(TableOf(TypeOf(item)), ValueOf(a, item).value)
                       && d == ItemDiff(a, a, item)
  {
    Partition(a, a, Modified, d);
    forall item | ValueOf(a, item).Some?
      ensures Same(TableOf(TypeOf(item)), ValueOf(a, item).value, ValueOf(a, item).value)
    {
      SameAsItself(TableOf(TypeOf(item)), ValueOf(a, item).value);
    }
  }

  /** So a class whose type is a list, as OpenAPI 3.1 allows, is shown as modified against its own copy. */
  lemma ListTypeIsModified(a: Entries, name: string, items: seq<JsValue>)
    requires TidySchemas(a) && Member(a, name).Some? && FieldOf(Member(a, name).value, "type") == Some(JArr(items))
    ensures ItemDiff(a, a, ClassItem(name)) in Bucketed(Diffs(a, a)).modified
  {
    assert SCHEMA_TABLE[1] == Tracked("type", ByIdentity);
    assert ComparesByIdentity(SCHEMA_TABLE[1], Member(a, name).value);
    SelfDiffExact(a, ItemDiff(a, a, ClassItem(name)));
  }

  lemma ListTypeExists()
    ensures
      var items := [JStr("object"), JStr("null")];
      var a := Entries(["Order"], map["Order" := JObj(["type"], map["type" := JArr(items)])]);
      TidySchemas(a) && FieldOf(Member(a, "Order").value, "type") == Some(JArr(items))
  {}
}
