/**
 * What each kind of change comes to in the diff, the document and the merge gate, with keys, paths and
 * categories written out.
 */
module ChangeKinds {
  import opened Prelude
  import opened Sorting
  import opened Filters
  import opened StableJson
  import opened SchemaDiff
  import opened BreakingChanges

  // ---- Which changes are reported ----

  /** Different values, or an array or object that is compared by reference. */
  predicate RefDiffers(a: JsValue, b: JsValue, key: string) {
    var x := FieldOf(a, key);
    x != FieldOf(b, key) || (x.Some? && (x.value.JArr? || x.value.JObj?))
  }

  predicate TextDiffers(a: JsValue, b: JsValue, key: string) {
    FieldOf(a, key) != FieldOf(b, key)
  }

  /** A list that is missing, empty or falsy. */
  predicate NoList(v: Option<JsValue>) {
    match v
    case None => true
    case Some(JNull) => true
    case Some(JBool(b)) => !b
    case Some(JInt(n)) => n == 0
    case Some(JStr(s)) => s == ""
    case Some(JArr(items)) => items == []
    case Some(_) => false
  }

  predicate ListDiffers(a: JsValue, b: JsValue, key: string) {
    var x, y := FieldOf(a, key), FieldOf(b, key);
    !(NoList(x) && NoList(y)) && x != y
  }

  lemma {:induction false} ChangesMembers(table: seq<Tracked>, a: JsValue, b: JsValue, key: string)
    ensures
      key in Changes(table, a, b)
      <==> exists i :: 0 <= i < |table| && table[i].key == key && Changed(table[i], a, b)
  {
    if table != [] {
      var init, last := table[..|table| - 1], table[|table| - 1];
      assert forall i :: 0 <= i < |init| ==> init[i] == table[i];
      ChangesMembers(init, a, b, key);
    }
  }

  predicate IsHardClassKey(key: string) {
    key == "type" || key == "required" || key == "allOf" || key == "anyOf" || key == "oneOf"
  }

  /** Is a change of a class in this key reported? */
  predicate ClassKeyChanged(a: JsValue, b: JsValue, key: string) {
    if key == "description" || key == "type" then RefDiffers(a, b, key)
    else if key == "required" then ListDiffers(a, b, key)
    else (key == "allOf" || key == "anyOf" || key == "oneOf") && TextDiffers(a, b, key)
  }

  lemma ListDiffersExact(a: JsValue, b: JsValue, key: string)
    ensures Changed(Tracked(key, ByTextOrEmpty), a, b) <==> ListDiffers(a, b, key)
  {}

  lemma SchemaTableIs()
    ensures
      SCHEMA_TABLE ==
        [Tracked("description", ByIdentity), Tracked("type", ByIdentity), Tracked("required", ByTextOrEmpty),
         Tracked("allOf", ByText), Tracked("anyOf", ByText), Tracked("oneOf", ByText)]
  {}

  /** A class's changes, key by key. */
  lemma ClassChangesExact(a: JsValue, b: JsValue, key: string)
    ensures key in Changes(SCHEMA_TABLE, a, b) <==> ClassKeyChanged(a, b, key)
  {
    SchemaTableIs();
    ChangesMembers(SCHEMA_TABLE, a, b, key);
    ListDiffersExact(a, b, key);
    var t := SCHEMA_TABLE;
    assert t[0].key == "description" && t[1].key == "type" && t[2].key == "required";
    assert t[3].key == "allOf" && t[4].key == "anyOf" && t[5].key == "oneOf";
  }

  predicate IsConstraint(key: string) {
    || key == "minimum" || key == "maximum" || key == "exclusiveMinimum" || key == "exclusiveMaximum"
    || key == "minLength" || key == "maxLength" || key == "pattern" || key == "minItems" || key == "maxItems"
    || key == "multipleOf" || key == "uniqueItems"
  }

  predicate ComparedByText(key: string) {
    key == "type" || key == "enum" || key == "items" || key == "default" || key == "example" || IsConstraint(key)
  }

  predicate ComparedByReference(key: string) {
    || key == "description" || key == "format" || key == "$ref" || key == "nullable" || key == "readOnly"
    || key == "writeOnly" || key == "deprecated" || key == "title"
  }

  predicate PropertyKeyChanged(a: JsValue, b: JsValue, key: string) {
    (ComparedByText(key) && TextDiffers(a, b, key)) || (ComparedByReference(key) && RefDiffers(a, b, key))
  }

  predicate Accounted(t: Tracked) {
    match t.mode
    case ByText => ComparedByText(t.key)
    case ByIdentity => ComparedByReference(t.key)
    case ByTextOrEmpty => false
  }

  lemma FirstKeys(i: nat)
    requires i < 13
    ensures Accounted(PROPERTY_TABLE[i])
  {}

  lemma LaterKeys(i: nat)
    requires 13 <= i < |PROPERTY_TABLE|
    ensures Accounted(PROPERTY_TABLE[i])
  {}

  /** The tracked key at each place of the table. */
  lemma PropertyTableText(i: nat)
    requires i < |PROPERTY_TABLE|
    ensures Accounted(PROPERTY_TABLE[i])
  {
    if i < 13 { FirstKeys(i); } else { LaterKeys(i); }
  }

  lemma PropertyTableHasText(key: string) returns (i: nat)
    requires ComparedByText(key)
    ensures i < |PROPERTY_TABLE| && PROPERTY_TABLE[i] == Tracked(key, ByText)
  {
    i :=
      if key == "type" then 0 else if key == "enum" then 4 else if key == "items" then 5
      else if key == "default" then 6 else if key == "example" then 11 else if key == "minimum" then 13
      else if key == "maximum" then 14 else if key == "exclusiveMinimum" then 15
      else if key == "exclusiveMaximum" then 16 else if key == "minLength" then 17 else if key == "maxLength" then 18
      else if key == "pattern" then 19 else if key == "minItems" then 20 else if key == "maxItems" then 21
      else if key == "multipleOf" then 22 else 23;
  }

  lemma PropertyTableHasReference(key: string) returns (i: nat)
    requires ComparedByReference(key)
    ensures i < |PROPERTY_TABLE| && PROPERTY_TABLE[i] == Tracked(key, ByIdentity)
  {
    i :=
      if key == "description" then 1 else if key == "format" then 2 else if key == "$ref" then 3
      else if key == "nullable" then 7 else if key == "readOnly" then 8 else if key == "writeOnly" then 9
      else if key == "deprecated" then 10 else 12;
  }

  /** A property's changes, key by key. */
  lemma PropertyChangesExact(a: JsValue, b: JsValue, key: string)
    ensures key in Changes(PROPERTY_TABLE, a, b) <==> PropertyKeyChanged(a, b, key)
  {
    ChangesMembers(PROPERTY_TABLE, a, b, key);
    if i :| 0 <= i < |PROPERTY_TABLE| && PROPERTY_TABLE[i].key == key && Changed(PROPERTY_TABLE[i], a, b) {
      PropertyTableText(i);
    }
    if ComparedByText(key) && TextDiffers(a, b, key) {
      var i := PropertyTableHasText(key);
      assert Changed(PROPERTY_TABLE[i], a, b);
    }
    if ComparedByReference(key) && RefDiffers(a, b, key) {
      var i := PropertyTableHasReference(key);
      assert Changed(PROPERTY_TABLE[i], a, b);
    }
  }

  // ---- What an item's diff says ----

  /** The class names and schemas are those under `components.schemas`, and none without both objects. */
  lemma SchemasExact(spec: JsValue)
    ensures
      FieldOf(spec, "components").Some? && FieldOf(FieldOf(spec, "components").value, "schemas").Some?
      && FieldOf(FieldOf(spec, "components").value, "schemas").value.JObj? ==>
        var v := FieldOf(FieldOf(spec, "components").value, "schemas").value;
        Schemas(spec).keys == v.keys && Schemas(spec).at == v.at
    ensures
      FieldOf(spec, "components").None? || FieldOf(FieldOf(spec, "components").value, "schemas").None? ==>
        Schemas(spec).keys == [] && Schemas(spec).at == map[]
  {}

  /** The class, or the property of the class, under its name. */
  predicate Holds(s: Entries, item: Item, v: JsValue) {
    match item
    case ClassItem(n) => n in s.at && s.at[n] == v
    case PropertyItem(n, p) =>
      n in s.at &&
      match FieldOf(s.at[n], "properties")
      case None => false
      case Some(props) => props.JObj? && p in props.at && props.at[p] == v
  }

  lemma HoldsExact(s: Entries, item: Item, v: JsValue)
    ensures Holds(s, item, v) <==> ValueOf(s, item) == Some(v)
  {}

  function DottedPath(item: Item): string {
    match item
    case ClassItem(n) => "schemas." + n
    case PropertyItem(n, p) => "schemas." + n + ".properties." + p
  }

  /** Path, type and the two values; the changes are those of the key-by-key account above. */
  lemma ItemDiffExact(a: Entries, b: Entries, item: Item, key: string)
    ensures
      var d := ItemDiff(a, b, item);
      && d.path == DottedPath(item) && (d.itemType == ClassType <==> item.ClassItem?)
      && (forall v :: d.oldV == Some(v) <==> Holds(a, item, v))
      && (forall v :: d.newV == Some(v) <==> Holds(b, item, v))
      && (d.oldV.Some? && d.newV.Some? ==>
            (key in d.changes <==>
               if item.ClassItem? then ClassKeyChanged(d.oldV.value, d.newV.value, key)
               else PropertyKeyChanged(d.oldV.value, d.newV.value, key)))
      && (d.kind == Modified <==> d.changes != [])
  {
    var d := ItemDiff(a, b, item);
    assert d.oldV == ValueOf(a, item) && d.newV == ValueOf(b, item);
    forall v
      ensures d.oldV == Some(v) <==> Holds(a, item, v)
      ensures d.newV == Some(v) <==> Holds(b, item, v)
    {
      HoldsExact(a, item, v);
      HoldsExact(b, item, v);
    }
    if d.oldV.Some? && d.newV.Some? {
      ClassChangesExact(d.oldV.value, d.newV.value, key);
      PropertyChangesExact(d.oldV.value, d.newV.value, key);
    }
  }

  // ---- Categories ----

  predicate IsHardPropertyKey(key: string) {
    || key == "type" || key == "format" || key == "$ref" || key == "items" || key == "default"
    || key == "readOnly" || key == "writeOnly" || key == "deprecated" || IsConstraint(key)
  }

  /** A modified class breaks when its type, required list or a combination changes, its description not. */
  ghost predicate ClassBreaks(a: JsValue, b: JsValue) {
    exists key :: IsHardClassKey(key) && ClassKeyChanged(a, b, key)
  }

  predicate EnumItems(v: JsValue, items: seq<JsValue>) {
    FieldOf(v, "enum") == Some(JArr(items))
  }

  /** Every element of `xs` is a primitive of `list`. */
  ghost predicate Listed(xs: seq<JsValue>, list: seq<JsValue>) {
    forall x :: x in xs ==> !x.JArr? && !x.JObj? && x in list
  }

  /** The new list has all the old values, and more. */
  ghost predicate EnumGrows(a: JsValue, b: JsValue) {
    exists before, after ::
      EnumItems(a, before) && EnumItems(b, after) && before != [] && Listed(before, after) && !Listed(after, before)
  }

  ghost predicate PropertyBreaks(a: JsValue, b: JsValue) {
    || (exists key :: IsHardPropertyKey(key) && PropertyKeyChanged(a, b, key))
    || (FieldOf(a, "nullable") == Some(JBool(true)) && FieldOf(b, "nullable") == Some(JBool(false)))
    || (TextDiffers(a, b, "enum") && !EnumGrows(a, b))
  }

  lemma ListedIsCovered(xs: seq<JsValue>, list: seq<JsValue>)
    ensures Listed(xs, list) <==> Covers(list, xs)
  {}

  lemma EnumGrowsExact(a: JsValue, b: JsValue)
    ensures EnumChangeKind(Some(a), Some(b)) == Widen <==> EnumGrows(a, b)
  {
    EnumChangeExact(Some(a), Some(b));
    var o, n := EnumOf(Some(a)), EnumOf(Some(b));
    if o.Some? && n.Some? {
      assert EnumItems(a, o.value) && EnumItems(b, n.value);
      ListedIsCovered(o.value, n.value);
      ListedIsCovered(n.value, o.value);
    }
  }

  lemma ClassCategory(a: Entries, b: Entries, name: string)
    requires name in a.at && name in b.at
    ensures ClassBreaking(ItemDiff(a, b, ClassItem(name))) <==> ClassBreaks(a.at[name], b.at[name])
  {
    var d := ItemDiff(a, b, ClassItem(name));
    forall key ensures key in d.changes <==> ClassKeyChanged(a.at[name], b.at[name], key) {
      ItemDiffExact(a, b, ClassItem(name), key);
    }
  }

  lemma PropertyKeysAre(key: string)
    ensures
      ComparedByText(key) || ComparedByReference(key) <==>
        IsHardPropertyKey(key) || key == "description" || key == "title" || key == "example"
        || key == "nullable" || key == "enum"
  {}

  lemma PropertyCategory(d: Diff, a: JsValue, b: JsValue)
    requires d.oldV == Some(a) && d.newV == Some(b) && forall key :: key in d.changes <==> PropertyKeyChanged(a, b, key)
    ensures PropertyBreaking(d) <==> PropertyBreaks(a, b)
  {
    if PropertyBreaking(d) { HardBreaks(d, a, b); }
    if PropertyBreaks(a, b) { BreaksHard(d, a, b); }
  }

  lemma HardBreaks(d: Diff, a: JsValue, b: JsValue)
    requires d.oldV == Some(a) && d.newV == Some(b) && forall key :: key in d.changes <==> PropertyKeyChanged(a, b, key)
    requires PropertyBreaking(d)
    ensures PropertyBreaks(a, b)
  {
    var key :| key in d.changes && Hard(d, key);
    EnumGrowsExact(a, b);
    PropertyKeysAre(key);
  }

  lemma HardKeyIsHard(d: Diff, key: string)
    requires IsHardPropertyKey(key)
    ensures Hard(d, key)
  {}

  lemma BreaksHard(d: Diff, a: JsValue, b: JsValue)
    requires d.oldV == Some(a) && d.newV == Some(b) && forall key :: key in d.changes <==> PropertyKeyChanged(a, b, key)
    requires PropertyBreaks(a, b)
    ensures PropertyBreaking(d)
  {
    EnumGrowsExact(a, b);
    if key :| IsHardPropertyKey(key) && PropertyKeyChanged(a, b, key) {
      HardKeyIsHard(d, key);
      assert key in d.changes && Hard(d, key);
    } else if TextDiffers(a, b, "enum") && !EnumGrows(a, b) {
      assert "enum" in d.changes && Hard(d, "enum");
    } else {
      assert "nullable" in d.changes && Hard(d, "nullable");
    }
  }

  /** What the document says of an item: gone is breaking, new is an addition, and else the rules above. */
  ghost predicate InCategory(a: Entries, b: Entries, item: Item, category: Category) {
    var x, y := ValueOf(a, item), ValueOf(b, item);
    if x.None? then category == Additions
    else if y.None? then category == Breaking
    else
      category == (
        if (if item.ClassItem? then ClassBreaks(x.value, y.value) else PropertyBreaks(x.value, y.value))
        then Breaking else Other)
  }

  lemma CategoryExact(a: Entries, b: Entries, item: Item)
    requires Present(a, b, item)
    ensures InCategory(a, b, item, CategoryOf(ItemDiff(a, b, item)))
  {
    var d := ItemDiff(a, b, item);
    if ValueOf(a, item).Some? && ValueOf(b, item).Some? {
      if item.ClassItem? {
        ClassCategory(a, b, item.name);
      } else {
        forall key ensures key in d.changes <==> PropertyKeyChanged(d.oldV.value, d.newV.value, key) {
          ItemDiffExact(a, b, item, key);
        }
        PropertyCategory(d, d.oldV.value, d.newV.value);
      }
    }
  }

  /** A bullet as it is printed. */
  predicate Prints(line: Wording, x: Bullet, d: Diff, category: Category) {
    && x.stableId == "components." + d.path && x.category == category
    && x.text == "`components." + d.path + "` \U{2014} " + line(d)
  }

  /**
   * Each changed item that is not part of a wholly added or removed class has one bullet, with its path, its
   * wording and its category; and the bullets stand in the order of their paths.
   */
  lemma DocumentSays(line: Wording, a: Entries, b: Entries, item: Item) returns (x: Bullet)
    requires Readable(a, b) && ToldItem(a, b, item)
    ensures x in Document(line, Bucketed(Diffs(a, b)))
    ensures InCategory(a, b, item, x.category) && Prints(line, x, ItemDiff(a, b, item), x.category)
  {
    x := BulletOf(line, ItemDiff(a, b, item));
    EveryChangeTold(line, a, b, item);
    CategoryExact(a, b, item);
    PrintedBullet(line, ItemDiff(a, b, item));
  }

  lemma PrintedBullet(line: Wording, d: Diff)
    ensures Prints(line, BulletOf(line, d), d, CategoryOf(d))
  {}

  lemma DocumentIsOrdered(line: Wording, s: DiffSummary, i: nat, j: nat)
    requires i < j < |Document(line, s)|
    ensures
      var x, y := Document(line, s)[i], Document(line, s)[j];
      !Less(y.stableId, x.stableId) && (x.stableId == y.stableId ==> !Less(y.text, x.text))
  {
    BulletOrderIsOrder();
    SortSorts(BulletOrder(), Bullets(line, ToldOf(s)));
    var x, y := Document(line, s)[i], Document(line, s)[j];
    assert !BulletOrder()(y, x);
    assert BulletOrder()(y, x) == (LowerId(y, x) || (!LowerId(x, y) && LowerText(y, x)));
    LessIrreflexive(x.stableId);
  }

  // ---- The merge gate ----

  /** The names of the classes that only the source has. */
  lemma AddedNamesExact(target: Entries, source: Entries, name: string)
    requires TidySchemas(target) && TidySchemas(source)
    ensures
      name in ClassifyMergeDiff(Bucketed(Diffs(target, source))).addedSchemaNames
      <==> name !in target.at && name in source.at
  {
    NamesOfAdded(Bucketed(Diffs(target, source)), name);
    if name !in target.at && name in source.at {
      var d := ItemDiff(target, source, ClassItem(name));
      PathOfClass(name);
      ItemInBucket(target, source, Added, ClassItem(name));
      assert d in Bucketed(Diffs(target, source)).added && IsClassNamed(d, name);
    }
    if d :| d in Bucketed(Diffs(target, source)).added && IsClassNamed(d, name) {
      Partition(target, source, Added, d);
      var item :| Present(target, source, item)
                  && Became(Added, TypeOf(item), ValueOf(target, item), ValueOf(source, item))
                  && d == ItemDiff(target, source, item);
      PathOfClass(item.name);
    }
  }

  predicate IsClassNamed(d: Diff, name: string) {
    d.itemType == ClassType && StartsWith(d.path, "schemas.") && WithoutPrefix(d.path) == name
  }

  lemma NamesOfAdded(s: DiffSummary, name: string)
    ensures
      name in ClassifyMergeDiff(s).addedSchemaNames <==> exists d :: d in s.added && IsClassNamed(d, name)
  {
    var added := (d: Diff) => d.itemType == ClassType && StartsWith(d.path, "schemas.");
    var classes, names := Filter(added, s.added), ClassifyMergeDiff(s).addedSchemaNames;
    FilterMembers(added, s.added);
    assert |names| == |classes| && forall i :: 0 <= i < |classes| ==> names[i] == WithoutPrefix(classes[i].path);
    if d :| d in s.added && IsClassNamed(d, name) {
      var i :| 0 <= i < |classes| && classes[i] == d;
      assert names[i] == name;
    }
    if name in names {
      var i :| 0 <= i < |names| && names[i] == name;
      assert classes[i] in classes && IsClassNamed(classes[i], name);
    }
  }

  lemma PathOfClass(name: string)
    ensures StartsWith(ClassPath(name), "schemas.") && WithoutPrefix(ClassPath(name)) == name
  {}

  // ---- Null schemas ----

  /** The comparison gets through exactly when no class or property that both sides hold is null on either. */
  lemma ComparableExact(a: Entries, b: Entries)
    requires TidySchemas(a) && TidySchemas(b)
    ensures
      Comparable(a, b, Items(a, b)) <==>
        forall item, v, w :: Holds(a, item, v) && Holds(b, item, w) ==> v != JNull && w != JNull
  {
    if Comparable(a, b, Items(a, b)) {
      forall item, v, w | Holds(a, item, v) && Holds(b, item, w) ensures v != JNull && w != JNull {
        HoldsExact(a, item, v);
        HoldsExact(b, item, w);
        ItemsExact(a, b);
        assert Present(a, b, item) && item in Items(a, b);
        var i :| 0 <= i < |Items(a, b)| && Items(a, b)[i] == item;
      }
    }
    if forall item, v, w :: Holds(a, item, v) && Holds(b, item, w) ==> v != JNull && w != JNull {
      forall i | 0 <= i < |Items(a, b)| ensures !Throws(ValueOf(a, Items(a, b)[i]), ValueOf(b, Items(a, b)[i])) {
        var item := Items(a, b)[i];
        var x, y := ValueOf(a, item), ValueOf(b, item);
        if x.Some? && y.Some? {
          HoldsExact(a, item, x.value);
          HoldsExact(b, item, y.value);
        }
      }
    }
  }

  // ---- The order of the diff ----

  /** The classes, and the properties of each, come in the order of the first document, the new ones after them. */
  lemma KeysInOrder(a: Entries, b: Entries, i: nat, j: nat)
    ensures a.keys <= AllKeys(a, b)
    ensures
      |a.keys| <= i < j < |AllKeys(a, b)| ==>
        exists p, q :: 0 <= p < q < |b.keys| && b.keys[p] == AllKeys(a, b)[i] && b.keys[q] == AllKeys(a, b)[j]
  {
    var added := (k: string) => k !in a.at;
    if |a.keys| <= i < j < |AllKeys(a, b)| {
      FilterKeepsOrder(added, b.keys, i - |a.keys|, j - |a.keys|);
    }
  }

  lemma {:induction false} FilterKeepsOrder(p: string -> bool, xs: seq<string>, i: nat, j: nat)
    requires i < j < |Filter(p, xs)|
    ensures exists m, n :: 0 <= m < n < |xs| && xs[m] == Filter(p, xs)[i] && xs[n] == Filter(p, xs)[j]
  {
    var tail := xs[1..];
    if !p(xs[0]) {
      FilterKeepsOrder(p, tail, i, j);
      var m, n :| 0 <= m < n < |tail| && tail[m] == Filter(p, tail)[i] && tail[n] == Filter(p, tail)[j];
      assert xs[m + 1] == tail[m] && xs[n + 1] == tail[n];
    } else if i > 0 {
      FilterKeepsOrder(p, tail, i - 1, j - 1);
      var m, n :| 0 <= m < n < |tail| && tail[m] == Filter(p, tail)[i - 1] && tail[n] == Filter(p, tail)[j - 1];
      assert xs[m + 1] == tail[m] && xs[n + 1] == tail[n];
    } else {
      FilterMembers(p, tail);
      var y := Filter(p, tail)[j - 1];
      assert y in Filter(p, tail);
      var n :| 0 <= n < |tail| && tail[n] == y;
      assert xs[0] == Filter(p, xs)[0] && xs[n + 1] == y && Filter(p, xs)[j] == y;
    }
  }
}
