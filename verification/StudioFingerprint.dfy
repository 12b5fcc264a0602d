/** Studio schema fingerprints: the canonical state whose text is the cache key. */
module StudioFingerprint {
  import opened Prelude
  import opened Json
  import opened Sorting
  import opened StableJson

  // ---- The cache key ----

  datatype ClassInfo = ClassInfo(id: string, name: string, schema: Option<JsValue>)

  datatype PropertyInfo = PropertyInfo(
    id: string, name: string, description: Option<JsValue>, kind: Option<JsValue>,
    format: Option<JsValue>, required: Option<JsValue>)

  datatype Studio = Studio(
    versionId: Option<string>, projectId: Option<string>,
    classes: seq<ClassInfo>, properties: seq<PropertyInfo>)

  /** `value ?? null`. */
  function OrNull(v: Option<JsValue>): JsValue {
    match v
    case Some(value) => value
    case None => JNull
  }

  function TextOrNull(v: Option<string>): JsValue {
    match v
    case Some(text) => JStr(text)
    case None => JNull
  }

  function ClassValue(c: ClassInfo): JsValue {
    JObj(["id", "name", "schema"], map["id" := JStr(c.id), "name" := JStr(c.name), "schema" := OrNull(c.schema)])
  }

  function PropertyValue(p: PropertyInfo): JsValue {
    JObj(["id", "name", "description", "type", "format", "required"],
         map["id" := JStr(p.id), "name" := JStr(p.name), "description" := OrNull(p.description),
             "type" := OrNull(p.kind), "format" := OrNull(p.format), "required" := OrNull(p.required)])
  }

  function MapSeq<S, T>(f: S -> T, xs: seq<S>): (ys: seq<T>)
    ensures |ys| == |xs| && forall i :: 0 <= i < |xs| ==> ys[i] == f(xs[i])
  {
    seq(|xs|, i requires 0 <= i < |xs| => f(xs[i]))
  }

  function ById<T>(collate: TextOrder, id: T -> string): (T, T) -> bool {
    (a: T, b: T) => collate(id(a), id(b))
  }

  function ClassId(c: ClassInfo): string { c.id }

  function PropertyId(p: PropertyInfo): string { p.id }

  /** `collate` is the fixed order of `localeCompare` on ids. */
  function Canonical(collate: TextOrder, ctx: Studio): JsValue {
    var classes := Sort(ById(collate, ClassId), ctx.classes);
    var properties := Sort(ById(collate, PropertyId), ctx.properties);
    JObj(["versionId", "projectId", "classes", "properties"],
         map["versionId" := TextOrNull(ctx.versionId), "projectId" := TextOrNull(ctx.projectId),
             "classes" := JArr(MapSeq(ClassValue, classes)),
             "properties" := JArr(MapSeq(PropertyValue, properties))])
  }

  function CacheKey(collate: TextOrder, ctx: Studio): string {
    Stringify(Canonical(collate, ctx))
  }

  // ---- What the key depends on ----

  ghost predicate DistinctIds<T>(id: T -> string, xs: seq<T>) {
    forall i, j :: 0 <= i < j < |xs| ==> id(xs[i]) != id(xs[j])
  }

  ghost predicate Fine(v: Option<JsValue>) {
    v.Some? ==> WellFormed(v.value)
  }

  /** Ids are unique and every value is a proper JavaScript value. */
  ghost predicate Usable(ctx: Studio) {
    && (forall c :: c in ctx.classes ==> Fine(c.schema))
    && (forall p :: p in ctx.properties ==>
          Fine(p.description) && Fine(p.kind) && Fine(p.format) && Fine(p.required))
    && DistinctIds(ClassId, ctx.classes)
    && DistinctIds(PropertyId, ctx.properties)
  }

  function ClassMeaning(c: ClassInfo): Json { Meaning(ClassValue(c)) }

  function PropertyMeaning(p: PropertyInfo): Json { Meaning(PropertyValue(p)) }

  /** A list as the key sees it: contents by meaning, order gone. */
  ghost function View<T>(means: T -> Json, xs: seq<T>): set<Json> {
    set x | x in xs :: means(x)
  }

  /** The same value, an absent one counting as null. */
  ghost predicate SameOptional(a: Option<JsValue>, b: Option<JsValue>) {
    match (a, b)
    case (None, None) => true
    case (None, Some(v)) => v.JNull?
    case (Some(v), None) => v.JNull?
    case (Some(v), Some(w)) => SameValue(v, w)
  }

  ghost predicate SameClass(c: ClassInfo, d: ClassInfo) {
    c.id == d.id && c.name == d.name && SameOptional(c.schema, d.schema)
  }

  ghost predicate SameProperty(p: PropertyInfo, q: PropertyInfo) {
    && p.id == q.id && p.name == q.name && SameOptional(p.description, q.description)
    && SameOptional(p.kind, q.kind) && SameOptional(p.format, q.format) && SameOptional(p.required, q.required)
  }

  /** Each element of `a` has its like in `b`. */
  ghost predicate Inside<T(!new)>(same: (T, T) -> bool, a: seq<T>, b: seq<T>) {
    forall x :: x in a ==> exists y :: y in b && same(x, y)
  }

  ghost predicate Matched<T(!new)>(same: (T, T) -> bool, a: seq<T>, b: seq<T>) {
    Inside(same, a, b) && Inside(same, b, a)
  }

  ghost predicate SameState(a: Studio, b: Studio) {
    && a.versionId == b.versionId && a.projectId == b.projectId
    && Matched((c, d) => SameClass(c, d), a.classes, b.classes)
    && Matched((p, q) => SameProperty(p, q), a.properties, b.properties)
  }

  lemma OrNullExact(a: Option<JsValue>, b: Option<JsValue>)
    ensures Meaning(OrNull(a)) == Meaning(OrNull(b)) <==> SameOptional(a, b)
  {
    MeaningExact(OrNull(a), OrNull(b));
  }

  lemma ClassMeaningExact(c: ClassInfo, d: ClassInfo)
    ensures ClassMeaning(c) == ClassMeaning(d) <==> SameClass(c, d)
  {
    var v, w := ClassValue(c), ClassValue(d);
    SameMembers(v, w);
    OrNullExact(c.schema, d.schema);
    assert v.at["id"] == JStr(c.id) && v.at["name"] == JStr(c.name) && v.at["schema"] == OrNull(c.schema);
    assert w.at["id"] == JStr(d.id) && w.at["name"] == JStr(d.name) && w.at["schema"] == OrNull(d.schema);
  }

  predicate HasSixFields(v: JsValue) {
    v.JObj? && v.at.Keys == {"id", "name", "description", "type", "format", "required"}
  }

  lemma SixFields(v: JsValue, w: JsValue)
    requires HasSixFields(v) && HasSixFields(w)
    ensures
      Meaning(v) == Meaning(w) <==>
        && Meaning(v.at["id"]) == Meaning(w.at["id"]) && Meaning(v.at["name"]) == Meaning(w.at["name"])
        && Meaning(v.at["description"]) == Meaning(w.at["description"])
        && Meaning(v.at["type"]) == Meaning(w.at["type"])
        && Meaning(v.at["format"]) == Meaning(w.at["format"])
        && Meaning(v.at["required"]) == Meaning(w.at["required"])
  {
    SameMembers(v, w);
    assert forall k :: k in v.at <==>
             k == "id" || k == "name" || k == "description" || k == "type" || k == "format" || k == "required";
  }

  lemma PropertyMeaningExact(p: PropertyInfo, q: PropertyInfo)
    ensures PropertyMeaning(p) == PropertyMeaning(q) <==> SameProperty(p, q)
  {
    SixFields(PropertyValue(p), PropertyValue(q));
    OrNullExact(p.description, q.description);
    OrNullExact(p.kind, q.kind);
    OrNullExact(p.format, q.format);
    OrNullExact(p.required, q.required);
    PropertyFields(p);
    PropertyFields(q);
  }

  lemma PropertyFields(p: PropertyInfo)
    ensures
      var v := PropertyValue(p);
      && v.at.Keys == {"id", "name", "description", "type", "format", "required"}
      && v.at["id"] == JStr(p.id) && v.at["name"] == JStr(p.name) && v.at["description"] == OrNull(p.description)
      && v.at["type"] == OrNull(p.kind) && v.at["format"] == OrNull(p.format) && v.at["required"] == OrNull(p.required)
  {}

  lemma ViewInside<T(!new)>(means: T -> Json, same: (T, T) -> bool, a: seq<T>, b: seq<T>)
    requires forall x, y :: same(x, y) <==> means(x) == means(y)
    ensures View(means, a) <= View(means, b) <==> Inside(same, a, b)
  {
    if View(means, a) <= View(means, b) {
      forall x | x in a ensures exists y :: y in b && same(x, y) {
        assert means(x) in View(means, a);
        var y :| y in b && means(y) == means(x);
        assert same(x, y);
      }
    }
    if Inside(same, a, b) {
      forall j | j in View(means, a) ensures j in View(means, b) {
        var x :| x in a && means(x) == j;
        var y :| y in b && same(x, y);
      }
    }
  }

  lemma ViewsMatch<T(!new)>(means: T -> Json, same: (T, T) -> bool, a: seq<T>, b: seq<T>)
    requires forall x, y :: same(x, y) <==> means(x) == means(y)
    ensures View(means, a) == View(means, b) <==> Inside(same, a, b) && Inside(same, b, a)
  {
    ViewInside(means, same, a, b);
    ViewInside(means, same, b, a);
  }

  lemma StateExact(a: Studio, b: Studio)
    ensures View(ClassMeaning, a.classes) == View(ClassMeaning, b.classes)
            <==> Matched((c, d) => SameClass(c, d), a.classes, b.classes)
    ensures View(PropertyMeaning, a.properties) == View(PropertyMeaning, b.properties)
            <==> Matched((p, q) => SameProperty(p, q), a.properties, b.properties)
  {
    forall c, d ensures ClassMeaning(c) == ClassMeaning(d) <==> SameClass(c, d) { ClassMeaningExact(c, d); }
    forall p, q ensures PropertyMeaning(p) == PropertyMeaning(q) <==> SameProperty(p, q) { PropertyMeaningExact(p, q); }
    ViewsMatch(ClassMeaning, (c, d) => SameClass(c, d), a.classes, b.classes);
    ViewsMatch(PropertyMeaning, (p, q) => SameProperty(p, q), a.properties, b.properties);
  }

  function IdOf(j: Json): string {
    if j.Obj? && Get(j.fields, "id").Str? then Get(j.fields, "id").s else ""
  }

  lemma SortedMeanings<T(!new)>(collate: TextOrder, id: T -> string, means: T -> Json, xs: seq<T>)
    requires TotalOrder(collate) && DistinctIds(id, xs) && forall x :: IdOf(means(x)) == id(x)
    ensures
      var out := MapSeq(means, Sort(ById(collate, id), xs));
      && Sorted(ById(collate, IdOf), out) && Distinct(out)
      && forall j :: j in out <==> j in View(means, xs)
  {
    var sorted := Sort(ById(collate, id), xs);
    var out := MapSeq(means, sorted);
    SortSorts(ById(collate, id), xs);
    SortMembers(ById(collate, id), xs);
    SortedIdsDistinct(collate, id, xs);
    forall j | j in View(means, xs)
      ensures j in out
    {
      var x :| x in xs && means(x) == j;
      assert x in sorted;
      var i :| 0 <= i < |sorted| && sorted[i] == x;
      assert out[i] == j;
    }
  }

  lemma SortedIdsDistinct<T(!new)>(collate: TextOrder, id: T -> string, xs: seq<T>)
    requires DistinctIds(id, xs)
    ensures DistinctIds(id, Sort(ById(collate, id), xs))
  {
    var sorted := Sort(ById(collate, id), xs);
    SortMembers(ById(collate, id), xs);
    assert Distinct(xs);
    SortDistinct(ById(collate, id), xs);
    forall i, j | 0 <= i < j < |sorted|
      ensures id(sorted[i]) != id(sorted[j])
    {
      assert sorted[i] in xs && sorted[j] in xs && sorted[i] != sorted[j];
    }
  }

  /** Two lists with unique ids canonicalize alike exactly when they hold the same things. */
  lemma ListsAgree<T(!new)>(collate: TextOrder, id: T -> string, means: T -> Json, a: seq<T>, b: seq<T>)
    requires TotalOrder(collate) && DistinctIds(id, a) && DistinctIds(id, b) && forall x :: IdOf(means(x)) == id(x)
    ensures
      MapSeq(means, Sort(ById(collate, id), a)) == MapSeq(means, Sort(ById(collate, id), b))
      <==> View(means, a) == View(means, b)
  {
    var outA, outB := MapSeq(means, Sort(ById(collate, id), a)), MapSeq(means, Sort(ById(collate, id), b));
    SortedMeanings(collate, id, means, a);
    SortedMeanings(collate, id, means, b);
    if View(means, a) == View(means, b) {
      DistinctMultiset(outA, outB);
      MeaningsSeparate(collate, id, means, a);
      SortedIsUnique(ById(collate, IdOf), outA, outB);
    }
  }

  lemma MeaningsSeparate<T(!new)>(collate: TextOrder, id: T -> string, means: T -> Json, xs: seq<T>)
    requires TotalOrder(collate) && DistinctIds(id, xs) && forall x :: IdOf(means(x)) == id(x)
    ensures Separates(ById(collate, IdOf), MapSeq(means, Sort(ById(collate, id), xs)))
  {
    var sorted := Sort(ById(collate, id), xs);
    var out := MapSeq(means, sorted);
    SortedIdsDistinct(collate, id, xs);
    forall x, y | x in out && y in out && x != y
      ensures collate(IdOf(x), IdOf(y)) || collate(IdOf(y), IdOf(x))
    {
      var i :| 0 <= i < |out| && out[i] == x;
      var j :| 0 <= j < |out| && out[j] == y;
      assert IdOf(x) == id(sorted[i]) && IdOf(y) == id(sorted[j]);
    }
  }

  lemma ValueId(v: JsValue)
    requires v.JObj? && "id" in v.at && v.at["id"].JStr?
    ensures IdOf(Meaning(v)) == v.at["id"].s
  {
    assert Meaning(v).fields["id"] == Meaning(v.at["id"]);
  }

  lemma MeaningIds()
    ensures forall c :: IdOf(ClassMeaning(c)) == ClassId(c)
    ensures forall p :: IdOf(PropertyMeaning(p)) == PropertyId(p)
  {
    forall c ensures IdOf(ClassMeaning(c)) == ClassId(c) { ValueId(ClassValue(c)); }
    forall p ensures IdOf(PropertyMeaning(p)) == PropertyId(p) { ValueId(PropertyValue(p)); }
  }

  lemma PropertyValueFine(p: PropertyInfo)
    requires Fine(p.description) && Fine(p.kind) && Fine(p.format) && Fine(p.required)
    ensures WellFormed(PropertyValue(p))
  {
    var v := PropertyValue(p);
    assert v.keys[0] == "id" && v.keys[1] == "name" && v.keys[2] == "description";
    assert v.keys[3] == "type" && v.keys[4] == "format" && v.keys[5] == "required";
    assert Distinct(v.keys);
  }

  lemma ClassesFine(collate: TextOrder, ctx: Studio)
    requires Usable(ctx)
    ensures WellFormed(JArr(MapSeq(ClassValue, Sort(ById(collate, ClassId), ctx.classes))))
  {
    var classes := Sort(ById(collate, ClassId), ctx.classes);
    SortMembers(ById(collate, ClassId), ctx.classes);
    forall i | 0 <= i < |classes|
      ensures WellFormed(ClassValue(classes[i]))
    {
      assert classes[i] in ctx.classes;
    }
  }

  lemma PropertiesFine(collate: TextOrder, ctx: Studio)
    requires Usable(ctx)
    ensures WellFormed(JArr(MapSeq(PropertyValue, Sort(ById(collate, PropertyId), ctx.properties))))
  {
    var properties := Sort(ById(collate, PropertyId), ctx.properties);
    SortMembers(ById(collate, PropertyId), ctx.properties);
    forall i | 0 <= i < |properties|
      ensures WellFormed(PropertyValue(properties[i]))
    {
      assert properties[i] in ctx.properties;
      PropertyValueFine(properties[i]);
    }
  }

  lemma CanonicalWellFormed(collate: TextOrder, ctx: Studio)
    requires Usable(ctx)
    ensures WellFormed(Canonical(collate, ctx))
  {
    var v := Canonical(collate, ctx);
    ClassesFine(collate, ctx);
    PropertiesFine(collate, ctx);
    assert v.keys[0] == "versionId" && v.keys[1] == "projectId" && v.keys[2] == "classes" && v.keys[3] == "properties";
    assert Distinct(v.keys);
  }

  ghost function ClassList(collate: TextOrder, ctx: Studio): seq<Json> {
    MapSeq(ClassMeaning, Sort(ById(collate, ClassId), ctx.classes))
  }

  ghost function PropertyList(collate: TextOrder, ctx: Studio): seq<Json> {
    MapSeq(PropertyMeaning, Sort(ById(collate, PropertyId), ctx.properties))
  }

  /** The meaning of the canonical state, part by part. */
  lemma CanonicalMeaning(collate: TextOrder, ctx: Studio)
    ensures
      var m := Meaning(Canonical(collate, ctx));
      && m.Obj? && m.fields.Keys == {"versionId", "projectId", "classes", "properties"}
      && m.fields["versionId"] == Meaning(TextOrNull(ctx.versionId))
      && m.fields["projectId"] == Meaning(TextOrNull(ctx.projectId))
      && m.fields["classes"] == Arr(ClassList(collate, ctx))
      && m.fields["properties"] == Arr(PropertyList(collate, ctx))
  {
    var v := Canonical(collate, ctx);
    var classes := Sort(ById(collate, ClassId), ctx.classes);
    var properties := Sort(ById(collate, PropertyId), ctx.properties);
    assert Meaning(v.at["classes"]).items == MapSeq(ClassMeaning, classes);
    assert Meaning(v.at["properties"]).items == MapSeq(PropertyMeaning, properties);
  }

  lemma MeaningsAgree(collate: TextOrder, a: Studio, b: Studio)
    ensures Meaning(Canonical(collate, a)) == Meaning(Canonical(collate, b)) <==>
      && a.versionId == b.versionId && a.projectId == b.projectId
      && ClassList(collate, a) == ClassList(collate, b)
      && PropertyList(collate, a) == PropertyList(collate, b)
  {
    CanonicalMeaning(collate, a);
    CanonicalMeaning(collate, b);
  }

  /**
   * Two contexts share a cache key exactly when they agree on version, project, classes and
   * properties, whatever the order of the lists and of the keys inside schemas.
   */
  lemma CacheKeyExact(collate: TextOrder, a: Studio, b: Studio)
    requires TotalOrder(collate) && Usable(a) && Usable(b)
    ensures CacheKey(collate, a) == CacheKey(collate, b) <==> SameState(a, b)
  {
    CanonicalWellFormed(collate, a);
    CanonicalWellFormed(collate, b);
    StringifyIsCanonical(Canonical(collate, a), Canonical(collate, b));
    MeaningsAgree(collate, a, b);
    MeaningIds();
    StateExact(a, b);
    ListsAgree(collate, ClassId, ClassMeaning, a.classes, b.classes);
    ListsAgree(collate, PropertyId, PropertyMeaning, a.properties, b.properties);
  }
}
