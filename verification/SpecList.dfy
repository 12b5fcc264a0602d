/** `spec.list`: the specs a caller may list, newest first, page by page. */
module SpecList {
  import opened Prelude
  import opened Sorting
  import opened Filters
  import opened StableJson
  import opened RowCursors
  import opened Keyset
  import opened Sql
  import opened SpecAuthorization
  import opened Catalog

  predicate LaterSpec(a: Spec, b: Spec) {
    LastUpdated(a) > LastUpdated(b)
  }

  predicate HigherId(a: Spec, b: Spec) {
    Less(b.id, a.id)
  }

  /** `ORDER BY updated_at DESC, id DESC`. */
  function NewestSpecs(): (Spec, Spec) -> bool {
    Then(LaterSpec, HigherId)
  }

  function SpecKeyOf(s: Spec): SpecKey {
    SpecKey(LastUpdated(s), s.id)
  }

  /** `(updated_at, id) < (time, id)`. */
  predicate OlderSpec(k: SpecKey, s: Spec) {
    LastUpdated(s) < k.updatedAt || (LastUpdated(s) == k.updatedAt && Less(s.id, k.id))
  }

  function SpecListing(f: Formats): Listing<Spec, SpecKey> {
    Listing(NewestSpecs(), SpecKeyOf, OlderSpec, k => EncodeSpecCursor(f, k), raw => DecodeSpecCursor(f, raw))
  }

  // ---- The tool ----

  function CursorSql(): Expr {
    Binary(Or, Unary(IsNull, Param), Binary(Lt, Binary(Pair, Col(UpdatedAt), Col(Id)), Binary(Pair, Param, Param)))
  }

  function CursorParams(k: Option<SpecKey>): seq<Value> {
    match k
    case None => [Null] + [Null, Null]
    case Some(key) => [Time(key.updatedAt)] + [Time(key.updatedAt), Uuid(key.id)]
  }

  /** `SELECT … FROM (union) WHERE outer ORDER BY … LIMIT n`, all parameters in one tuple. */
  function RunSpecQuery(u: Union, outer: Expr, ps: seq<Value>, specs: seq<Spec>, n: nat): seq<Spec>
    requires |ps| == UnionHoles(u) + Holes(outer)
  {
    var cut := UnionHoles(u);
    Select((s: Spec) => Keeps(outer, Cells(s), ps[cut..]), NewestSpecs(), UnionRows(u, ps[..cut], specs), n)
  }

  /** The anonymous query, whose parameters go by name. */
  function RunAnonymousQuery(
      tenant: Option<string>, project: Option<string>, k: Option<SpecKey>, specs: seq<Spec>, n: nat): seq<Spec>
  {
    Select(
      (s: Spec) => PublicView(s) && Matches(tenant, s.tenant) && Matches(project, s.project)
                   && (k.None? || OlderSpec(k.value, s)),
      NewestSpecs(), specs, n)
  }

  lemma CursorSqlHoles(k: Option<SpecKey>)
    ensures Holes(CursorSql()) == |CursorParams(k)|
  {}

  function RunAuthenticatedQuery(
      caller: Caller, tenant: Option<string>, project: Option<string>, k: Option<SpecKey>, specs: seq<Spec>,
      n: nat): seq<Spec>
  {
    ParamsFallInPlace(caller, tenant, project);
    CursorSqlHoles(k);
    RunSpecQuery(AuthenticatedUnion(caller), CursorSql(), UnionParams(caller, tenant, project) + CursorParams(k),
      specs, n)
  }

  function SpecAnswer(
      f: Formats, caller: Option<Caller>, tenant: Option<string>, project: Option<string>, k: Option<SpecKey>,
      specs: seq<Spec>, n: nat): Page<Spec>
  {
    if caller.None? then PageOf(SpecListing(f), RunAnonymousQuery(tenant, project, k, specs, n + 1), n)
    else if caller.value.scope.denyAll then Page([], false, None)
    else PageOf(SpecListing(f), RunAuthenticatedQuery(caller.value, tenant, project, k, specs, n + 1), n)
  }

  function SpecList(
      f: Formats, caller: Option<Caller>, tenant: Option<string>, project: Option<string>,
      limit: Option<int>, cursor: Option<string>, specs: seq<Spec>): Result<Page<Spec>, ListError>
  {
    Respond(limit, DecodeSpecCursor(f, cursor), (k, n) => SpecAnswer(f, caller, tenant, project, k, specs, n))
  }

  function SpecEndpoint(
      f: Formats, caller: Option<Caller>, tenant: Option<string>, project: Option<string>,
      specs: seq<Spec>): Endpoint<Spec>
  {
    (limit, cursor) => SpecList(f, caller, tenant, project, limit, cursor, specs)
  }

  // ---- The query does what it says ----

  lemma CursorPairs(s: Spec, t: Value, id: Value)
    ensures
      var pair := Binary(Lt, Binary(Pair, Col(UpdatedAt), Col(Id)), Binary(Pair, Param, Param));
      Holes(pair) == 2 && Eval(pair, Cells(s), [t, id]) == LtValue(Row(Cell(s, UpdatedAt), Cell(s, Id)), Row(t, id))
  {
    EvalBinary(Pair, Param, Param, Cells(s), [t], [id]);
    assert [t] + [id] == [t, id] && [] + [t, id] == [t, id];
    EvalBinary(Pair, Col(UpdatedAt), Col(Id), Cells(s), [], []);
    EvalBinary(Lt, Binary(Pair, Col(UpdatedAt), Col(Id)), Binary(Pair, Param, Param), Cells(s), [], [t, id]);
  }

  lemma CursorSqlKeeps(s: Spec, k: Option<SpecKey>)
    ensures Holes(CursorSql()) == |CursorParams(k)|
    ensures Keeps(CursorSql(), Cells(s), CursorParams(k)) <==> k.None? || OlderSpec(k.value, s)
  {
    var t, id := if k.None? then Null else Time(k.value.updatedAt), if k.None? then Null else Uuid(k.value.id);
    assert CursorParams(k) == [t] + [t, id];
    CursorPairs(s, t, id);
    KeepsMissing(Cells(s), t);
    KeepsOr(Unary(IsNull, Param), Binary(Lt, Binary(Pair, Col(UpdatedAt), Col(Id)), Binary(Pair, Param, Param)),
      Cells(s), [t], [t, id]);
  }

  ghost predicate DistinctIds(specs: seq<Spec>) {
    forall i, j :: 0 <= i < j < |specs| ==> specs[i].id != specs[j].id
  }

  ghost predicate CanonicalIds(f: Formats, specs: seq<Spec>) {
    forall s :: s in specs ==> CanonicalId(f, s.id) && CanonicalId(f, s.tenant) && CanonicalId(f, s.project)
  }

  lemma NewestSpecsIsOrder()
    ensures WeakOrder(NewestSpecs())
  {
    LessIsOrder();
    assert WeakOrder(HigherId) by {
      forall a: Spec, b: Spec, c: Spec
        ensures !HigherId(a, a) && (HigherId(a, b) && HigherId(b, c) ==> HigherId(a, c))
        ensures !HigherId(a, b) && !HigherId(b, c) ==> !HigherId(a, c)
      {
        assert Less(c.id, b.id) && Less(b.id, a.id) ==> Less(c.id, a.id);
        assert !Less(c.id, b.id) && !Less(b.id, a.id) ==> !Less(c.id, a.id);
      }
    }
    ThenIsOrder(LaterSpec, HigherId);
  }

  lemma NewestSpecsAt(a: Spec, b: Spec)
    ensures OlderSpec(SpecKeyOf(a), b) <==> NewestSpecs()(a, b)
    ensures a.id != b.id ==> NewestSpecs()(a, b) || NewestSpecs()(b, a)
  {
    LessTotal(a.id, b.id);
    LessIsOrder();
    assert NewestSpecs()(a, b) == (LaterSpec(a, b) || (!LaterSpec(b, a) && HigherId(a, b)));
    assert NewestSpecs()(b, a) == (LaterSpec(b, a) || (!LaterSpec(a, b) && HigherId(b, a)));
  }

  lemma IdsTell(specs: seq<Spec>, a: Spec, b: Spec)
    requires DistinctIds(specs) && a in specs && b in specs && a != b
    ensures a.id != b.id
  {}

  lemma ListedIsSound(
      f: Formats, caller: Option<Caller>, tenant: Option<string>, project: Option<string>, specs: seq<Spec>)
    requires Faithful(f) && CanonicalIds(f, specs) && DistinctIds(specs)
    ensures Sound(SpecListing(f), Listed(caller, tenant, project, specs))
  {
    var l, rows := SpecListing(f), Listed(caller, tenant, project, specs);
    NewestSpecsIsOrder();
    FilterMembers((s: Spec) => MayList(caller, tenant, project, s), specs);
    FilterDistinct((s: Spec) => MayList(caller, tenant, project, s), specs);
    forall a, b | a in rows && b in rows
      ensures a != b ==> l.before(a, b) || l.before(b, a)
      ensures l.after(l.key(a), b) <==> l.before(a, b)
    {
      NewestSpecsAt(a, b);
      if a != b { IdsTell(specs, a, b); }
    }
    forall r | r in rows
      ensures l.dec(Some(l.enc(l.key(r)))) == Ok(Some(l.key(r)))
    {
      SpecCursorRoundTrip(f, SpecKeyOf(r));
    }
  }

  lemma AuthenticatedPage(
      caller: Caller, tenant: Option<string>, project: Option<string>, k: Option<SpecKey>, specs: seq<Spec>, n: nat,
      f: Formats)
    requires Faithful(f) && CanonicalIds(f, specs) && DistinctIds(specs)
    ensures
      RunAuthenticatedQuery(caller, tenant, project, k, specs, n)
      == Select(s => Beyond(SpecListing(f), k, s), NewestSpecs(), Listed(Some(caller), tenant, project, specs), n)
  {
    var u, ps, qs := AuthenticatedUnion(caller), UnionParams(caller, tenant, project), CursorParams(k);
    UnionExact(caller, tenant, project, specs);
    assert (ps + qs)[..|ps|] == ps && (ps + qs)[|ps|..] == qs;
    var outer := (s: Spec) => Keeps(CursorSql(), Cells(s), (ps + qs)[|ps|..]);
    forall s: Spec ensures outer(s) == Beyond(SpecListing(f), k, s) {
      CursorSqlKeeps(s, k);
    }
    ListedIsSound(f, Some(caller), tenant, project, specs);
    SelectPermuted(outer, NewestSpecs(), UnionRows(u, ps, specs), Listed(Some(caller), tenant, project, specs), n);
    SelectAgrees(outer, s => Beyond(SpecListing(f), k, s), NewestSpecs(), Listed(Some(caller), tenant, project, specs),
      n);
  }

  lemma AnonymousPage(
      tenant: Option<string>, project: Option<string>, k: Option<SpecKey>, specs: seq<Spec>, n: nat, f: Formats)
    ensures
      RunAnonymousQuery(tenant, project, k, specs, n)
      == Select(s => Beyond(SpecListing(f), k, s), NewestSpecs(), Listed(None, tenant, project, specs), n)
  {
    var both := (s: Spec) => PublicView(s) && Matches(tenant, s.tenant) && Matches(project, s.project)
      && (k.None? || OlderSpec(k.value, s));
    forall s: Spec ensures both(s) <==> MayList(None, tenant, project, s) && Beyond(SpecListing(f), k, s) {
      LiveLabelKeeps(s, Public);
    }
    FilterTwice((s: Spec) => MayList(None, tenant, project, s), s => Beyond(SpecListing(f), k, s), both, specs);
  }

  lemma EmptyPage(f: Formats, k: Option<SpecKey>, n: nat)
    ensures
      PageOf(SpecListing(f), Select(s => Beyond(SpecListing(f), k, s), NewestSpecs(), [], n + 1), n)
      == Page([], false, None)
  {}

  lemma SpecAnswerIsPage(
      f: Formats, caller: Option<Caller>, tenant: Option<string>, project: Option<string>, k: Option<SpecKey>,
      specs: seq<Spec>, n: nat)
    requires Faithful(f) && CanonicalIds(f, specs) && DistinctIds(specs)
    ensures
      SpecAnswer(f, caller, tenant, project, k, specs, n)
      == PageBeyond(SpecListing(f), Listed(caller, tenant, project, specs), k, n)
  {
    if caller.None? {
      AnonymousPage(tenant, project, k, specs, n + 1, f);
    } else if caller.value.scope.denyAll {
      DeniedListsNothing(caller.value, tenant, project, specs);
      EmptyPage(f, k, n);
    } else {
      AuthenticatedPage(caller.value, tenant, project, k, specs, n + 1, f);
    }
  }

  /**
   * Every answer of `spec.list`, for every caller, scope, filter, limit and cursor, is the page of
   * exactly the rows that caller may list.
   */
  lemma SpecListServes(
      f: Formats, caller: Option<Caller>, tenant: Option<string>, project: Option<string>, specs: seq<Spec>)
    requires Faithful(f) && CanonicalIds(f, specs) && DistinctIds(specs)
    ensures
      Serves(SpecEndpoint(f, caller, tenant, project, specs), SpecListing(f), Listed(caller, tenant, project, specs))
  {
    forall limit, cursor
      ensures SpecList(f, caller, tenant, project, limit, cursor, specs)
              == Fetch(SpecListing(f), Listed(caller, tenant, project, specs), limit, cursor)
    {
      var a := (k, n) => SpecAnswer(f, caller, tenant, project, k, specs, n);
      var b := (k, n) => PageBeyond(SpecListing(f), Listed(caller, tenant, project, specs), k, n);
      forall k, n ensures a(k, n) == b(k, n) {
        SpecAnswerIsPage(f, caller, tenant, project, k, specs, n);
      }
    }
  }

  /** Following `next_cursor` to the end yields every row the caller may list exactly once, newest first. */
  lemma SpecTraversal(
      f: Formats, caller: Option<Caller>, tenant: Option<string>, project: Option<string>, specs: seq<Spec>,
      limits: seq<Option<int>>, pages: seq<Page<Spec>>)
    requires Faithful(f) && CanonicalIds(f, specs) && DistinctIds(specs)
    requires Follows(SpecEndpoint(f, caller, tenant, project, specs), None, limits, pages)
    ensures
      var rows := Listed(caller, tenant, project, specs);
      && Sorted(NewestSpecs(), Items(pages)) && multiset(Items(pages)) == multiset(rows) && Distinct(Items(pages))
      && forall n :: AllOf(limits, n) ==> JustEnough(|pages|, |rows|, n)
    ensures forall i, j :: 0 <= i < j < |Items(pages)| ==> ComesBefore(Items(pages)[i], Items(pages)[j])
  {
    var ask, l, rows := SpecEndpoint(f, caller, tenant, project, specs), SpecListing(f),
      Listed(caller, tenant, project, specs);
    SpecListServes(f, caller, tenant, project, specs);
    ListedIsSound(f, caller, tenant, project, specs);
    TraversalIsComplete(ask, l, rows, limits, pages);
    forall n | AllOf(limits, n) ensures JustEnough(|pages|, |rows|, n) {
      TraversalLength(ask, l, rows, limits, pages, n);
    }
    var items := Items(pages);
    forall i, j | 0 <= i < j < |items| ensures ComesBefore(items[i], items[j]) {
      assert items[i] in multiset(rows) && items[j] in multiset(rows) && items[i] != items[j];
      FilterMembers((s: Spec) => MayList(caller, tenant, project, s), specs);
      IdsTell(specs, items[i], items[j]);
      OrderedByTime(items[i], items[j]);
    }
  }

  /** The later update comes first, and of two at one time the one with the higher identifier. */
  predicate ComesBefore(a: Spec, b: Spec) {
    var t, u := LastUpdated(a), LastUpdated(b);
    t > u || (t == u && Less(b.id, a.id))
  }

  lemma OrderedByTime(a: Spec, b: Spec)
    requires !NewestSpecs()(b, a) && a.id != b.id
    ensures ComesBefore(a, b)
  {
    assert NewestSpecs()(b, a) == (LaterSpec(b, a) || (!LaterSpec(a, b) && HigherId(b, a)));
    LessTotal(a.id, b.id);
  }
}
