/**
 * The rows behind the list tools: the public view, the private rows of an authenticated caller, and
 * the `UNION ALL` of both that the authenticated queries start from.
 */
module Catalog {
  import opened Prelude
  import opened Filters
  import opened Sql
  import opened SpecAuthorization

  datatype Visibility = Public | Private

  function Label(v: Visibility): string {
    match v
    case Public => "public"
    case Private => "private"
  }

  /** A revision joined with its project and its tags. Nullable columns are options. */
  datatype Spec = Spec(
    id: string, tenant: string, project: string, visibility: Visibility,
    published: Option<bool>, versionEnabled: Option<bool>, projectEnabled: Option<bool>,
    versionDeletedAt: Option<int>, projectDeletedAt: Option<int>,
    versionUpdatedAt: int, projectUpdatedAt: int, tagsUpdatedAt: Option<int>, tags: seq<string>)

  /** `GREATEST` of the three time stamps; a row without tags has none for them. */
  function LastUpdated(s: Spec): (r: int)
    ensures r >= s.versionUpdatedAt && r >= s.projectUpdatedAt && (s.tagsUpdatedAt.Some? ==> r >= s.tagsUpdatedAt.value)
    ensures r == s.versionUpdatedAt || r == s.projectUpdatedAt || Some(r) == s.tagsUpdatedAt
  {
    var a := if s.versionUpdatedAt >= s.projectUpdatedAt then s.versionUpdatedAt else s.projectUpdatedAt;
    if s.tagsUpdatedAt.Some? && s.tagsUpdatedAt.value > a then s.tagsUpdatedAt.value else a
  }

  function NullableTruth(b: Option<bool>): Value {
    if b.None? then Null else Truth(b.value)
  }

  function NullableTime(t: Option<int>): Value {
    if t.None? then Null else Time(t.value)
  }

  function NullableId(id: Option<string>): Value {
    if id.None? then Null else Uuid(id.value)
  }

  function Cell(s: Spec, c: Column): Value {
    match c
    case Id => Uuid(s.id)
    case TenantId => Uuid(s.tenant)
    case ProjectId => Uuid(s.project)
    case Visible => Text(Label(s.visibility))
    case UpdatedAt => Time(LastUpdated(s))
    case Published => NullableTruth(s.published)
    case VersionDeletedAt => NullableTime(s.versionDeletedAt)
    case ProjectDeletedAt => NullableTime(s.projectDeletedAt)
    case VersionEnabled => NullableTruth(s.versionEnabled)
    case ProjectEnabled => NullableTruth(s.projectEnabled)
  }

  function Cells(s: Spec): Column -> Value {
    c => Cell(s, c)
  }

  predicate Live(s: Spec) {
    && s.versionDeletedAt.None? && s.projectDeletedAt.None?
    && s.versionEnabled == Some(true) && s.projectEnabled == Some(true) && s.published == Some(true)
  }

  predicate Matches(wanted: Option<string>, id: string) {
    wanted.None? || wanted.value == id
  }

  /** What a caller may see: live rows, of the wanted tenant and project, that the caller may read. */
  predicate MayList(caller: Option<Caller>, tenant: Option<string>, project: Option<string>, s: Spec) {
    && Live(s) && Matches(tenant, s.tenant) && Matches(project, s.project)
    && match caller
       case None => s.visibility == Public
       case Some(c) => AuthorizeSpec(c, Some(Label(s.visibility)), Some(s.tenant), Some(s.project))
  }

  function Listed(
      caller: Option<Caller>, tenant: Option<string>, project: Option<string>, specs: seq<Spec>): seq<Spec>
  {
    Filter((s: Spec) => MayList(caller, tenant, project, s), specs)
  }

  // ---- The two branches as SQL ----

  /** `(%s IS NULL OR column = %s)`. */
  function OptionalFilter(column: Column): Expr {
    Binary(Or, Unary(IsNull, Param), Binary(Eq, Col(column), Param))
  }

  /** The view's own condition, and the one both branches share. */
  function LiveSql(): Expr {
    Binary(And, Binary(And, Binary(And, Binary(And, DeletedSql(VersionDeletedAt), DeletedSql(ProjectDeletedAt)),
                                        EnabledSql(VersionEnabled)), EnabledSql(ProjectEnabled)), EnabledSql(Published))
  }

  function DeletedSql(c: Column): Expr {
    Unary(IsNull, Col(c))
  }

  function EnabledSql(c: Column): Expr {
    Unary(IsTrue, Col(c))
  }

  function LabelSql(v: Visibility): Expr {
    Binary(Eq, Col(Visible), Lit(Text(Label(v))))
  }

  /** A query text: its two branches, with the fragments of the caller put in place. */
  datatype Union = Union(publicWhere: Expr, privateWhere: Expr)

  function PublicWhere(scope: Expr): Expr {
    Binary(And, Binary(And, OptionalFilter(TenantId), OptionalFilter(ProjectId)), scope)
  }

  function PrivateWhere(auth: Expr): Expr {
    Binary(And, Binary(And, Binary(And, Binary(And, LiveSql(), LabelSql(Private)), auth),
                       OptionalFilter(TenantId)), OptionalFilter(ProjectId))
  }

  function AuthenticatedUnion(caller: Caller): Union {
    Union(PublicWhere(PublicScopeSql(caller, TenantId, ProjectId).sql),
          PrivateWhere(AuthorizedSql(caller, TenantId, ProjectId, Visible).sql))
  }

  /** The parameter tuple, in the order in which it is written down. */
  function UnionParams(caller: Caller, tenant: Option<string>, project: Option<string>): seq<Value> {
    var t, p := NullableId(tenant), NullableId(project);
    [t, t, p, p]
    + PublicScopeSql(caller, TenantId, ProjectId).params
    + AuthorizedSql(caller, TenantId, ProjectId, Visible).params
    + [t, t, p, p]
  }

  predicate PublicView(s: Spec) {
    Keeps(Binary(And, LiveSql(), LabelSql(Public)), Cells(s), [])
  }

  function UnionHoles(u: Union): nat {
    Holes(u.publicWhere) + Holes(u.privateWhere)
  }

  /** `SELECT … FROM the public view WHERE … UNION ALL SELECT … FROM the tables WHERE …`. */
  function UnionRows(u: Union, ps: seq<Value>, specs: seq<Spec>): seq<Spec>
    requires |ps| == UnionHoles(u)
  {
    var n := Holes(u.publicWhere);
    Filter((s: Spec) => PublicView(s) && Keeps(u.publicWhere, Cells(s), ps[..n]), specs)
    + Filter((s: Spec) => Keeps(u.privateWhere, Cells(s), ps[n..]), specs)
  }

  // ---- What they keep ----

  lemma OptionalFilterKeeps(column: Column, row: Column -> Value, id: string, wanted: Option<string>)
    requires row(column) == Uuid(id)
    ensures Holes(OptionalFilter(column)) == 2
    ensures Keeps(OptionalFilter(column), row, [NullableId(wanted), NullableId(wanted)]) <==> Matches(wanted, id)
  {
    var w := NullableId(wanted);
    EvalBinary(Eq, Col(column), Param, row, [], [w]);
    assert [] + [w] == [w] && [w] + [w] == [w, w];
    KeepsOr(Unary(IsNull, Param), Binary(Eq, Col(column), Param), row, [w], [w]);
  }

  lemma ColumnChecks(s: Spec, c: Column)
    ensures Keeps(DeletedSql(c), Cells(s), []) <==> Cell(s, c).Null?
    ensures Keeps(EnabledSql(c), Cells(s), []) <==> Cell(s, c) == Truth(true)
  {}

  lemma LiveSqlKeeps(s: Spec)
    ensures Holes(LiveSql()) == 0 && (Keeps(LiveSql(), Cells(s), []) <==> Live(s))
  {
    var two := Binary(And, DeletedSql(VersionDeletedAt), DeletedSql(ProjectDeletedAt));
    var three := Binary(And, two, EnabledSql(VersionEnabled));
    var four := Binary(And, three, EnabledSql(ProjectEnabled));
    KeepsAndClosed(DeletedSql(VersionDeletedAt), DeletedSql(ProjectDeletedAt), Cells(s));
    KeepsAndClosed(two, EnabledSql(VersionEnabled), Cells(s));
    KeepsAndClosed(three, EnabledSql(ProjectEnabled), Cells(s));
    KeepsAndClosed(four, EnabledSql(Published), Cells(s));
    ColumnChecks(s, VersionDeletedAt);
    ColumnChecks(s, ProjectDeletedAt);
    ColumnChecks(s, VersionEnabled);
    ColumnChecks(s, ProjectEnabled);
    ColumnChecks(s, Published);
  }

  lemma LiveLabelKeeps(s: Spec, v: Visibility)
    ensures Holes(Binary(And, LiveSql(), LabelSql(v))) == 0
    ensures Keeps(Binary(And, LiveSql(), LabelSql(v)), Cells(s), []) <==> Live(s) && s.visibility == v
  {
    LiveSqlKeeps(s);
    EvalBinary(Eq, Col(Visible), Lit(Text(Label(v))), Cells(s), [], []);
    assert Label(s.visibility) == Label(v) <==> s.visibility == v by { assert "public" != "private"; }
    KeepsAndClosed(LiveSql(), LabelSql(v), Cells(s));
  }

  function Twofold(id: Option<string>): seq<Value> {
    [NullableId(id), NullableId(id)]
  }

  /** The public branch keeps the public rows the caller may list. */
  lemma PublicWhereExact(caller: Caller, tenant: Option<string>, project: Option<string>, s: Spec)
    ensures
      var scope := PublicScopeSql(caller, TenantId, ProjectId);
      var ps := (Twofold(tenant) + Twofold(project)) + scope.params;
      && |ps| == Holes(PublicWhere(scope.sql))
      && (Keeps(PublicWhere(scope.sql), Cells(s), ps)
          <==> Matches(tenant, s.tenant) && Matches(project, s.project)
               && AuthorizeSpec(caller, Some("public"), Some(s.tenant), Some(s.project)))
  {
    var scope := PublicScopeSql(caller, TenantId, ProjectId);
    OptionalFilterKeeps(TenantId, Cells(s), s.tenant, tenant);
    OptionalFilterKeeps(ProjectId, Cells(s), s.project, project);
    PublicScopeSqlExact(caller, TenantId, ProjectId, Cells(s), s.tenant, s.project);
    KeepsAnd(OptionalFilter(TenantId), OptionalFilter(ProjectId), Cells(s), Twofold(tenant), Twofold(project));
    KeepsAnd(Binary(And, OptionalFilter(TenantId), OptionalFilter(ProjectId)), scope.sql, Cells(s),
             Twofold(tenant) + Twofold(project), scope.params);
  }

  function PrivateAuth(auth: Fragment): Fragment {
    Fragment(Binary(And, Binary(And, LiveSql(), LabelSql(Private)), auth.sql), auth.params)
  }

  lemma PrivateAuthExact(caller: Caller, s: Spec)
    ensures
      var f := PrivateAuth(AuthorizedSql(caller, TenantId, ProjectId, Visible));
      && Fits(f)
      && (Accepts(f, Cells(s))
          <==> Live(s) && s.visibility == Private
               && AuthorizeSpec(caller, Some(Label(s.visibility)), Some(s.tenant), Some(s.project)))
  {
    var auth := AuthorizedSql(caller, TenantId, ProjectId, Visible);
    LiveLabelKeeps(s, Private);
    AuthorizedSqlExact(caller, TenantId, ProjectId, Visible, Cells(s), s.tenant, s.project, Label(s.visibility));
    KeepsAnd(Binary(And, LiveSql(), LabelSql(Private)), auth.sql, Cells(s), [], auth.params);
    assert [] + auth.params == auth.params;
  }

  lemma FilteredExact(f: Fragment, tenant: Option<string>, project: Option<string>, s: Spec)
    requires Fits(f)
    ensures
      var g := Extend(Extend(f, OptionalFilter(TenantId), Twofold(tenant)), OptionalFilter(ProjectId),
        Twofold(project));
      Fits(g) && (Accepts(g, Cells(s))
        <==> Accepts(f, Cells(s)) && Matches(tenant, s.tenant) && Matches(project, s.project))
  {
    OptionalFilterKeeps(TenantId, Cells(s), s.tenant, tenant);
    OptionalFilterKeeps(ProjectId, Cells(s), s.project, project);
    ExtendAccepts(f, OptionalFilter(TenantId), Twofold(tenant), Cells(s));
    ExtendAccepts(Extend(f, OptionalFilter(TenantId), Twofold(tenant)), OptionalFilter(ProjectId), Twofold(project),
      Cells(s));
  }

  /** The private branch keeps the private rows the caller may list. */
  lemma PrivateWhereExact(caller: Caller, tenant: Option<string>, project: Option<string>, s: Spec)
    ensures
      var auth := AuthorizedSql(caller, TenantId, ProjectId, Visible);
      var ps := (auth.params + Twofold(tenant)) + Twofold(project);
      && |ps| == Holes(PrivateWhere(auth.sql))
      && (Keeps(PrivateWhere(auth.sql), Cells(s), ps)
          <==> s.visibility == Private && MayList(Some(caller), tenant, project, s))
  {
    PrivateAuthExact(caller, s);
    FilteredExact(PrivateAuth(AuthorizedSql(caller, TenantId, ProjectId, Visible)), tenant, project, s);
  }

  lemma Regrouped(t: Value, p: Value, x: seq<Value>, y: seq<Value>)
    ensures [t, t, p, p] + x + y + [t, t, p, p] == (([t, t] + [p, p]) + x) + ((y + [t, t]) + [p, p])
  {}

  lemma Halves(xs: seq<Value>, ys: seq<Value>)
    ensures (xs + ys)[..|xs|] == xs && (xs + ys)[|xs|..] == ys
  {}

  /** By position, each branch gets its own parameters and none is left over. */
  lemma ParamsFallInPlace(caller: Caller, tenant: Option<string>, project: Option<string>)
    ensures
      var u, ps := AuthenticatedUnion(caller), UnionParams(caller, tenant, project);
      var scope, auth := PublicScopeSql(caller, TenantId, ProjectId),
        AuthorizedSql(caller, TenantId, ProjectId, Visible);
      && |ps| == UnionHoles(u)
      && ps[..Holes(u.publicWhere)] == (Twofold(tenant) + Twofold(project)) + scope.params
      && ps[Holes(u.publicWhere)..] == (auth.params + Twofold(tenant)) + Twofold(project)
  {
    var s: Spec :| true;
    PublicWhereExact(caller, tenant, project, s);
    PrivateWhereExact(caller, tenant, project, s);
    var scope, auth := PublicScopeSql(caller, TenantId, ProjectId), AuthorizedSql(caller, TenantId, ProjectId, Visible);
    Regrouped(NullableId(tenant), NullableId(project), scope.params, auth.params);
    Halves((Twofold(tenant) + Twofold(project)) + scope.params, (auth.params + Twofold(tenant)) + Twofold(project));
  }

  /**
   * The authenticated `UNION ALL`, its parameters bound by position, yields each row the caller may
   * list exactly once, and no other.
   */
  lemma UnionExact(caller: Caller, tenant: Option<string>, project: Option<string>, specs: seq<Spec>)
    ensures |UnionParams(caller, tenant, project)| == UnionHoles(AuthenticatedUnion(caller))
    ensures
      multiset(UnionRows(AuthenticatedUnion(caller), UnionParams(caller, tenant, project), specs))
      == multiset(Listed(Some(caller), tenant, project, specs))
  {
    var u, ps := AuthenticatedUnion(caller), UnionParams(caller, tenant, project);
    ParamsFallInPlace(caller, tenant, project);
    var n := Holes(u.publicWhere);
    var isPublic := (s: Spec) => PublicView(s) && Keeps(u.publicWhere, Cells(s), ps[..n]);
    var isPrivate := (s: Spec) => Keeps(u.privateWhere, Cells(s), ps[n..]);
    var listed := (s: Spec) => MayList(Some(caller), tenant, project, s);
    forall s
      ensures isPublic(s) <==> s.visibility == Public && listed(s)
      ensures isPrivate(s) <==> s.visibility == Private && listed(s)
    {
      PublicWhereExact(caller, tenant, project, s);
      PrivateWhereExact(caller, tenant, project, s);
      LiveLabelKeeps(s, Public);
    }
    FilterUnion(isPublic, isPrivate, listed, specs);
  }

  /** A caller who is denied everything may list nothing. */
  lemma DeniedListsNothing(caller: Caller, tenant: Option<string>, project: Option<string>, specs: seq<Spec>)
    requires caller.scope.denyAll
    ensures Listed(Some(caller), tenant, project, specs) == []
  {
    FilterSuffix((s: Spec) => MayList(Some(caller), tenant, project, s), specs, |specs|);
  }

  // ---- Who may list what, field by field ----

  predicate IsLive(s: Spec) {
    && s.versionDeletedAt == None && s.projectDeletedAt == None
    && s.versionEnabled == Some(true) && s.projectEnabled == Some(true) && s.published == Some(true)
  }

  predicate IsWanted(tenant: Option<string>, project: Option<string>, s: Spec) {
    tenant in {None, Some(s.tenant)} && project in {None, Some(s.project)}
  }

  predicate MayRead(c: Caller, s: Spec) {
    && !c.scope.denyAll
    && (c.scope.tenants == [] || s.tenant in c.scope.tenants)
    && (c.scope.projects == [] || s.project in c.scope.projects)
    && (s.visibility == Private ==> s.tenant == c.tenantId)
  }

  /**
   * Without a key, the live public rows of the wanted tenant and project; with one, the live rows of them
   * that are in its scope, private ones of its own tenant only.
   */
  lemma ListedExact(
      caller: Option<Caller>, tenant: Option<string>, project: Option<string>, specs: seq<Spec>, s: Spec)
    ensures
      s in Listed(caller, tenant, project, specs) <==>
        && s in specs && IsLive(s) && IsWanted(tenant, project, s)
        && match caller
           case None => s.visibility == Public
           case Some(c) => MayRead(c, s)
  {
    FilterMembers((x: Spec) => MayList(caller, tenant, project, x), specs);
    if caller.Some? { AuthorizeLabel(caller.value, Label(s.visibility), s.tenant, s.project); }
  }
}
