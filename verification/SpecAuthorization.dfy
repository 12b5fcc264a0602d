/**
 * Who may read a published spec: the decision on one row, and its compilation into a SQL condition
 * with positional parameters.
 */
module SpecAuthorization {
  import opened Prelude
  import opened Scopes
  import opened Sql

  datatype Caller = Caller(tenantId: string, scope: Scope)

  /** A visibility label, trimmed and lower-cased; anything unknown is refused. */
  function NormalizeVisibility(raw: Option<string>): (r: Option<string>)
    ensures r.Some? ==> r.value == "public" || r.value == "private"
  {
    if raw.None? then None
    else
      var s := Lower(Strip(raw.value));
      if s == "public" || s == "private" then Some(s) else None
  }

  function ScopeKey(raw: Option<string>): string {
    match raw
    case None => ""
    case Some(s) => s
  }

  /** May the caller read the row with these fields? */
  predicate AuthorizeSpec(
      caller: Caller, visibility: Option<string>, tenantId: Option<string>, projectId: Option<string>)
  {
    match NormalizeVisibility(visibility)
    case None => false
    case Some(v) =>
      && Allows(caller.scope, ScopeKey(tenantId), Some(ScopeKey(projectId)))
      && (v == "public" || ScopeKey(tenantId) == caller.tenantId)
  }

  // ---- Compilation ----

  /** A condition and the parameters for its placeholders. */
  datatype Fragment = Fragment(sql: Expr, params: seq<Value>)

  /** One parameter per placeholder. */
  predicate Fits(f: Fragment) {
    |f.params| == Holes(f.sql)
  }

  predicate Accepts(f: Fragment, row: Column -> Value)
    requires Fits(f)
  {
    Keeps(f.sql, row, f.params)
  }

  function Conjunction(parts: seq<Expr>): Expr {
    if parts == [] then Lit(Truth(true))
    else if |parts| == 1 then parts[0]
    else Binary(And, Conjunction(parts[..|parts| - 1]), parts[|parts| - 1])
  }

  function ListCheck(column: Column): Expr {
    Binary(AnyOf, Unary(AsText, Col(column)), Param)
  }

  function ScopeSql(scope: Scope, tenantColumn: Column, projectColumn: Column): Fragment {
    var t, p := scope.tenants != [], scope.projects != [];
    Fragment(
      Conjunction((if t then [ListCheck(tenantColumn)] else []) + (if p then [ListCheck(projectColumn)] else [])),
      (if t then [Texts(scope.tenants)] else []) + (if p then [Texts(scope.projects)] else []))
  }

  /** On rows that hold identifiers in the two columns, the condition says what the scope says. */
  ghost predicate KeepsAllowed(f: Fragment, scope: Scope, tenantColumn: Column, projectColumn: Column)
    requires Fits(f)
  {
    forall row: Column -> Value, tenant, project ::
      row(tenantColumn) == Uuid(tenant) && row(projectColumn) == Uuid(project) ==>
      (Accepts(f, row) <==> Allows(scope, tenant, Some(project)))
  }

  /** The builder: a list of checks and, in step with it, the list of parameters. */
  method ScopePredicateSql(scope: Scope, tenantColumn: Column, projectColumn: Column) returns (r: Fragment)
    ensures r == ScopeSql(scope, tenantColumn, projectColumn)
    ensures Fits(r)
    ensures !scope.denyAll ==> KeepsAllowed(r, scope, tenantColumn, projectColumn)
  {
    ScopeSqlKeeps(scope, tenantColumn, projectColumn);
    var parts: seq<Expr> := [];
    var params: seq<Value> := [];
    if scope.tenants != [] {
      parts := parts + [ListCheck(tenantColumn)];
      params := params + [Texts(scope.tenants)];
    }
    if scope.projects != [] {
      parts := parts + [ListCheck(projectColumn)];
      params := params + [Texts(scope.projects)];
    }
    assert parts == (if scope.tenants != [] then [ListCheck(tenantColumn)] else [])
                    + (if scope.projects != [] then [ListCheck(projectColumn)] else []);
    assert params == (if scope.tenants != [] then [Texts(scope.tenants)] else [])
                     + (if scope.projects != [] then [Texts(scope.projects)] else []);
    if parts == [] {
      return Fragment(Lit(Truth(true)), []);
    }
    return Fragment(Conjunction(parts), params);
  }

  /** The condition for rows already known to be public. */
  function PublicScopeSql(caller: Caller, tenantColumn: Column, projectColumn: Column): Fragment {
    if caller.scope.denyAll then Fragment(Lit(Truth(false)), [])
    else ScopeSql(caller.scope, tenantColumn, projectColumn)
  }

  function VisibilitySql(tenantColumn: Column, visibilityColumn: Column): Expr {
    Binary(Or, Binary(Eq, Unary(AsText, Col(visibilityColumn)), Lit(Text("public"))),
       Binary(And, Binary(Eq, Unary(AsText, Col(visibilityColumn)), Lit(Text("private"))),
         Binary(Eq, Unary(AsText, Col(tenantColumn)), Param)))
  }

  function Extend(f: Fragment, sql: Expr, params: seq<Value>): Fragment {
    Fragment(Binary(And, f.sql, sql), f.params + params)
  }

  /** The condition for rows of either visibility. */
  function AuthorizedSql(
      caller: Caller, tenantColumn: Column, projectColumn: Column, visibilityColumn: Column): Fragment
  {
    if caller.scope.denyAll then Fragment(Lit(Truth(false)), [])
    else
      Extend(ScopeSql(caller.scope, tenantColumn, projectColumn),
             VisibilitySql(tenantColumn, visibilityColumn), [Text(caller.tenantId)])
  }

  // ---- Meaning ----

  /** A comparison of a column's text with a parameter. */
  lemma EvalColumnOp(op: BinaryOp, column: Column, row: Column -> Value, param: Value)
    ensures Holes(Binary(op, Unary(AsText, Col(column)), Param)) == 1
    ensures
      Eval(Binary(op, Unary(AsText, Col(column)), Param), row, [param])
      == BinaryValue(op, TextValue(row(column)), param)
  {
    EvalBinary(op, Unary(AsText, Col(column)), Param, row, [], [param]);
    assert [] + [param] == [param];
  }

  lemma ListCheckKeeps(column: Column, row: Column -> Value, id: string, allowed: seq<string>)
    requires row(column) == Uuid(id)
    ensures Holes(ListCheck(column)) == 1
    ensures Keeps(ListCheck(column), row, [Texts(allowed)]) <==> id in allowed
  {
    EvalColumnOp(AnyOf, column, row, Texts(allowed));
  }

  lemma ScopeSqlShape(scope: Scope, tenantColumn: Column, projectColumn: Column)
    ensures
      var t, p, f := scope.tenants != [], scope.projects != [], ScopeSql(scope, tenantColumn, projectColumn);
      f == if t && p then
        Fragment(Binary(And, ListCheck(tenantColumn), ListCheck(projectColumn)),
        [Texts(scope.tenants)] + [Texts(scope.projects)])
           else if t then Fragment(ListCheck(tenantColumn), [Texts(scope.tenants)])
           else if p then Fragment(ListCheck(projectColumn), [Texts(scope.projects)])
           else Fragment(Lit(Truth(true)), [])
  {
    var t, p := ListCheck(tenantColumn), ListCheck(projectColumn);
    assert ([t] + [p])[..1] == [t];
    assert Conjunction([t]) == t && Conjunction([p]) == p && Conjunction([t] + [p]) == Binary(And, t, p);
    assert [t] + [] == [t] && [] + [p] == [p];
    assert [Texts(scope.tenants)] + [] == [Texts(scope.tenants)]
      && [] + [Texts(scope.projects)] == [Texts(scope.projects)];
  }

  /** The compiled scope keeps exactly the rows the scope allows. */
  lemma ScopeSqlExact(
      scope: Scope, tenantColumn: Column, projectColumn: Column, row: Column -> Value, tenant: string, project: string)
    requires !scope.denyAll && row(tenantColumn) == Uuid(tenant) && row(projectColumn) == Uuid(project)
    ensures
      var f := ScopeSql(scope, tenantColumn, projectColumn);
      Fits(f) && (Accepts(f, row) <==> Allows(scope, tenant, Some(project)))
  {
    ScopeSqlShape(scope, tenantColumn, projectColumn);
    ListCheckKeeps(tenantColumn, row, tenant, scope.tenants);
    ListCheckKeeps(projectColumn, row, project, scope.projects);
    KeepsAnd(ListCheck(tenantColumn), ListCheck(projectColumn), row, [Texts(scope.tenants)], [Texts(scope.projects)]);
  }

  lemma ScopeSqlKeeps(scope: Scope, tenantColumn: Column, projectColumn: Column)
    ensures
      var f := ScopeSql(scope, tenantColumn, projectColumn);
      Fits(f) && (!scope.denyAll ==> KeepsAllowed(f, scope, tenantColumn, projectColumn))
  {
    ScopeSqlShape(scope, tenantColumn, projectColumn);
    KeepsAnd(ListCheck(tenantColumn), ListCheck(projectColumn), _ => Null, [Texts(scope.tenants)],
      [Texts(scope.projects)]);
    forall row: Column -> Value, tenant, project |
      !scope.denyAll && row(tenantColumn) == Uuid(tenant) && row(projectColumn) == Uuid(project)
      ensures Accepts(ScopeSql(scope, tenantColumn, projectColumn), row) <==> Allows(scope, tenant, Some(project))
    {
      ScopeSqlExact(scope, tenantColumn, projectColumn, row, tenant, project);
    }
  }

  /** A comparison of a column's text with a literal. */
  lemma EvalColumnIs(column: Column, row: Column -> Value, v: Value)
    ensures Holes(Binary(Eq, Unary(AsText, Col(column)), Lit(v))) == 0
    ensures Eval(Binary(Eq, Unary(AsText, Col(column)), Lit(v)), row, []) == EqValue(TextValue(row(column)), v)
  {
    EvalBinary(Eq, Unary(AsText, Col(column)), Lit(v), row, [], []);
  }

  lemma OwnerKeeps(column: Column, row: Column -> Value, tenant: string, own: string)
    requires row(column) == Uuid(tenant)
    ensures Keeps(Binary(Eq, Unary(AsText, Col(column)), Param), row, [Text(own)]) <==> tenant == own
  {
    EvalColumnOp(Eq, column, row, Text(own));
  }

  lemma LabelKeeps(column: Column, row: Column -> Value, visibility: string, wanted: string)
    requires row(column) == Text(visibility)
    ensures Holes(Binary(Eq, Unary(AsText, Col(column)), Lit(Text(wanted)))) == 0
    ensures Keeps(Binary(Eq, Unary(AsText, Col(column)), Lit(Text(wanted))), row, []) <==> visibility == wanted
  {
    EvalColumnIs(column, row, Text(wanted));
  }

  lemma VisibilitySqlExact(
      tenantColumn: Column, visibilityColumn: Column, row: Column -> Value, tenant: string, visibility: string,
      own: string)
    requires row(tenantColumn) == Uuid(tenant) && row(visibilityColumn) == Text(visibility)
    ensures Holes(VisibilitySql(tenantColumn, visibilityColumn)) == 1
    ensures
      Keeps(VisibilitySql(tenantColumn, visibilityColumn), row, [Text(own)])
      <==> Readable(visibility, tenant, own)
  {
    var isPublic := Binary(Eq, Unary(AsText, Col(visibilityColumn)), Lit(Text("public")));
    var isPrivate := Binary(Eq, Unary(AsText, Col(visibilityColumn)), Lit(Text("private")));
    var isOwn := Binary(Eq, Unary(AsText, Col(tenantColumn)), Param);
    LabelKeeps(visibilityColumn, row, visibility, "public");
    LabelKeeps(visibilityColumn, row, visibility, "private");
    OwnerKeeps(tenantColumn, row, tenant, own);
    assert [] + [Text(own)] == [Text(own)];
    KeepsAnd(isPrivate, isOwn, row, [], [Text(own)]);
    KeepsOr(isPublic, Binary(And, isPrivate, isOwn), row, [], [Text(own)]);
  }

  predicate IsLabel(visibility: string) {
    visibility == "public" || visibility == "private"
  }

  predicate Readable(visibility: string, tenant: string, own: string) {
    visibility == "public" || (visibility == "private" && tenant == own)
  }

  lemma LabelsAreNormal(visibility: string)
    requires IsLabel(visibility)
    ensures NormalizeVisibility(Some(visibility)) == Some(visibility)
  {
    assert Strip(visibility) == visibility;
    assert Lower(visibility) == visibility;
  }

  lemma AuthorizeLabel(caller: Caller, visibility: string, tenant: string, project: string)
    requires IsLabel(visibility)
    ensures
      AuthorizeSpec(caller, Some(visibility), Some(tenant), Some(project))
      <==> Allows(caller.scope, tenant, Some(project)) && Readable(visibility, tenant, caller.tenantId)
  {
    LabelsAreNormal(visibility);
  }

  /** The public condition keeps exactly the public rows the caller is authorized to read. */
  lemma PublicScopeSqlExact(
      caller: Caller, tenantColumn: Column, projectColumn: Column, row: Column -> Value, tenant: string,
      project: string)
    requires row(tenantColumn) == Uuid(tenant) && row(projectColumn) == Uuid(project)
    ensures
      var f := PublicScopeSql(caller, tenantColumn, projectColumn);
      Fits(f) && (Accepts(f, row) <==> AuthorizeSpec(caller, Some("public"), Some(tenant), Some(project)))
  {
    AuthorizeLabel(caller, "public", tenant, project);
    if !caller.scope.denyAll {
      ScopeSqlExact(caller.scope, tenantColumn, projectColumn, row, tenant, project);
    }
  }

  lemma ExtendAccepts(f: Fragment, sql: Expr, params: seq<Value>, row: Column -> Value)
    requires Fits(f) && |params| == Holes(sql)
    ensures Fits(Extend(f, sql, params))
    ensures Accepts(Extend(f, sql, params), row) <==> Accepts(f, row) && Keeps(sql, row, params)
  {
    KeepsAnd(f.sql, sql, row, f.params, params);
  }

  lemma GuardedScopeExact(
      scope: Scope, own: string, tenantColumn: Column, projectColumn: Column, visibilityColumn: Column,
      row: Column -> Value, tenant: string, project: string, visibility: string)
    requires !scope.denyAll && row(tenantColumn) == Uuid(tenant) && row(projectColumn) == Uuid(project)
    requires row(visibilityColumn) == Text(visibility)
    ensures
      var f := Extend(ScopeSql(scope, tenantColumn, projectColumn), VisibilitySql(tenantColumn, visibilityColumn),
        [Text(own)]);
      Fits(f) && (Accepts(f, row) <==> Allows(scope, tenant, Some(project)) && Readable(visibility, tenant, own))
  {
    ScopeSqlExact(scope, tenantColumn, projectColumn, row, tenant, project);
    VisibilitySqlExact(tenantColumn, visibilityColumn, row, tenant, visibility, own);
    ExtendAccepts(ScopeSql(scope, tenantColumn, projectColumn), VisibilitySql(tenantColumn, visibilityColumn),
      [Text(own)], row);
  }

  /** The full condition keeps exactly the rows the caller is authorized to read. */
  lemma AuthorizedSqlExact(
      caller: Caller, tenantColumn: Column, projectColumn: Column, visibilityColumn: Column,
      row: Column -> Value, tenant: string, project: string, visibility: string)
    requires row(tenantColumn) == Uuid(tenant) && row(projectColumn) == Uuid(project)
    requires row(visibilityColumn) == Text(visibility) && IsLabel(visibility)
    ensures
      var f := AuthorizedSql(caller, tenantColumn, projectColumn, visibilityColumn);
      Fits(f) && (Accepts(f, row) <==> AuthorizeSpec(caller, Some(visibility), Some(tenant), Some(project)))
  {
    AuthorizeLabel(caller, visibility, tenant, project);
    AuthorizedSqlKeeps(caller, tenantColumn, projectColumn, visibilityColumn, row, tenant, project, visibility);
  }

  lemma AuthorizedSqlKeeps(
      caller: Caller, tenantColumn: Column, projectColumn: Column, visibilityColumn: Column,
      row: Column -> Value, tenant: string, project: string, visibility: string)
    requires row(tenantColumn) == Uuid(tenant) && row(projectColumn) == Uuid(project)
    requires row(visibilityColumn) == Text(visibility)
    ensures
      var f := AuthorizedSql(caller, tenantColumn, projectColumn, visibilityColumn);
      Fits(f) &&
      (Accepts(f, row)
       <==> Allows(caller.scope, tenant, Some(project)) && Readable(visibility, tenant, caller.tenantId))
  {
    if !caller.scope.denyAll {
      GuardedScopeExact(caller.scope, caller.tenantId, tenantColumn, projectColumn, visibilityColumn, row, tenant,
        project, visibility);
    }
  }

  /** A label counts as what it is trimmed and in lower case; any other, or none, is refused whatever the scope. */
  lemma LabelExact(caller: Caller, raw: string, tenantId: Option<string>, projectId: Option<string>)
    ensures
      var v := Lower(Strip(raw));
      AuthorizeSpec(caller, Some(raw), tenantId, projectId) <==>
        IsLabel(v) && AuthorizeSpec(caller, Some(v), tenantId, projectId)
    ensures !AuthorizeSpec(caller, None, tenantId, projectId)
  {
    if IsLabel(Lower(Strip(raw))) { LabelsAreNormal(Lower(Strip(raw))); }
  }

  /** A missing identifier is the empty text: no listed one, and no caller's own. */
  lemma MissingIds(caller: Caller, visibility: Option<string>, project: Option<string>)
    ensures AuthorizeSpec(caller, visibility, None, project) == AuthorizeSpec(caller, visibility, Some(""), project)
    ensures AuthorizeSpec(caller, visibility, project, None) == AuthorizeSpec(caller, visibility, project, Some(""))
  {}
}
