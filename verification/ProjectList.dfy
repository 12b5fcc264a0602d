/** `project.list`: the projects behind the specs a caller may list, latest activity first. */
module ProjectList {
  import opened Prelude
  import opened Sorting
  import opened Filters
  import opened StableJson
  import opened RowCursors
  import opened Keyset
  import opened Grouping
  import opened Sql
  import opened SpecAuthorization
  import opened Catalog

  type ProjectPath = (string, string)

  type Project = Group<ProjectPath, int>

  function Later(a: int, b: int): int {
    if a >= b then a else b
  }

  /** `SELECT tenant_id, project_id, MAX(updated_at) … GROUP BY tenant_id, project_id`. */
  function Projects(specs: seq<Spec>): seq<Project> {
    if specs == [] then []
    else
      var s := specs[|specs| - 1];
      Put(Projects(specs[..|specs| - 1]), (s.tenant, s.project), LastUpdated(s), Later)
  }

  predicate LaterProject(a: Project, b: Project) {
    a.value > b.value
  }

  predicate HigherTenant(a: Project, b: Project) {
    Less(b.key.0, a.key.0)
  }

  predicate HigherProject(a: Project, b: Project) {
    Less(b.key.1, a.key.1)
  }

  /** `ORDER BY updated_at DESC, tenant_id DESC, project_id DESC`. */
  function LatestProjects(): (Project, Project) -> bool {
    Then(LaterProject, Then(HigherTenant, HigherProject))
  }

  function ProjectKeyOf(g: Project): ProjectKey {
    ProjectKey(g.value, g.key.0, g.key.1)
  }

  /** The cursor condition, with the lexicographic order written out. */
  predicate PastProject(k: ProjectKey, g: Project) {
    || g.value < k.updatedAt
    || (g.value == k.updatedAt && Less(g.key.0, k.tenant))
    || (g.value == k.updatedAt && g.key.0 == k.tenant && Less(g.key.1, k.project))
  }

  function ProjectListing(f: Formats): Listing<Project, ProjectKey> {
    Listing(LatestProjects(), ProjectKeyOf, PastProject, k => EncodeProjectCursor(f, k),
      raw => DecodeProjectCursor(f, raw))
  }

  // ---- The tool ----

  function ProjectCell(g: Project, c: Column): Value {
    match c
    case UpdatedAt => Time(g.value)
    case TenantId => Uuid(g.key.0)
    case ProjectId => Uuid(g.key.1)
    case _ => Null
  }

  function ProjectCells(g: Project): Column -> Value {
    c => ProjectCell(g, c)
  }

  function Compare(op: BinaryOp, c: Column): Expr {
    Binary(op, Col(c), Param)
  }

  function PastSql(): Expr {
    Binary(Or, Binary(Or, Compare(Lt, UpdatedAt),
                      Binary(And, Compare(Eq, UpdatedAt), Compare(Lt, TenantId))),
           Binary(And, Binary(And, Compare(Eq, UpdatedAt), Compare(Eq, TenantId)), Compare(Lt, ProjectId)))
  }

  function ProjectCursorSql(): Expr {
    Binary(Or, Unary(IsNull, Param), PastSql())
  }

  function ProjectCursorParams(k: Option<ProjectKey>): seq<Value> {
    var t := if k.None? then Null else Time(k.value.updatedAt);
    var tenant, project := if k.None? then Null else Uuid(k.value.tenant),
      if k.None? then Null else Uuid(k.value.project);
    [t, t, t, tenant, t, tenant, project]
  }

  function RunProjectQuery(u: Union, outer: Expr, ps: seq<Value>, specs: seq<Spec>, n: nat): seq<Project>
    requires |ps| == UnionHoles(u) + Holes(outer)
  {
    var cut := UnionHoles(u);
    Select((g: Project) => Keeps(outer, ProjectCells(g), ps[cut..]), LatestProjects(),
      Projects(UnionRows(u, ps[..cut], specs)), n)
  }

  function RunAuthenticatedProjects(
      caller: Caller, tenant: Option<string>, project: Option<string>, k: Option<ProjectKey>, specs: seq<Spec>,
      n: nat): seq<Project>
  {
    ParamsFallInPlace(caller, tenant, project);
    PastSqlHoles(k);
    RunProjectQuery(AuthenticatedUnion(caller), ProjectCursorSql(),
      UnionParams(caller, tenant, project) + ProjectCursorParams(k), specs, n)
  }

  function RunAnonymousProjects(
      tenant: Option<string>, project: Option<string>, k: Option<ProjectKey>, specs: seq<Spec>, n: nat): seq<Project>
  {
    var rows := Filter((s: Spec) => PublicView(s) && Matches(tenant, s.tenant) && Matches(project, s.project), specs);
    Select((g: Project) => k.None? || PastProject(k.value, g), LatestProjects(), Projects(rows), n)
  }

  function ProjectAnswer(
      f: Formats, caller: Option<Caller>, tenant: Option<string>, project: Option<string>, k: Option<ProjectKey>,
      specs: seq<Spec>, n: nat): Page<Project>
  {
    if caller.None? then PageOf(ProjectListing(f), RunAnonymousProjects(tenant, project, k, specs, n + 1), n)
    else if caller.value.scope.denyAll then Page([], false, None)
    else PageOf(ProjectListing(f), RunAuthenticatedProjects(caller.value, tenant, project, k, specs, n + 1), n)
  }

  function ProjectList(
      f: Formats, caller: Option<Caller>, tenant: Option<string>, project: Option<string>,
      limit: Option<int>, cursor: Option<string>, specs: seq<Spec>): Result<Page<Project>, ListError>
  {
    Respond(limit, DecodeProjectCursor(f, cursor), (k, n) => ProjectAnswer(f, caller, tenant, project, k, specs, n))
  }

  function ProjectEndpoint(
      f: Formats, caller: Option<Caller>, tenant: Option<string>, project: Option<string>,
      specs: seq<Spec>): Endpoint<Project>
  {
    (limit, cursor) => ProjectList(f, caller, tenant, project, limit, cursor, specs)
  }

  // ---- Grouping ----

  /** `g` is a project of these specs with the time of its latest one. */
  ghost predicate IsLatest(specs: seq<Spec>, g: Project) {
    && (exists s :: s in specs && Of(s, g) && LastUpdated(s) == g.value)
    && (forall s :: s in specs && Of(s, g) ==> LastUpdated(s) <= g.value)
  }

  predicate Of(s: Spec, g: Project) {
    (s.tenant, s.project) == g.key
  }

  lemma {:induction false} ProjectsAreLatest(specs: seq<Spec>, g: Project)
    ensures OneEach(Projects(specs))
    ensures Under(Projects(specs), g.key) == Some(g.value) <==> IsLatest(specs, g)
    ensures Under(Projects(specs), g.key).None? <==> forall s :: s in specs ==> !Of(s, g)
  {
    if specs != [] {
      var init, s := specs[..|specs| - 1], specs[|specs| - 1];
      assert specs == init + [s];
      var before, k := Projects(init), (s.tenant, s.project);
      ProjectsAreLatest(init, g);
      PutOneEach(before, k, LastUpdated(s), Later);
      UnderPut(before, k, LastUpdated(s), Later, g.key);
      if k == g.key && Under(before, k).Some? {
        ProjectsAreLatest(init, Group(k, Under(before, k).value));
      }
    }
  }

  /** One entry per project of the specs, at the time of its latest spec, and no other. */
  lemma ProjectsExact(specs: seq<Spec>, g: Project)
    ensures OneEach(Projects(specs))
    ensures g in Projects(specs) <==> IsLatest(specs, g)
  {
    ProjectsAreLatest(specs, g);
    UnderExact(Projects(specs), g);
  }

  lemma ProjectsForgetOrder(a: seq<Spec>, b: seq<Spec>)
    requires multiset(a) == multiset(b)
    ensures multiset(Projects(a)) == multiset(Projects(b))
  {
    forall s: Spec ensures s in a <==> s in b {
      assert s in multiset(a) <==> s in multiset(b);
    }
    forall g: Project ensures g in Projects(a) <==> g in Projects(b) {
      ProjectsExact(a, g);
      ProjectsExact(b, g);
    }
    ProjectsExact(a, Group(("", ""), 0));
    ProjectsExact(b, Group(("", ""), 0));
    DistinctMultiset(Projects(a), Projects(b));
  }

  // ---- The query does what it says ----

  lemma CompareKeeps(op: BinaryOp, g: Project, c: Column, v: Value)
    ensures Holes(Compare(op, c)) == 1
    ensures Eval(Compare(op, c), ProjectCells(g), [v]) == BinaryValue(op, ProjectCell(g, c), v)
  {
    EvalBinary(op, Col(c), Param, ProjectCells(g), [], [v]);
    assert [] + [v] == [v];
  }

  lemma PastSqlHoles(k: Option<ProjectKey>)
    ensures Holes(ProjectCursorSql()) == |ProjectCursorParams(k)|
  {}

  lemma TieKeeps(op: BinaryOp, g: Project, t: int, tenant: string)
    ensures
      Keeps(Binary(And, Compare(Eq, UpdatedAt), Compare(op, TenantId)), ProjectCells(g), [Time(t)] + [Uuid(tenant)])
      <==> g.value == t && BinaryValue(op, Uuid(g.key.0), Uuid(tenant)) == Truth(true)
  {
    CompareKeeps(Eq, g, UpdatedAt, Time(t));
    CompareKeeps(op, g, TenantId, Uuid(tenant));
    KeepsAnd(Compare(Eq, UpdatedAt), Compare(op, TenantId), ProjectCells(g), [Time(t)], [Uuid(tenant)]);
  }

  lemma ProjectTieKeeps(g: Project, t: int, tenant: string, project: string)
    ensures
      Keeps(Binary(And, Binary(And, Compare(Eq, UpdatedAt), Compare(Eq, TenantId)), Compare(Lt, ProjectId)),
        ProjectCells(g),
            ([Time(t)] + [Uuid(tenant)]) + [Uuid(project)])
      <==> g.value == t && g.key.0 == tenant && Less(g.key.1, project)
  {
    TieKeeps(Eq, g, t, tenant);
    CompareKeeps(Lt, g, ProjectId, Uuid(project));
    KeepsAnd(Binary(And, Compare(Eq, UpdatedAt), Compare(Eq, TenantId)), Compare(Lt, ProjectId), ProjectCells(g),
             [Time(t)] + [Uuid(tenant)], [Uuid(project)]);
  }

  function PastParams(k: ProjectKey): seq<Value> {
    var t, tenant, project := Time(k.updatedAt), Uuid(k.tenant), Uuid(k.project);
    ([t] + ([t] + [tenant])) + (([t] + [tenant]) + [project])
  }

  lemma PastSqlKeeps(g: Project, k: ProjectKey)
    ensures |PastParams(k)| == Holes(PastSql())
    ensures Keeps(PastSql(), ProjectCells(g), PastParams(k)) <==> PastProject(k, g)
  {
    var row, t, tenant, project := ProjectCells(g), Time(k.updatedAt), Uuid(k.tenant), Uuid(k.project);
    var first, second := Compare(Lt, UpdatedAt), Binary(And, Compare(Eq, UpdatedAt), Compare(Lt, TenantId));
    var third := Binary(And, Binary(And, Compare(Eq, UpdatedAt), Compare(Eq, TenantId)), Compare(Lt, ProjectId));
    CompareKeeps(Lt, g, UpdatedAt, t);
    TieKeeps(Lt, g, k.updatedAt, k.tenant);
    ProjectTieKeeps(g, k.updatedAt, k.tenant, k.project);
    KeepsOr(first, second, row, [t], [t] + [tenant]);
    KeepsOr(Binary(Or, first, second), third, row, [t] + ([t] + [tenant]), ([t] + [tenant]) + [project]);
  }

  lemma ProjectCursorKeeps(g: Project, k: Option<ProjectKey>)
    ensures Holes(ProjectCursorSql()) == |ProjectCursorParams(k)|
    ensures Keeps(ProjectCursorSql(), ProjectCells(g), ProjectCursorParams(k)) <==> k.None? || PastProject(k.value, g)
  {
    var ps := ProjectCursorParams(k);
    PastSqlHoles(k);
    assert ps == [ps[0]] + ps[1..];
    KeepsMissing(ProjectCells(g), ps[0]);
    KeepsOr(Unary(IsNull, Param), PastSql(), ProjectCells(g), [ps[0]], ps[1..]);
    if k.Some? {
      PastSqlKeeps(g, k.value);
      assert ps[1..] == PastParams(k.value);
    }
  }

  lemma TextOrders()
    ensures WeakOrder(HigherTenant) && WeakOrder(HigherProject)
  {
    LessIsOrder();
    forall a: Project, b: Project, c: Project
      ensures !HigherTenant(a, a) && (HigherTenant(a, b) && HigherTenant(b, c) ==> HigherTenant(a, c))
      ensures !HigherTenant(a, b) && !HigherTenant(b, c) ==> !HigherTenant(a, c)
    {
      assert Less(c.key.0, b.key.0) && Less(b.key.0, a.key.0) ==> Less(c.key.0, a.key.0);
      assert !Less(c.key.0, b.key.0) && !Less(b.key.0, a.key.0) ==> !Less(c.key.0, a.key.0);
    }
    forall a: Project, b: Project, c: Project
      ensures !HigherProject(a, a) && (HigherProject(a, b) && HigherProject(b, c) ==> HigherProject(a, c))
      ensures !HigherProject(a, b) && !HigherProject(b, c) ==> !HigherProject(a, c)
    {
      assert Less(c.key.1, b.key.1) && Less(b.key.1, a.key.1) ==> Less(c.key.1, a.key.1);
      assert !Less(c.key.1, b.key.1) && !Less(b.key.1, a.key.1) ==> !Less(c.key.1, a.key.1);
    }
  }

  lemma LatestProjectsIsOrder()
    ensures WeakOrder(LatestProjects())
  {
    TextOrders();
    ThenIsOrder(HigherTenant, HigherProject);
    ThenIsOrder(LaterProject, Then(HigherTenant, HigherProject));
  }

  lemma LatestProjectsAt(a: Project, b: Project)
    ensures PastProject(ProjectKeyOf(a), b) <==> LatestProjects()(a, b)
    ensures a != b ==> LatestProjects()(a, b) || LatestProjects()(b, a)
  {
    LessTotal(a.key.0, b.key.0);
    LessTotal(a.key.1, b.key.1);
    LessIsOrder();
    var low := Then(HigherTenant, HigherProject);
    assert low(a, b) == (HigherTenant(a, b) || (!HigherTenant(b, a) && HigherProject(a, b)));
    assert low(b, a) == (HigherTenant(b, a) || (!HigherTenant(a, b) && HigherProject(b, a)));
    assert LatestProjects()(a, b) == (LaterProject(a, b) || (!LaterProject(b, a) && low(a, b)));
    assert LatestProjects()(b, a) == (LaterProject(b, a) || (!LaterProject(a, b) && low(b, a)));
  }

  ghost predicate CanonicalKeys(f: Formats, specs: seq<Spec>) {
    forall s :: s in specs ==> CanonicalId(f, s.tenant) && CanonicalId(f, s.project)
  }

  function ListedProjects(
      caller: Option<Caller>, tenant: Option<string>, project: Option<string>, specs: seq<Spec>): seq<Project>
  {
    Projects(Listed(caller, tenant, project, specs))
  }

  lemma ProjectsDistinct(specs: seq<Spec>)
    ensures Distinct(Projects(specs))
  {
    ProjectsExact(specs, Group(("", ""), 0));
  }

  lemma ProjectIsCanonical(
      f: Formats, caller: Option<Caller>, tenant: Option<string>, project: Option<string>, specs: seq<Spec>, g: Project)
    requires CanonicalKeys(f, specs) && g in ListedProjects(caller, tenant, project, specs)
    ensures CanonicalId(f, g.key.0) && CanonicalId(f, g.key.1)
  {
    ProjectsExact(Listed(caller, tenant, project, specs), g);
    FilterMembers((s: Spec) => MayList(caller, tenant, project, s), specs);
  }

  lemma ProjectsAreSound(
      f: Formats, caller: Option<Caller>, tenant: Option<string>, project: Option<string>, specs: seq<Spec>)
    requires Faithful(f) && CanonicalKeys(f, specs)
    ensures Sound(ProjectListing(f), ListedProjects(caller, tenant, project, specs))
  {
    var l, rows := ProjectListing(f), ListedProjects(caller, tenant, project, specs);
    LatestProjectsIsOrder();
    ProjectsDistinct(Listed(caller, tenant, project, specs));
    forall a, b | a in rows && b in rows
      ensures a != b ==> l.before(a, b) || l.before(b, a)
      ensures l.after(l.key(a), b) <==> l.before(a, b)
    {
      LatestProjectsAt(a, b);
    }
    forall r | r in rows
      ensures l.dec(Some(l.enc(l.key(r)))) == Ok(Some(l.key(r)))
    {
      ProjectIsCanonical(f, caller, tenant, project, specs, r);
      ProjectCursorRoundTrip(f, ProjectKeyOf(r));
    }
  }

  lemma AuthenticatedProjectPage(
      caller: Caller, tenant: Option<string>, project: Option<string>, k: Option<ProjectKey>, specs: seq<Spec>, n: nat,
      f: Formats)
    requires Faithful(f) && CanonicalKeys(f, specs)
    ensures
      RunAuthenticatedProjects(caller, tenant, project, k, specs, n)
      == Select(g => Beyond(ProjectListing(f), k, g), LatestProjects(),
        ListedProjects(Some(caller), tenant, project, specs), n)
  {
    var u, ps, qs := AuthenticatedUnion(caller), UnionParams(caller, tenant, project), ProjectCursorParams(k);
    UnionExact(caller, tenant, project, specs);
    PastSqlHoles(k);
    assert (ps + qs)[..|ps|] == ps && (ps + qs)[|ps|..] == qs;
    var outer := (g: Project) => Keeps(ProjectCursorSql(), ProjectCells(g), (ps + qs)[|ps|..]);
    forall g: Project ensures outer(g) == Beyond(ProjectListing(f), k, g) {
      ProjectCursorKeeps(g, k);
    }
    var fetched, rows := Projects(UnionRows(u, ps, specs)), ListedProjects(Some(caller), tenant, project, specs);
    ProjectsForgetOrder(UnionRows(u, ps, specs), Listed(Some(caller), tenant, project, specs));
    ProjectsAreSound(f, Some(caller), tenant, project, specs);
    SelectPermuted(outer, LatestProjects(), fetched, rows, n);
    SelectAgrees(outer, g => Beyond(ProjectListing(f), k, g), LatestProjects(), rows, n);
  }

  lemma AnonymousProjectPage(
      tenant: Option<string>, project: Option<string>, k: Option<ProjectKey>, specs: seq<Spec>, n: nat, f: Formats)
    ensures
      RunAnonymousProjects(tenant, project, k, specs, n)
      == Select(g => Beyond(ProjectListing(f), k, g), LatestProjects(), ListedProjects(None, tenant, project, specs), n)
  {
    var rows := (s: Spec) => PublicView(s) && Matches(tenant, s.tenant) && Matches(project, s.project);
    forall s: Spec ensures rows(s) <==> MayList(None, tenant, project, s) {
      LiveLabelKeeps(s, Public);
    }
    FilterAgree(rows, (s: Spec) => MayList(None, tenant, project, s), specs);
    SelectAgrees((g: Project) => k.None? || PastProject(k.value, g), g => Beyond(ProjectListing(f), k, g),
                 LatestProjects(), ListedProjects(None, tenant, project, specs), n);
  }

  lemma ProjectAnswerIsPage(
      f: Formats, caller: Option<Caller>, tenant: Option<string>, project: Option<string>, k: Option<ProjectKey>,
      specs: seq<Spec>, n: nat)
    requires Faithful(f) && CanonicalKeys(f, specs)
    ensures
      ProjectAnswer(f, caller, tenant, project, k, specs, n)
      == PageBeyond(ProjectListing(f), ListedProjects(caller, tenant, project, specs), k, n)
  {
    if caller.None? {
      AnonymousProjectPage(tenant, project, k, specs, n + 1, f);
    } else if caller.value.scope.denyAll {
      DeniedListsNothing(caller.value, tenant, project, specs);
    } else {
      AuthenticatedProjectPage(caller.value, tenant, project, k, specs, n + 1, f);
    }
  }

  /** Every answer of `project.list` is the page of exactly the projects that caller may list. */
  lemma ProjectListServes(
      f: Formats, caller: Option<Caller>, tenant: Option<string>, project: Option<string>, specs: seq<Spec>)
    requires Faithful(f) && CanonicalKeys(f, specs)
    ensures
      Serves(ProjectEndpoint(f, caller, tenant, project, specs), ProjectListing(f),
      ListedProjects(caller, tenant, project, specs))
  {
    forall limit, cursor
      ensures ProjectList(f, caller, tenant, project, limit, cursor, specs)
              == Fetch(ProjectListing(f), ListedProjects(caller, tenant, project, specs), limit, cursor)
    {
      var a := (k, n) => ProjectAnswer(f, caller, tenant, project, k, specs, n);
      var b := (k, n) => PageBeyond(ProjectListing(f), ListedProjects(caller, tenant, project, specs), k, n);
      forall k, n ensures a(k, n) == b(k, n) {
        ProjectAnswerIsPage(f, caller, tenant, project, k, specs, n);
      }
    }
  }

  /** Following `next_cursor` to the end yields every project once, in the three-key order. */
  lemma ProjectTraversal(
      f: Formats, caller: Option<Caller>, tenant: Option<string>, project: Option<string>, specs: seq<Spec>,
      limits: seq<Option<int>>, pages: seq<Page<Project>>)
    requires Faithful(f) && CanonicalKeys(f, specs)
    requires Follows(ProjectEndpoint(f, caller, tenant, project, specs), None, limits, pages)
    ensures
      var rows := ListedProjects(caller, tenant, project, specs);
      && Sorted(LatestProjects(), Items(pages)) && multiset(Items(pages)) == multiset(rows) && OneEach(rows)
      && (forall n :: AllOf(limits, n) ==> JustEnough(|pages|, |rows|, n))
      && (forall g :: g in Items(pages) <==> IsLatest(Listed(caller, tenant, project, specs), g))
    ensures forall i, j :: 0 <= i < j < |Items(pages)| ==> !ComesBefore(Items(pages)[j], Items(pages)[i])
  {
    var ask, l, rows := ProjectEndpoint(f, caller, tenant, project, specs), ProjectListing(f),
      ListedProjects(caller, tenant, project, specs);
    ProjectListServes(f, caller, tenant, project, specs);
    ProjectsAreSound(f, caller, tenant, project, specs);
    TraversalIsComplete(ask, l, rows, limits, pages);
    forall n | AllOf(limits, n) ensures JustEnough(|pages|, |rows|, n) {
      TraversalLength(ask, l, rows, limits, pages, n);
    }
    ProjectsExact(Listed(caller, tenant, project, specs), Group(("", ""), 0));
    forall g ensures g in Items(pages) <==> IsLatest(Listed(caller, tenant, project, specs), g) {
      assert g in multiset(Items(pages)) <==> g in multiset(rows);
      ProjectsExact(Listed(caller, tenant, project, specs), g);
    }
    var items := Items(pages);
    forall i, j | 0 <= i < j < |items| ensures !ComesBefore(items[j], items[i]) {
      OrderedByTime(items[j], items[i]);
    }
  }

  /** The later activity comes first, then the higher tenant, then the higher project. */
  predicate ComesBefore(a: Project, b: Project) {
    || a.value > b.value
    || (a.value == b.value && Less(b.key.0, a.key.0))
    || (a.value == b.value && a.key.0 == b.key.0 && Less(b.key.1, a.key.1))
  }

  lemma OrderedByTime(a: Project, b: Project)
    ensures ComesBefore(a, b) ==> LatestProjects()(a, b)
  {
    var low := Then(HigherTenant, HigherProject);
    assert low(a, b) == (HigherTenant(a, b) || (!HigherTenant(b, a) && HigherProject(a, b)));
    assert LatestProjects()(a, b) == (LaterProject(a, b) || (!LaterProject(b, a) && low(a, b)));
    LessIrreflexive(a.key.0);
  }
}
