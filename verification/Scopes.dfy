/** The read scope of an API key and its stored JSON form. */
module Scopes {
  import opened Prelude
  import opened Json

  datatype Scope = Scope(tenants: seq<string>, projects: seq<string>, denyAll: bool)

  const UNRESTRICTED := Scope([], [], false)
  const DENY_ALL := Scope([], [], true)

  predicate Allows(scope: Scope, tenant: string, project: Option<string>) {
    if scope.denyAll then false
    else if scope.tenants != [] && tenant !in scope.tenants then false
    else if scope.projects != [] && (project.None? || project.value !in scope.projects) then false
    else true
  }

  function ToJson(scope: Scope): Json {
    Obj(map["tenants" := Arr(Texts(scope.tenants)), "projects" := Arr(Texts(scope.projects))])
  }

  function Texts(xs: seq<string>): seq<Json> {
    seq(|xs|, i requires 0 <= i < |xs| => Str(xs[i]))
  }

  /** The string items of a list; others are dropped silently. */
  function StringItems(items: seq<Json>): seq<string> {
    if items == [] then []
    else if items[0].Str? then [items[0].s] + StringItems(items[1..])
    else StringItems(items[1..])
  }

  predicate ListOrMissing(j: Json) {
    j.Null? || j.Arr?
  }

  function ParseScope(raw: Json): Scope {
    if raw.Null? then UNRESTRICTED
    else if !raw.Obj? then DENY_ALL
    else
      var tenants, projects := Get(raw.fields, "tenants"), Get(raw.fields, "projects");
      if !ListOrMissing(tenants) || !ListOrMissing(projects) then DENY_ALL
      else Scope(if tenants.Arr? then StringItems(tenants.items) else [],
                 if projects.Arr? then StringItems(projects.items) else [],
                 false)
  }

  lemma {:induction false} StringItemsOfTexts(xs: seq<string>)
    ensures StringItems(Texts(xs)) == xs
  {
    if xs != [] {
      StringItemsOfTexts(xs[1..]);
      assert Texts(xs)[1..] == Texts(xs[1..]);
    }
  }

  /** Storing a scope and reading it back gives the scope, unless it denied everything. */
  lemma StoredScopeExact(scope: Scope)
    ensures ParseScope(ToJson(scope)) == scope <==> !scope.denyAll
  {
    var fields := ToJson(scope).fields;
    assert "tenants" != "projects";
    assert Get(fields, "tenants") == Arr(Texts(scope.tenants));
    assert Get(fields, "projects") == Arr(Texts(scope.projects));
    StringItemsOfTexts(scope.tenants);
    StringItemsOfTexts(scope.projects);
  }

  /** What a stored denial turns into: it reads back as the scope that allows everything. */
  lemma StoredDenialAllows(tenant: string, project: Option<string>)
    ensures !Allows(DENY_ALL, tenant, project) && Allows(ParseScope(ToJson(DENY_ALL)), tenant, project)
  {
    StringItemsOfTexts([]);
    var fields := ToJson(DENY_ALL).fields;
    assert "tenants" != "projects";
    assert Get(fields, "tenants") == Arr(Texts([])) && Get(fields, "projects") == Arr(Texts([]));
  }

  lemma {:induction false} StringItemsMembers(items: seq<Json>, x: string)
    ensures x in StringItems(items) <==> Str(x) in items
    ensures StringItems(items) == [] <==> forall j :: j in items ==> !j.Str?
  {
    if items != [] {
      StringItemsMembers(items[1..], x);
      assert items == [items[0]] + items[1..];
    }
  }

  /** A stored list restricts its side: it lets `x` through when it names it or names nothing. */
  ghost predicate Admits(list: Json, x: string) {
    list.Null? || (list.Arr? && (Str(x) in list.items || forall j :: j in list.items ==> !j.Str?))
  }

  /** A list of numbers restricts nothing: `{"tenants": [1]}` is meant for some tenant and lets all through. */
  lemma ListWithoutNamesAllows(n: int, tenant: string, project: string)
    ensures
      var raw := Obj(map["tenants" := Arr([Num(n)])]);
      ParseScope(raw) == UNRESTRICTED && Allows(ParseScope(raw), tenant, Some(project))
  {
    assert "tenants" != "projects";
    StringItemsMembers([Num(n)], tenant);
  }

  /** What a stored scope lets through, read off the JSON itself. */
  lemma ParsedScopeAllows(raw: Json, tenant: string, project: string)
    ensures
      Allows(ParseScope(raw), tenant, Some(project)) <==>
        raw.Null? ||
        (raw.Obj? && Admits(Get(raw.fields, "tenants"), tenant) && Admits(Get(raw.fields, "projects"), project))
  {
    if raw.Obj? {
      var tenants, projects := Get(raw.fields, "tenants"), Get(raw.fields, "projects");
      if ListOrMissing(tenants) && ListOrMissing(projects) {
        if tenants.Arr? { StringItemsMembers(tenants.items, tenant); }
        if projects.Arr? { StringItemsMembers(projects.items, project); }
      }
    }
  }
}
