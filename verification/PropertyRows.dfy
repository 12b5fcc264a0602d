/** The capped table of schema properties shown for a repository file. */
module PropertyRows {
  import opened Prelude
  import opened Sorting
  import opened Filters
  import opened StableJson
  import opened SchemaDiff

  /** One row; its wording is computed from the property node. */
  datatype PropertyRow = PropertyRow(context: string, name: string, node: JsValue, required: bool)

  predicate Required(schema: JsValue, name: string) {
    var req := FieldOf(schema, "required");
    req.Some? && req.value.JArr? && JStr(name) in req.value.items
  }

  function SortedNames(e: Entries): seq<string> {
    Sort(Less, e.keys)
  }

  /** The rows of one schema, its properties sorted. A key that is listed has a value. */
  function RowsOf(schemas: Entries, context: string, names: seq<string>): seq<PropertyRow> {
    if names == [] then []
    else
      var init, name, schema := names[..|names| - 1], names[|names| - 1], Member(schemas, context);
      var node := Member(Properties(schema), name);
      RowsOf(schemas, context, init) +
      if schema.Some? && node.Some? then [PropertyRow(context, name, node.value, Required(schema.value, name))] else []
  }

  function ContextRows(schemas: Entries, context: string): seq<PropertyRow> {
    RowsOf(schemas, context, SortedNames(Properties(Member(schemas, context))))
  }

  /** Every property of every schema, in order. */
  function AllRows(schemas: Entries, contexts: seq<string>): seq<PropertyRow> {
    if contexts == [] then []
      else AllRows(schemas, contexts[..|contexts| - 1]) + ContextRows(schemas, contexts[|contexts| - 1])
  }

  /** The row budget, shared by reference. */
  class Budget {
    var left: int

    constructor (left: int)
      ensures this.left == left
    {
      this.left := left;
    }
  }

  function Room(left: int): nat {
    if left < 0 then 0 else left
  }

  /** The nested loop: it stops at the first row there is no room for. */
  method CollectSchemaPropertyRows(schemas: Entries, budget: Budget) returns (rows: seq<PropertyRow>, truncated: bool)
    requires TidySchemas(schemas)
    modifies budget
    ensures
      var all := AllRows(schemas, SortedNames(schemas));
      && rows == Take(Room(old(budget.left)), all)
      && (truncated <==> |all| > Room(old(budget.left)))
      && budget.left == old(budget.left) - |rows|
  {
    rows := [];
    ghost var start := budget.left;
    var contexts := SortedNames(schemas);
    var i := 0;
    while i < |contexts|
      invariant 0 <= i <= |contexts|
      invariant rows == AllRows(schemas, contexts[..i])
      invariant Spent(start, budget.left, |rows|)
    {
      var stopped;
      rows, stopped := CollectOne(schemas, contexts[i], rows, start, budget);
      assert contexts[..i + 1][..i] == contexts[..i];
      AllRowsStart(schemas, contexts, i + 1);
      if stopped {
        return rows, true;
      }
      i := i + 1;
    }
    assert contexts[..i] == contexts;
    return rows, false;
  }

  ghost predicate Spent(start: int, left: int, rows: nat) {
    left == start - rows && rows <= Room(start)
  }

  method CollectOne(schemas: Entries, context: string, before: seq<PropertyRow>, ghost start: int, budget: Budget)
    returns (rows: seq<PropertyRow>, stopped: bool)
    requires TidySchemas(schemas) && Spent(start, budget.left, |before|)
    modifies budget
    ensures Spent(start, budget.left, |rows|)
    ensures !stopped ==> rows == before + ContextRows(schemas, context)
    ensures stopped ==>
      && |rows| == Room(start) < |before + ContextRows(schemas, context)|
      && rows == (before + ContextRows(schemas, context))[..|rows|]
  {
    rows := before;
    stopped := false;
    var schema := Member(schemas, context);
    var props := Properties(schema);
    var names := SortedNames(props);
    SortMembers(Less, props.keys);
    var i := 0;
    while i < |names|
      invariant 0 <= i <= |names|
      invariant rows == before + RowsOf(schemas, context, names[..i])
      invariant Spent(start, budget.left, |rows|)
    {
      var name := names[i];
      assert name in names && name in props.at;
      OneMoreRow(schemas, context, names, i);
      if budget.left <= 0 {
        MoreRowsLeft(schemas, context, names, before, i);
        return rows, true;
      }
      rows := rows + [PropertyRow(context, name, props.at[name], Required(schema.value, name))];
      budget.left := budget.left - 1;
      i := i + 1;
    }
    assert names[..i] == names;
  }

  /** Stopped before row `i`, the collected rows are a proper start of all. */
  lemma MoreRowsLeft(schemas: Entries, context: string, names: seq<string>, before: seq<PropertyRow>, i: nat)
    requires i < |names| && Member(Properties(Member(schemas, context)), names[i]).Some?
    ensures
      var rows, all := before + RowsOf(schemas, context, names[..i]), before + RowsOf(schemas, context, names);
      |rows| < |all| && rows == all[..|rows|]
  {
    OneMoreRow(schemas, context, names, i);
    RowsStart(schemas, context, names, i);
    RowsStart(schemas, context, names, i + 1);
    StartOfBoth(before, RowsOf(schemas, context, names[..i]), RowsOf(schemas, context, names));
  }

  lemma OneMoreRow(schemas: Entries, context: string, names: seq<string>, i: nat)
    requires i < |names| && Member(Properties(Member(schemas, context)), names[i]).Some?
    ensures
      var schema := Member(schemas, context);
      && schema.Some?
      && RowsOf(schemas, context, names[..i + 1])
         == RowsOf(schemas, context, names[..i])
            + [PropertyRow(context, names[i], Properties(schema).at[names[i]], Required(schema.value, names[i]))]
  {
    assert names[..i + 1][..i] == names[..i];
  }

  lemma StartOfBoth(before: seq<PropertyRow>, some: seq<PropertyRow>, all: seq<PropertyRow>)
    requires |some| <= |all| && some == all[..|some|]
    ensures before + some == (before + all)[..|before + some|]
  {}

  lemma {:induction false} RowsStart(schemas: Entries, context: string, names: seq<string>, i: nat)
    requires i <= |names|
    ensures
      var some, all := RowsOf(schemas, context, names[..i]), RowsOf(schemas, context, names);
      |some| <= |all| && some == all[..|some|]
    decreases |names| - i
  {
    if i == |names| {
      assert names[..i] == names;
    } else {
      assert names[..i + 1][..i] == names[..i];
      RowsStart(schemas, context, names, i + 1);
    }
  }

  lemma {:induction false} AllRowsStart(schemas: Entries, contexts: seq<string>, i: nat)
    requires i <= |contexts|
    ensures
      var some, all := AllRows(schemas, contexts[..i]), AllRows(schemas, contexts);
      |some| <= |all| && some == all[..|some|]
    decreases |contexts| - i
  {
    if i == |contexts| {
      assert contexts[..i] == contexts;
    } else {
      assert contexts[..i + 1][..i] == contexts[..i];
      AllRowsStart(schemas, contexts, i + 1);
    }
  }

  function TakeCap<T>(rows: seq<T>, cap: nat): (seq<T>, bool) {
    if |rows| <= cap then (rows, false) else (rows[..cap], true)
  }

  /** The table as shown: collected with a budget of `cap`, then capped again. */
  method PropertyTableRows(schemas: Entries, cap: nat) returns (rows: seq<PropertyRow>, truncated: bool)
    requires TidySchemas(schemas)
    ensures
      var all := AllRows(schemas, SortedNames(schemas));
      rows == Take(cap, all) && (truncated <==> |all| > cap)
  {
    var budget := new Budget(cap);
    var collected, cut := CollectSchemaPropertyRows(schemas, budget);
    var capped := TakeCap(collected, cap);
    return capped.0, cut || capped.1;
  }

  /** By schema, then by property. */
  predicate Earlier(x: PropertyRow, y: PropertyRow) {
    Less(x.context, y.context) || (x.context == y.context && Less(x.name, y.name))
  }

  ghost predicate Increasing(rows: seq<PropertyRow>) {
    forall i, j :: 0 <= i < j < |rows| ==> Earlier(rows[i], rows[j])
  }

  ghost predicate IncreasingNames(names: seq<string>) {
    forall i, j :: 0 <= i < j < |names| ==> Less(names[i], names[j])
  }

  lemma SortedNamesIncrease(e: Entries)
    requires Tidy(e)
    ensures IncreasingNames(SortedNames(e)) && forall n :: n in SortedNames(e) <==> n in e.at
  {
    var names := SortedNames(e);
    LessIsOrder();
    SortSorts(Less, e.keys);
    SortMembers(Less, e.keys);
    NamesDistinct(e);
    forall i, j | 0 <= i < j < |names| ensures Less(names[i], names[j]) {
      LessTotal(names[i], names[j]);
    }
  }

  lemma NamesDistinct(e: Entries)
    requires Tidy(e)
    ensures Distinct(SortedNames(e))
  {
    SortDistinct(Less, e.keys);
  }

  lemma {:induction false} RowsMembers(schemas: Entries, context: string, names: seq<string>)
    ensures forall r :: r in RowsOf(schemas, context, names) ==> r.context == context && r.name in names
  {
    if names != [] {
      RowsMembers(schemas, context, names[..|names| - 1]);
    }
  }

  lemma {:induction false} RowsIncrease(schemas: Entries, context: string, names: seq<string>)
    requires IncreasingNames(names)
    ensures Increasing(RowsOf(schemas, context, names))
  {
    if names != [] {
      var init := names[..|names| - 1];
      RowsIncrease(schemas, context, init);
      RowsMembers(schemas, context, init);
      var before := RowsOf(schemas, context, init);
      forall i | 0 <= i < |before| ensures before[i].context == context && Less(before[i].name, names[|names| - 1]) {
        assert before[i] in before;
      }
    }
  }

  lemma {:induction false} AllRowsMembers(schemas: Entries, contexts: seq<string>)
    ensures forall r :: r in AllRows(schemas, contexts) ==> r.context in contexts
  {
    if contexts != [] {
      var context := contexts[|contexts| - 1];
      AllRowsMembers(schemas, contexts[..|contexts| - 1]);
      RowsMembers(schemas, context, SortedNames(Properties(Member(schemas, context))));
    }
  }

  lemma {:induction false} AllRowsIncrease(schemas: Entries, contexts: seq<string>)
    requires TidySchemas(schemas) && IncreasingNames(contexts)
    ensures Increasing(AllRows(schemas, contexts))
  {
    if contexts != [] {
      var init, context := contexts[..|contexts| - 1], contexts[|contexts| - 1];
      var names := SortedNames(Properties(Member(schemas, context)));
      AllRowsIncrease(schemas, init);
      AllRowsMembers(schemas, init);
      SortedNamesIncrease(Properties(Member(schemas, context)));
      RowsIncrease(schemas, context, names);
      RowsMembers(schemas, context, names);
      var before, more := AllRows(schemas, init), ContextRows(schemas, context);
      forall i, j | 0 <= i < |before| && 0 <= j < |more| ensures Earlier(before[i], more[j]) {
        assert before[i] in before && more[j] in more;
      }
    }
  }

  /** The full table is strictly sorted by schema and property, so a capped one is its least part. */
  lemma TableIsSorted(schemas: Entries)
    requires TidySchemas(schemas)
    ensures Increasing(AllRows(schemas, SortedNames(schemas)))
  {
    SortedNamesIncrease(schemas);
    AllRowsIncrease(schemas, SortedNames(schemas));
  }

  // ---- What a row holds ----

  /** The property of the schema, and whether the schema's list of required names has it. */
  ghost predicate IsRow(schemas: Entries, r: PropertyRow) {
    r.context in schemas.at &&
    var schema := schemas.at[r.context];
    && (exists props: JsValue :: FieldOf(schema, "properties") == Some(props) && props.JObj?
                        && r.name in props.at && props.at[r.name] == r.node)
    && (r.required
      <==> exists items: seq<JsValue> :: FieldOf(schema, "required") == Some(JArr(items)) && JStr(r.name) in items)
  }

  lemma {:induction false} RowsOfExact(schemas: Entries, context: string, names: seq<string>, r: PropertyRow)
    ensures r in RowsOf(schemas, context, names) <==> r.context == context && r.name in names && IsRow(schemas, r)
  {
    if names != [] {
      var init, last := names[..|names| - 1], names[|names| - 1];
      assert names == init + [last];
      RowsOfExact(schemas, context, init, r);
    }
  }

  lemma {:induction false} AllRowsExact(schemas: Entries, contexts: seq<string>, r: PropertyRow)
    ensures
      r in AllRows(schemas, contexts) <==>
        r.context in contexts && r.name in SortedNames(Properties(Member(schemas, r.context))) && IsRow(schemas, r)
  {
    if contexts != [] {
      var init, last := contexts[..|contexts| - 1], contexts[|contexts| - 1];
      assert contexts == init + [last];
      AllRowsExact(schemas, init, r);
      RowsOfExact(schemas, last, SortedNames(Properties(Member(schemas, last))), r);
    }
  }

  /** The full table has one row for each property of each schema, and no other. */
  lemma TableExact(schemas: Entries, r: PropertyRow)
    requires TidySchemas(schemas)
    ensures r in AllRows(schemas, SortedNames(schemas)) <==> IsRow(schemas, r)
  {
    AllRowsExact(schemas, SortedNames(schemas), r);
    SortedNamesIncrease(schemas);
    SortedNamesIncrease(Properties(Member(schemas, r.context)));
  }
}
