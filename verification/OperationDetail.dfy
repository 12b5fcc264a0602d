/**
 * Operation fragments of an OpenAPI document: the path-item reference chain, the merge of
 * path-item and operation parameters (section 4.8.9 of OpenAPI 3.1.0), and the fragments
 * `spec.describe_operation` returns.
 */
module OperationDetail {
  import opened Prelude
  import opened Json
  import opened JsonPointer
  import opened RefResolver

  // ---- Path-item references ----

  /** Expand a chain of `$ref`-only path items; a broken or cyclic chain gives nothing. */
  function PathItem(spec: Json, cur: Json, stack: set<string>): Option<map<string, Json>>
    decreases (Refs(spec) + Refs(cur)) - stack
  {
    if !cur.Obj? then None
    else if REF !in cur.fields then Some(cur.fields)
    else
      match InternalRef(cur)
      case None => None
      case Some(ref) =>
        var next := Follow(spec, ref);
        if ref in stack || !next.Obj? then None
        else
          RefsOfTarget(spec, ref);
          assert ref in (Refs(spec) + Refs(cur)) - stack;
          PathItem(spec, next, stack + {ref})
  }

  method FollowPathItem(spec: Json, raw: Json) returns (item: Option<map<string, Json>>)
    ensures item == PathItem(spec, raw, {})
  {
    var cur, stack := raw, {};
    while cur.Obj? && REF in cur.fields
      invariant PathItem(spec, cur, stack) == PathItem(spec, raw, {})
      decreases (Refs(spec) + Refs(cur)) - stack
    {
      var value := cur.fields[REF];
      if !value.Str? || !StartsWith(value.s, "#/") {
        return None;
      }
      var ref := value.s;
      if ref in stack {
        return None;
      }
      var next := FollowPointer(spec, ref);
      if !next.Obj? {
        return None;
      }
      ExpansionShrinks(spec, cur, stack, next);
      cur, stack := next, stack + {ref};
    }
    item := if cur.Obj? then Some(cur.fields) else None;
  }

  /** Following `refs` one after the other leads from `cur` to a path item with no `$ref` of its own. */
  ghost predicate Chain(spec: Json, cur: Json, refs: seq<string>, item: map<string, Json>)
    decreases |refs|
  {
    if refs == [] then cur == Obj(item) && REF !in item
    else InternalRef(cur) == Some(refs[0]) && Chain(spec, Follow(spec, refs[0]), refs[1..], item)
  }

  lemma {:induction false} ChainIsUnique(
      spec: Json, cur: Json, a: seq<string>, b: seq<string>, item: map<string, Json>, other: map<string, Json>)
    requires Chain(spec, cur, a, item) && Chain(spec, cur, b, other)
    ensures a == b && item == other
    decreases |a|
  {
    if a != [] && b != [] {
      ChainIsUnique(spec, Follow(spec, a[0]), a[1..], b[1..], item, other);
      assert a == [a[0]] + a[1..] && b == [b[0]] + b[1..];
    }
  }

  /** No ref is followed twice, and none that is on the stack. */
  ghost predicate Fresh(refs: seq<string>, stack: set<string>) {
    && (forall i, j :: 0 <= i < j < |refs| ==> refs[i] != refs[j])
    && forall i :: 0 <= i < |refs| ==> refs[i] !in stack
  }

  lemma {:induction false} PathItemHasChain(spec: Json, cur: Json, stack: set<string>) returns (refs: seq<string>)
    requires PathItem(spec, cur, stack).Some?
    ensures Chain(spec, cur, refs, PathItem(spec, cur, stack).value) && Fresh(refs, stack)
    decreases (Refs(spec) + Refs(cur)) - stack
  {
    if REF !in cur.fields {
      refs := [];
    } else {
      var ref := InternalRef(cur).value;
      ExpansionShrinks(spec, cur, stack, Follow(spec, ref));
      var rest := PathItemHasChain(spec, Follow(spec, ref), stack + {ref});
      refs := [ref] + rest;
      assert refs[1..] == rest;
    }
  }

  /** The target of `s` is at least as many steps from the item as `steps`. */
  ghost predicate Farther(spec: Json, s: string, steps: nat, item: map<string, Json>) {
    exists refs :: |refs| >= steps && Chain(spec, Follow(spec, s), refs, item)
  }

  lemma {:induction false} ChainIsFollowed(
      spec: Json, cur: Json, refs: seq<string>, stack: set<string>, item: map<string, Json>)
    requires Chain(spec, cur, refs, item)
    requires forall s :: s in stack ==> Farther(spec, s, |refs|, item)
    ensures PathItem(spec, cur, stack) == Some(item)
    decreases |refs|
  {
    if refs != [] {
      var ref, next := refs[0], Follow(spec, refs[0]);
      if ref in stack {
        var longer :| |longer| >= |refs| && Chain(spec, next, longer, item);
        ChainIsUnique(spec, next, longer, refs[1..], item, item);
        assert false;
      }
      assert next.Obj? by {
        if |refs| > 1 { assert InternalRef(next).Some?; }
      }
      forall s | s in stack + {ref}
        ensures Farther(spec, s, |refs[1..]|, item)
      {
        if s == ref {
          assert Chain(spec, next, refs[1..], item);
        } else {
          var longer :| |longer| >= |refs| && Chain(spec, Follow(spec, s), longer, item);
        }
      }
      ChainIsFollowed(spec, next, refs[1..], stack + {ref}, item);
    }
  }

  ghost predicate LeadsTo(spec: Json, raw: Json, item: map<string, Json>) {
    exists refs :: Chain(spec, raw, refs, item)
  }

  /**
   * The cycle check costs nothing: an item is found exactly when some chain of refs ends in it. The
   * chain never repeats a ref, and it is the only one from there.
   */
  lemma PathItemExact(spec: Json, raw: Json, item: map<string, Json>)
    ensures PathItem(spec, raw, {}) == Some(item) <==> LeadsTo(spec, raw, item)
    ensures forall refs :: Chain(spec, raw, refs, item) ==> Fresh(refs, {})
    ensures forall a, b, other :: Chain(spec, raw, a, item) && Chain(spec, raw, b, other) ==> a == b && item == other
  {
    if PathItem(spec, raw, {}) == Some(item) {
      var refs := PathItemHasChain(spec, raw, {});
    }
    forall refs | Chain(spec, raw, refs, item)
      ensures PathItem(spec, raw, {}) == Some(item) && Fresh(refs, {})
    {
      ChainIsFollowed(spec, raw, refs, {}, item);
      var found := PathItemHasChain(spec, raw, {});
      ChainIsUnique(spec, raw, refs, found, item, item);
    }
    forall a, b, other | Chain(spec, raw, a, item) && Chain(spec, raw, b, other)
      ensures a == b && item == other
    {
      ChainIsUnique(spec, raw, a, b, item, other);
    }
  }

  // ---- Parameters ----

  datatype ParamKey = ParamKey(name: string, location: string)

  /** Only an object with text for both `name` and `in` can be overridden. */
  function KeyOf(p: Json): Option<ParamKey> {
    if p.Obj? && Get(p.fields, "name").Str? && Get(p.fields, "in").Str?
    then Some(ParamKey(Get(p.fields, "name").s, Get(p.fields, "in").s))
    else None
  }

  datatype Slot = Keyed(key: ParamKey) | Plain(p: Json)

  function SlotOf(p: Json): Slot {
    if KeyOf(p).Some? then Keyed(KeyOf(p).value) else Plain(p)
  }

  /** Places in the merged list: one for each key, where it first occurs, and one for each plain item. */
  function Slots(ps: seq<Json>): seq<Slot> {
    if ps == [] then []
    else
      var rest, slot := Slots(ps[..|ps| - 1]), SlotOf(ps[|ps| - 1]);
      if slot.Keyed? && slot in rest then rest else rest + [slot]
  }

  /** The last parameter with a key. */
  function Last(ps: seq<Json>, key: ParamKey): Option<Json> {
    if ps == [] then None
    else if KeyOf(ps[|ps| - 1]) == Some(key) then Some(ps[|ps| - 1])
    else Last(ps[..|ps| - 1], key)
  }

  function Fill(slot: Slot, ps: seq<Json>): Json {
    match slot
    case Plain(p) => p
    case Keyed(key) => if Last(ps, key).Some? then Last(ps, key).value else Null
  }

  /** Every place is taken by the last parameter that has its key. */
  function Merged(ps: seq<Json>): seq<Json> {
    var slots := Slots(ps);
    seq(|slots|, i requires 0 <= i < |slots| => Fill(slots[i], ps))
  }

  function ListAt(fields: map<string, Json>, key: string): seq<Json> {
    if Get(fields, key).Arr? then Get(fields, key).items else []
  }

  method MergeParameters(pathItem: map<string, Json>, operation: map<string, Json>) returns (out: seq<Json>)
    ensures out == Merged(ListAt(pathItem, "parameters") + ListAt(operation, "parameters"))
  {
    var combined := ListAt(pathItem, "parameters") + ListAt(operation, "parameters");
    var seen: map<ParamKey, nat> := map[];
    out := [];
    for i := 0 to |combined|
      invariant Merging(combined[..i], seen, out)
    {
      var p := combined[i];
      ghost var before, after := combined[..i], combined[..i + 1];
      assert after[..i] == before && after[i] == p;
      if !p.Obj? {
        MergePlain(before, after, seen, out);
        out := out + [p];
      } else {
        var name, location := Get(p.fields, "name"), Get(p.fields, "in");
        if name.Str? && location.Str? {
          var key := ParamKey(name.s, location.s);
          if key in seen {
            MergeOver(before, after, seen, out, key);
            out := out[seen[key] := p];
          } else {
            MergeNew(before, after, seen, out, key);
            seen := seen[key := |out|];
            out := out + [p];
          }
        } else {
          MergePlain(before, after, seen, out);
          out := out + [p];
        }
      }
    }
    assert combined[..|combined|] == combined;
  }

  /** What the loop holds after the parameters `ps`: their merge, and where each key stands in it. */
  ghost predicate Merging(ps: seq<Json>, seen: map<ParamKey, nat>, out: seq<Json>) {
    && out == Merged(ps)
    && (forall k :: k in seen <==> Keyed(k) in Slots(ps))
    && forall k :: k in seen ==> seen[k] < |out| && Slots(ps)[seen[k]] == Keyed(k)
  }

  lemma MergePlain(before: seq<Json>, after: seq<Json>, seen: map<ParamKey, nat>, out: seq<Json>)
    requires |after| == |before| + 1 && after[..|before|] == before && KeyOf(after[|before|]).None?
    requires Merging(before, seen, out)
    ensures Merging(after, seen, out + [after[|before|]])
  {
    PlainStep(before, after);
  }

  lemma MergeOver(
      before: seq<Json>, after: seq<Json>, seen: map<ParamKey, nat>, out: seq<Json>, key: ParamKey)
    requires |after| == |before| + 1 && after[..|before|] == before && KeyOf(after[|before|]) == Some(key)
    requires Merging(before, seen, out) && key in seen
    ensures seen[key] < |out| && Merging(after, seen, out[seen[key] := after[|before|]])
  {
    KeyedStep(before, after, key);
    OverwriteStep(before, after, key, seen[key]);
  }

  lemma MergeNew(
      before: seq<Json>, after: seq<Json>, seen: map<ParamKey, nat>, out: seq<Json>, key: ParamKey)
    requires |after| == |before| + 1 && after[..|before|] == before && KeyOf(after[|before|]) == Some(key)
    requires Merging(before, seen, out) && key !in seen
    ensures Merging(after, seen[key := |out|], out + [after[|before|]])
  {
    KeyedStep(before, after, key);
    AppendStep(before, after, key);
  }

  lemma PlainStep(before: seq<Json>, after: seq<Json>)
    requires |after| == |before| + 1 && after[..|before|] == before && KeyOf(after[|before|]).None?
    ensures Slots(after) == Slots(before) + [Plain(after[|before|])]
    ensures Merged(after) == Merged(before) + [after[|before|]]
  {
    forall slot ensures Fill(slot, after) == Fill(slot, before) {}
  }

  lemma KeyedStep(before: seq<Json>, after: seq<Json>, key: ParamKey)
    requires |after| == |before| + 1 && after[..|before|] == before && KeyOf(after[|before|]) == Some(key)
    ensures Slots(after) == if Keyed(key) in Slots(before) then Slots(before) else Slots(before) + [Keyed(key)]
    ensures forall slot :: Fill(slot, after) == if slot == Keyed(key) then after[|before|] else Fill(slot, before)
  {}

  lemma AppendStep(before: seq<Json>, after: seq<Json>, key: ParamKey)
    requires |after| == |before| + 1 && after[..|before|] == before && KeyOf(after[|before|]) == Some(key)
    requires Keyed(key) !in Slots(before)
    ensures Merged(after) == Merged(before) + [after[|before|]]
  {
    KeyedStep(before, after, key);
  }

  lemma OverwriteStep(before: seq<Json>, after: seq<Json>, key: ParamKey, i: nat)
    requires |after| == |before| + 1 && after[..|before|] == before && KeyOf(after[|before|]) == Some(key)
    requires i < |Slots(before)| && Slots(before)[i] == Keyed(key)
    ensures Merged(after) == Merged(before)[i := after[|before|]]
  {
    KeyedStep(before, after, key);
    SlotsAreDistinct(before);
  }

  lemma {:induction false} SlotsAreDistinct(ps: seq<Json>)
    ensures forall i, j :: 0 <= i < j < |Slots(ps)| && Slots(ps)[i].Keyed? ==> Slots(ps)[i] != Slots(ps)[j]
  {
    if ps != [] {
      SlotsAreDistinct(ps[..|ps| - 1]);
    }
  }

  lemma {:induction false} SlotsCoverKeys(ps: seq<Json>, key: ParamKey)
    ensures Keyed(key) in Slots(ps) <==> Last(ps, key).Some?
    ensures Last(ps, key).Some? ==> Last(ps, key).value in ps && KeyOf(Last(ps, key).value) == Some(key)
    ensures forall p :: Plain(p) in Slots(ps) <==> p in ps && KeyOf(p).None?
  {
    if ps != [] {
      SlotsCoverKeys(ps[..|ps| - 1], key);
      assert ps == ps[..|ps| - 1] + [ps[|ps| - 1]];
    }
  }

  lemma {:induction false} LastOfConcat(a: seq<Json>, b: seq<Json>, key: ParamKey)
    ensures Last(a + b, key) == if Last(b, key).Some? then Last(b, key) else Last(a, key)
  {
    if b == [] {
      assert a + b == a;
    } else {
      assert (a + b)[..|a + b| - 1] == a + b[..|b| - 1];
      LastOfConcat(a, b[..|b| - 1], key);
    }
  }

  lemma SlotOfFilled(ps: seq<Json>, i: nat)
    requires i < |Slots(ps)|
    ensures Merged(ps)[i] in ps && SlotOf(Merged(ps)[i]) == Slots(ps)[i]
    ensures Slots(ps)[i].Keyed? ==> Last(ps, Slots(ps)[i].key) == Some(Merged(ps)[i])
  {
    var slot := Slots(ps)[i];
    SlotsCoverKeys(ps, if slot.Keyed? then slot.key else ParamKey("", ""));
    assert slot in Slots(ps);
  }

  /** No two merged parameters share a key, and nothing is made up. */
  lemma MergedKeysAreUnique(ps: seq<Json>)
    ensures forall i, j :: 0 <= i < j < |Merged(ps)| && KeyOf(Merged(ps)[i]).Some? ==>
              KeyOf(Merged(ps)[i]) != KeyOf(Merged(ps)[j])
    ensures forall p :: p in Merged(ps) ==> p in ps
  {
    var slots, out := Slots(ps), Merged(ps);
    forall i | 0 <= i < |out|
      ensures SlotOf(out[i]) == slots[i] && out[i] in ps
    {
      SlotOfFilled(ps, i);
    }
    SlotsAreDistinct(ps);
  }

  /** The operation's parameter wins; a path parameter survives exactly when the operation has none of its key. */
  lemma OperationWins(pathList: seq<Json>, opList: seq<Json>, key: ParamKey)
    ensures
      var out := Merged(pathList + opList);
      var winner := if Last(opList, key).Some? then Last(opList, key) else Last(pathList, key);
      forall p :: KeyOf(p) == Some(key) ==> (p in out <==> winner == Some(p))
  {
    var ps := pathList + opList;
    var slots, out := Slots(ps), Merged(ps);
    LastOfConcat(pathList, opList, key);
    SlotsCoverKeys(ps, key);
    forall i | 0 <= i < |out| && KeyOf(out[i]) == Some(key)
      ensures Some(out[i]) == Last(ps, key)
    {
      SlotOfFilled(ps, i);
    }
    if Keyed(key) in slots {
      var i :| 0 <= i < |slots| && slots[i] == Keyed(key);
      assert out[i] == Last(ps, key).value;
    }
  }

  // ---- The operation fragments ----

  const HTTP_METHODS := {"get", "put", "post", "delete", "options", "head", "patch", "trace"}

  /** The fragments of one operation; `Null` stands for an absent one. */
  datatype Detail = Detail(parameters: Json, requestBody: Json, responses: Json, security: Json)

  /** The raw path item and the raw operation under it. */
  function Lookup(spec: map<string, Json>, path: string, verb: string): Option<(map<string, Json>, Json)> {
    var m := Lower(Strip(verb));
    if m !in HTTP_METHODS || !Get(spec, "paths").Obj? then None
    else
      match PathItem(Obj(spec), Get(Get(spec, "paths").fields, path), {})
      case None => None
      case Some(item) => Some((item, Get(item, m)))
  }

  function MergedParameters(spec: map<string, Json>, item: map<string, Json>, operation: map<string, Json>): seq<Json> {
    var expanded := Resolve(Obj(spec), Arr(ListAt(item, "parameters")), {});
    Merged(expanded.items + ListAt(operation, "parameters"))
  }

  function DetailOf(spec: map<string, Json>, item: map<string, Json>, operation: map<string, Json>): Detail {
    var root := Obj(spec);
    Detail(
      Resolve(root, Arr(MergedParameters(spec, item, operation)), {}),
      Resolve(root, Get(operation, "requestBody"), {}),
      Resolve(root, Get(operation, "responses"), {}),
      Resolve(root, if "security" in operation then operation["security"] else Get(spec, "security"), {}))
  }

  method ExtractOperationDetail(spec: map<string, Json>, path: string, verb: string) returns (detail: Option<Detail>)
    ensures
      var found := Lookup(spec, path, verb);
      detail ==
        if found.None? || !Resolve(Obj(spec), found.value.1, {}).Obj? then None
        else Some(DetailOf(spec, found.value.0, Resolve(Obj(spec), found.value.1, {}).fields))
  {
    var root := Obj(spec);
    var m := Lower(Strip(verb));
    if m !in HTTP_METHODS || !Get(spec, "paths").Obj? {
      return None;
    }
    var item := FollowPathItem(root, Get(Get(spec, "paths").fields, path));
    if item.None? {
      return None;
    }
    var operation := Resolve(root, Get(item.value, m), {});
    if !operation.Obj? {
      return None;
    }
    var expanded := Resolve(root, Arr(ListAt(item.value, "parameters")), {});
    var parameters := MergeParameters(item.value["parameters" := expanded], operation.fields);
    assert ListAt(item.value["parameters" := expanded], "parameters") == expanded.items;
    var security := if "security" in operation.fields then operation.fields["security"] else Get(spec, "security");
    detail := Some(Detail(
      Resolve(root, Arr(parameters), {}),
      Resolve(root, Get(operation.fields, "requestBody"), {}),
      Resolve(root, Get(operation.fields, "responses"), {}),
      Resolve(root, security, {})));
  }

  lemma {:induction false} PathItemKeepsShape(spec: Json, cur: Json, stack: set<string>, r: Relation)
    requires StringRefs(spec) && StringRefs(cur) && EdgesIn(spec, spec, r) && EdgesIn(spec, cur, r)
    requires PathItem(spec, cur, stack).Some?
    ensures
      var item := Obj(PathItem(spec, cur, stack).value);
      REF !in item.fields && StringRefs(item) && EdgesIn(spec, item, r)
    decreases (Refs(spec) + Refs(cur)) - stack
  {
    if REF in cur.fields {
      var ref := InternalRef(cur).value;
      ExpansionShrinks(spec, cur, stack, Follow(spec, ref));
      WalkKeepsShape(spec, spec, Split(ref[2..], '/'), r);
      PathItemKeepsShape(spec, Follow(spec, ref), stack + {ref}, r);
    }
  }

  /** What the second pass is said to leave alone: the merged parameters, the body and the responses. */
  ghost predicate ParametersStay(spec: map<string, Json>, item: map<string, Json>, operation: map<string, Json>) {
    DetailOf(spec, item, operation).parameters == Arr(MergedParameters(spec, item, operation))
  }

  ghost predicate BodyStays(spec: map<string, Json>, item: map<string, Json>, operation: map<string, Json>) {
    DetailOf(spec, item, operation).requestBody == Get(operation, "requestBody")
  }

  ghost predicate ResponsesStay(spec: map<string, Json>, item: map<string, Json>, operation: map<string, Json>) {
    DetailOf(spec, item, operation).responses == Get(operation, "responses")
  }

  lemma ListStays(root: Json, items: seq<Json>)
    ensures Resolve(root, Arr(items), {}) == Arr(items) <==> forall p :: p in items ==> Resolve(root, p, {}) == p
  {
    SettledItems(root, items, {});
    forall p | p in items
      ensures exists i :: 0 <= i < |items| && items[i] == p
    {}
  }

  /** On every document: each fragment stays as it is exactly when it is settled. */
  lemma FragmentsStayExact(spec: map<string, Json>, item: map<string, Json>, operation: map<string, Json>)
    ensures
      ParametersStay(spec, item, operation) <==>
        forall p :: p in MergedParameters(spec, item, operation) ==> Settled(Obj(spec), p, {})
    ensures BodyStays(spec, item, operation) <==> Settled(Obj(spec), Get(operation, "requestBody"), {})
    ensures ResponsesStay(spec, item, operation) <==> Settled(Obj(spec), Get(operation, "responses"), {})
  {
    var root, merged := Obj(spec), MergedParameters(spec, item, operation);
    ListStays(root, merged);
    forall p ensures Resolve(root, p, {}) == p <==> Settled(root, p, {}) {
      SettledExact(root, p, {});
    }
  }

  /** The path item and the operation a document holds, with the shape of the document. */
  lemma LookupKeepsShape(spec: map<string, Json>, path: string, verb: string, r: Relation)
    requires StringRefs(Obj(spec)) && EdgesIn(Obj(spec), Obj(spec), r) && Lookup(spec, path, verb).Some?
    ensures
      var (item, raw) := Lookup(spec, path, verb).value;
      && StringRefs(raw) && EdgesIn(Obj(spec), raw, r)
      && StringRefs(Arr(ListAt(item, "parameters"))) && EdgesIn(Obj(spec), Arr(ListAt(item, "parameters")), r)
  {
    var (item, raw) := Lookup(spec, path, verb).value;
    var paths := Get(spec, "paths");
    assert StringRefs(paths) && EdgesIn(Obj(spec), paths, r);
    PathItemKeepsShape(Obj(spec), Get(paths.fields, path), {}, r);
    assert StringRefs(Obj(item)) && EdgesIn(Obj(spec), Obj(item), r);
  }

  /** Each merged parameter is one of the expanded path parameters or one of the operation's. */
  lemma MergedFrom(spec: map<string, Json>, item: map<string, Json>, operation: map<string, Json>)
    ensures
      var expanded := Resolve(Obj(spec), Arr(ListAt(item, "parameters")), {}).items;
      forall p :: p in MergedParameters(spec, item, operation) ==> p in expanded || p in ListAt(operation, "parameters")
  {
    MergedKeysAreUnique(Resolve(Obj(spec), Arr(ListAt(item, "parameters")), {}).items
      + ListAt(operation, "parameters"));
  }

  /** The members of a resolved operation have nothing left to resolve, unless it is itself a dangling ref. */
  lemma OperationIsNormal(root: Json, raw: Json, rank: string -> int)
    requires StringRefs(root) && StringRefs(raw) && Ranked(root, raw, rank) && Resolve(root, raw, {}).Obj?
    requires !EndsDangling(root, raw, {})
    ensures forall k :: Normal(root, Get(Resolve(root, raw, {}).fields, k))
    ensures forall p :: p in ListAt(Resolve(root, raw, {}).fields, "parameters") ==> Normal(root, p)
  {
    var operation := Resolve(root, raw, {});
    EndsDanglingExact(root, raw, {});
    AcyclicIsNormal(root, raw, rank);
    PartsAreNormal(root, operation);
    forall p | p in ListAt(operation.fields, "parameters")
      ensures Normal(root, p)
    {
      NormalPart(root, Get(operation.fields, "parameters"), p);
    }
  }

  /** Either way, a member of a resolved operation stays exactly when nothing is left in it to resolve. */
  lemma PartStaysExact(root: Json, raw: Json, part: Json, rank: string -> int)
    requires StringRefs(root) && StringRefs(raw) && Ranked(root, raw, rank) && Resolve(root, raw, {}).Obj?
    requires
      var operation := Resolve(root, raw, {}).fields;
      part == Null || part in operation.Values || part in ListAt(operation, "parameters")
    ensures Resolve(root, part, {}) == part <==> Normal(root, part)
  {
    var operation := Resolve(root, raw, {});
    ResolvedKeepsShape(root, raw, {}, ByRank(rank));
    if part in ListAt(operation.fields, "parameters") {
      assert StringRefs(Get(operation.fields, "parameters"));
      assert EdgesIn(root, Get(operation.fields, "parameters"), ByRank(rank));
    }
    FixedIsNormal(root, part, rank);
  }

  /**
   * On an acyclic document whose `$ref`s are all text: the second pass changes nothing exactly when
   * the operation's refs do not end in a dangling one, or else nothing in the fragment is left to
   * resolve. Of the parameters, only the operation's own that survive the merge matter.
   */
  lemma SecondPassIsNoOp(spec: map<string, Json>, path: string, verb: string, rank: string -> int)
    requires StringRefs(Obj(spec)) && Ranked(Obj(spec), Obj(spec), rank)
    requires Lookup(spec, path, verb).Some?
    ensures
      var (item, raw) := Lookup(spec, path, verb).value;
      var root, result, sound := Obj(spec), Resolve(Obj(spec), raw, {}), !EndsDangling(Obj(spec), raw, {});
      result.Obj? ==>
        var operation := result.fields;
        && (ParametersStay(spec, item, operation) <==>
              sound || forall p :: p in MergedParameters(spec, item, operation) && p in ListAt(operation, "parameters")
                         ==> Normal(root, p))
        && (BodyStays(spec, item, operation) <==> sound || Normal(root, Get(operation, "requestBody")))
        && (ResponsesStay(spec, item, operation) <==> sound || Normal(root, Get(operation, "responses")))
  {
    var (item, raw) := Lookup(spec, path, verb).value;
    LookupKeepsShape(spec, path, verb, ByRank(rank));
    if Resolve(Obj(spec), raw, {}).Obj? {
      var operation := Resolve(Obj(spec), raw, {}).fields;
      ParametersExact(spec, item, raw, rank);
      FieldStays(spec, raw, "requestBody", rank);
      FieldStays(spec, raw, "responses", rank);
    }
  }

  lemma FieldStays(spec: map<string, Json>, raw: Json, key: string, rank: string -> int)
    requires
      StringRefs(Obj(spec)) && StringRefs(raw) && Ranked(Obj(spec), raw, rank) && Resolve(Obj(spec), raw, {}).Obj?
    ensures
      var part := Get(Resolve(Obj(spec), raw, {}).fields, key);
      Resolve(Obj(spec), part, {}) == part <==> !EndsDangling(Obj(spec), raw, {}) || Normal(Obj(spec), part)
  {
    PartStaysExact(Obj(spec), raw, Get(Resolve(Obj(spec), raw, {}).fields, key), rank);
    if !EndsDangling(Obj(spec), raw, {}) {
      OperationIsNormal(Obj(spec), raw, rank);
    }
  }

  lemma ParametersExact(spec: map<string, Json>, item: map<string, Json>, raw: Json, rank: string -> int)
    requires
      StringRefs(Obj(spec)) && StringRefs(raw) && Ranked(Obj(spec), raw, rank) && Resolve(Obj(spec), raw, {}).Obj?
    requires StringRefs(Arr(ListAt(item, "parameters"))) && Ranked(Obj(spec), Arr(ListAt(item, "parameters")), rank)
    ensures
      var operation := Resolve(Obj(spec), raw, {}).fields;
      ParametersStay(spec, item, operation) <==>
        !EndsDangling(Obj(spec), raw, {})
        || forall p :: p in MergedParameters(spec, item, operation) && p in ListAt(operation, "parameters")
             ==> Normal(Obj(spec), p)
  {
    var root := Obj(spec);
    var operation := Resolve(root, raw, {}).fields;
    var own := ListAt(operation, "parameters");
    ListStays(root, MergedParameters(spec, item, operation));
    MergedFrom(spec, item, operation);
    forall p | p in own
      ensures Resolve(root, p, {}) == p <==> Normal(root, p)
    {
      PartStaysExact(root, raw, p, rank);
    }
    PathParametersStay(root, ListAt(item, "parameters"), rank);
    if !EndsDangling(root, raw, {}) {
      OperationIsNormal(root, raw, rank);
    }
  }

  lemma PathParametersStay(root: Json, items: seq<Json>, rank: string -> int)
    requires StringRefs(root) && StringRefs(Arr(items)) && Ranked(root, Arr(items), rank)
    ensures forall p :: p in Resolve(root, Arr(items), {}).items ==> Resolve(root, p, {}) == p
  {
    var expanded := Resolve(root, Arr(items), {});
    AcyclicIsNormal(root, Arr(items), rank);
    NormalIsFixed(root, expanded);
    ListStays(root, expanded.items);
  }

  lemma PartsAreNormal(root: Json, j: Json)
    requires j.Obj? && Normal(root, j) && !Dangling(root, j)
    ensures forall k :: Normal(root, Get(j.fields, k))
  {
    forall k
      ensures Normal(root, Get(j.fields, k))
    {
      if k in j.fields {
        NormalPart(root, j, j.fields[k]);
      }
    }
  }

  /**
   * An operation that is itself an unresolvable ref is kept as it is, so the pass over its fragments is
   * the first: each stays exactly when the raw one is settled.
   */
  lemma DanglingOperationIsRaw(spec: map<string, Json>, item: map<string, Json>, raw: map<string, Json>)
    requires Dangling(Obj(spec), Obj(raw))
    ensures
      var root, result := Obj(spec), Resolve(Obj(spec), Obj(raw), {});
      result.Obj? &&
      var operation := result.fields;
      && (BodyStays(spec, item, operation) <==> Settled(root, Get(raw, "requestBody"), {}))
      && (ResponsesStay(spec, item, operation) <==> Settled(root, Get(raw, "responses"), {}))
      && (ParametersStay(spec, item, operation) <==>
            var shared := Resolve(root, Arr(ListAt(item, "parameters")), {}).items;
            forall p :: p in Merged(shared + ListAt(raw, "parameters")) ==> Settled(root, p, {}))
  {
    assert Resolve(Obj(spec), Obj(raw), {}) == Obj(raw);
    FragmentsStayExact(spec, item, raw);
  }

  lemma OneRawParameter(spec: map<string, Json>, item: map<string, Json>, operation: map<string, Json>, use: Json)
    requires ListAt(item, "parameters") == [] && ListAt(operation, "parameters") == [use] && KeyOf(use).None?
    ensures MergedParameters(spec, item, operation) == [use]
  {
    var none := Resolve(Obj(spec), Arr([]), {});
    assert none == Arr([]);
    assert none.items + [use] == [use];
    PlainStep([], [use]);
  }

  lemma BareList(root: Json, ref: string)
    requires StartsWith(ref, "#/") && Follow(root, ref).Num?
    ensures Resolve(root, Arr([Obj(map[REF := Str(ref)])]), {}) == Arr([Follow(root, ref)])
  {
    ResolveBare(root, ref, {});
    assert Resolve(root, Obj(map[REF := Str(ref)]), {}) == Follow(root, ref);
  }

  /** An operation that dangles with a parameter that does not: the second pass expands the parameter. */
  lemma SecondPassExpandsDangling(
      spec: map<string, Json>, item: map<string, Json>, operation: map<string, Json>, ref: string)
    requires ListAt(item, "parameters") == [] && ListAt(operation, "parameters") == [Obj(map[REF := Str(ref)])]
    requires StartsWith(ref, "#/") && Follow(Obj(spec), ref).Num? && Dangling(Obj(spec), Obj(operation))
    ensures Resolve(Obj(spec), Obj(operation), {}) == Obj(operation)
    ensures DetailOf(spec, item, operation).parameters == Arr([Follow(Obj(spec), ref)])
    ensures !ParametersStay(spec, item, operation)
  {
    var use := Obj(map[REF := Str(ref)]);
    assert KeyOf(use).None?;
    OneRawParameter(spec, item, operation, use);
    BareList(Obj(spec), ref);
    assert use != Follow(Obj(spec), ref);
  }

  lemma LookupGet(spec: map<string, Json>, item: map<string, Json>)
    requires Get(spec, "paths") == Obj(map["/p" := Obj(item)]) && REF !in item
    ensures Lookup(spec, "/p", "get") == Some((item, Get(item, "get")))
  {
    assert Lower(Strip("get")) == "get";
  }

  /** A document in which looking up an operation finds one of that kind. */
  lemma DanglingOperationExists()
    ensures
      var operation := map[REF := Str("#/x"), "parameters" := Arr([Obj(map[REF := Str("#/n")])])];
      var item := map["get" := Obj(operation)];
      var spec := map["n" := Num(1), "paths" := Obj(map["/p" := Obj(item)])];
      && Lookup(spec, "/p", "get") == Some((item, Obj(operation)))
      && Resolve(Obj(spec), Obj(operation), {}) == Obj(operation)
      && DetailOf(spec, item, operation).parameters == Arr([Num(1)]) && !ParametersStay(spec, item, operation)
  {
    var operation := map[REF := Str("#/x"), "parameters" := Arr([Obj(map[REF := Str("#/n")])])];
    var item := map["get" := Obj(operation)];
    var spec := map["n" := Num(1), "paths" := Obj(map["/p" := Obj(item)])];
    FollowLetter(spec, 'x');
    FollowLetter(spec, 'n');
    assert REF != "parameters" && "n" != "paths";
    LookupGet(spec, item);
    SecondPassExpandsDangling(spec, item, operation, "#/n");
  }

  // ---- The merged list, parameter by parameter ----

  /** Two objects with the same text under `name` and the same text under `in`. */
  predicate SameParameter(p: Json, q: Json) {
    && p.Obj? && q.Obj? && "name" in p.fields && "in" in p.fields && "name" in q.fields && "in" in q.fields
    && p.fields["name"].Str? && p.fields["in"].Str?
    && q.fields["name"] == p.fields["name"] && q.fields["in"] == p.fields["in"]
  }

  lemma SameKeyExact(p: Json, q: Json)
    ensures SameParameter(p, q) <==> KeyOf(p).Some? && KeyOf(q) == KeyOf(p)
  {}

  /** The list starts empty; one more parameter takes the place of the one it is the same as, or comes last. */
  lemma MergedNext(ps: seq<Json>, p: Json)
    ensures Merged([]) == []
    ensures
      (forall q :: q in ps ==> !SameParameter(q, p)) ==> Merged(ps + [p]) == Merged(ps) + [p]
    ensures
      (exists q :: q in ps && SameParameter(q, p)) ==>
        exists k :: 0 <= k < |Merged(ps)| && SameParameter(Merged(ps)[k], p) && Merged(ps + [p]) == Merged(ps)[k := p]
  {
    var after := ps + [p];
    assert after[..|ps|] == ps;
    if q :| q in ps && SameParameter(q, p) {
      SameKeyExact(q, p);
      var key := KeyOf(p).value;
      KeyHasPlace(ps, key, q);
      var k :| 0 <= k < |Slots(ps)| && Slots(ps)[k] == Keyed(key);
      OverwriteStep(ps, after, key, k);
      SlotOfFilled(ps, k);
      SameKeyExact(Merged(ps)[k], p);
    } else if KeyOf(p).Some? {
      var key := KeyOf(p).value;
      SlotsCoverKeys(ps, key);
      if Keyed(key) in Slots(ps) { SameKeyExact(Last(ps, key).value, p); }
      AppendStep(ps, after, key);
    } else {
      PlainStep(ps, after);
    }
  }

  lemma {:induction false} KeyHasPlace(ps: seq<Json>, key: ParamKey, q: Json)
    requires q in ps && KeyOf(q) == Some(key)
    ensures Keyed(key) in Slots(ps)
  {
    var init, last := ps[..|ps| - 1], ps[|ps| - 1];
    assert ps == init + [last];
    if q in init { KeyHasPlace(init, key, q); }
  }

  // ---- Looking up an operation, and its security ----

  predicate IsMethod(m: string) {
    || m == "get" || m == "put" || m == "post" || m == "delete"
    || m == "options" || m == "head" || m == "patch" || m == "trace"
  }

  /** Under a path item without a ref, each of the eight methods finds the member of its name; nothing else is found. */
  lemma LookupExact(
      spec: map<string, Json>, paths: map<string, Json>, path: string, item: map<string, Json>, verb: string)
    requires Get(spec, "paths") == Obj(paths) && Get(paths, path) == Obj(item) && REF !in item
    ensures
      var m := Lower(Strip(verb));
      Lookup(spec, path, verb) == if IsMethod(m) then Some((item, Get(item, m))) else None
  {}

  /** Without `paths`, or without the path in it, nothing is found. */
  lemma LookupMisses(spec: map<string, Json>, path: string, verb: string)
    requires !Get(spec, "paths").Obj? || path !in Get(spec, "paths").fields
    ensures Lookup(spec, path, verb).None?
  {}

  /** White space around a method and the case of its letters do not matter. */
  lemma LookupIgnoresCase(spec: map<string, Json>, path: string)
    ensures Lookup(spec, path, " GeT ") == Lookup(spec, path, "get")
  {
    assert TrimLeft(IsSpace, " GeT ") == "GeT " && TrimRight(IsSpace, "GeT ") == "GeT";
    assert Lower("GeT") == "get" && Lower("get") == "get" && Strip("get") == "get";
  }

  /** An operation's own `security` is the one shown, an empty list or a null included; else the document's is. */
  lemma SecurityExact(spec: map<string, Json>, item: map<string, Json>, operation: map<string, Json>, own: Json)
    requires Normal(Obj(spec), own)
    ensures "security" in operation && operation["security"] == own ==> DetailOf(spec, item, operation).security == own
    ensures
      "security" !in operation && "security" in spec && spec["security"] == own ==>
        DetailOf(spec, item, operation).security == own
    ensures
      "security" !in operation && "security" !in spec ==> DetailOf(spec, item, operation).security == Null
  {
    NormalIsFixed(Obj(spec), own);
  }

  /** The other fragments shown are those of the operation, of the names in OpenAPI. */
  lemma FragmentsExact(spec: map<string, Json>, item: map<string, Json>, operation: map<string, Json>, own: Json)
    requires Normal(Obj(spec), own)
    ensures
      "requestBody" in operation && operation["requestBody"] == own
      ==> DetailOf(spec, item, operation).requestBody == own
    ensures
      "responses" in operation && operation["responses"] == own ==> DetailOf(spec, item, operation).responses == own
  {
    NormalIsFixed(Obj(spec), own);
  }
}
