/**
 * Expansion of document-internal `$ref` values (`resolve_openapi_refs`), with the stack of
 * refs being expanded as a set. `deepcopy` is the identity on values.
 */
module RefResolver {
  import opened Prelude
  import opened Json
  import opened JsonPointer

  const REF := "$ref"

  /** The `#/…` pointer of an object that carries one under `$ref`. */
  function InternalRef(j: Json): Option<string> {
    if j.Obj? && REF in j.fields && j.fields[REF].Str? && StartsWith(j.fields[REF].s, "#/")
    then Some(j.fields[REF].s)
    else None
  }

  /** Every internal pointer that occurs anywhere inside a value. */
  ghost function Refs(j: Json): (refs: set<string>)
    ensures InternalRef(j).Some? ==> InternalRef(j).value in refs
  {
    match j
    case Arr(items) => set i, r | 0 <= i < |items| && r in Refs(items[i]) :: r
    case Obj(fields) =>
      (if InternalRef(j).Some? then {InternalRef(j).value} else {})
      + set k, r | k in fields && r in Refs(fields[k]) :: r
    case _ => {}
  }

  lemma RefsOfChild(node: Json, key: string)
    ensures Refs(Child(node, key)) <= Refs(node)
  {}

  lemma {:induction false} RefsOfWalk(node: Json, tokens: seq<string>)
    ensures Refs(Walk(node, tokens)) <= Refs(node)
    decreases |tokens|
  {
    if tokens != [] {
      RefsOfWalk(Child(node, Unescape(tokens[0])), tokens[1..]);
      RefsOfChild(node, Unescape(tokens[0]));
    }
  }

  lemma RefsOfTarget(root: Json, ref: string)
    ensures Refs(Follow(root, ref)) <= Refs(root)
  {
    if StartsWith(ref, "#/") {
      RefsOfWalk(root, Split(ref[2..], '/'));
    }
  }

  /** Siblings beside a `$ref` take precedence over the target's members, if it has members. */
  function Overlay(resolved: Json, siblings: map<string, Json>): Json {
    if |siblings| > 0 && resolved.Obj? then Obj(resolved.fields + siblings) else resolved
  }

  /**
   * Terminates on every document, cyclic ones included: each expansion puts one more of the
   * finitely many pointers on the stack, and between expansions the node gets smaller.
   */
  function Resolve(root: Json, node: Json, stack: set<string>): Json
    decreases (Refs(root) + Refs(node)) - stack, node, 2
  {
    match node
    case Obj(_) =>
      if InternalRef(node).Some? then Expand(root, node, stack)
      else Obj(Members(root, node, node.fields.Keys, stack))
    case Arr(items) =>
      Arr(seq(|items|, i requires 0 <= i < |items| => Resolve(root, items[i], stack)))
    case _ => node
  }

  function Expand(root: Json, node: Json, stack: set<string>): Json
    requires InternalRef(node).Some?
    decreases (Refs(root) + Refs(node)) - stack, node, 1
  {
    var ref := InternalRef(node).value;
    var target := Follow(root, ref);
    if ref in stack then Obj(map[REF := Str(ref)])
    else if target.Null? then node
    else
      RefsOfTarget(root, ref);
      var deeper := stack + {ref};
      Overlay(Resolve(root, target, deeper), Members(root, node, node.fields.Keys - {REF}, deeper))
  }

  /** The chosen members of an object, each resolved. */
  function Members(root: Json, node: Json, keys: set<string>, stack: set<string>): (members: map<string, Json>)
    requires node.Obj? && keys <= node.fields.Keys
    ensures members.Keys == keys
    decreases (Refs(root) + Refs(node)) - stack, node, 0
  {
    map k | k in keys :: Resolve(root, node.fields[k], stack)
  }

  // ---- What is left after resolution ----

  /** A ref object whose pointer finds nothing; the resolver copies it verbatim. */
  predicate Dangling(root: Json, j: Json) {
    InternalRef(j).Some? && Follow(root, InternalRef(j).value).Null?
  }

  /** `x` is a resolvable internal pointer of `j`, found without looking inside dangling refs. */
  ghost predicate Keeps(root: Json, j: Json, x: string) {
    match j
    case Arr(items) => exists i :: 0 <= i < |items| && Keeps(root, items[i], x)
    case Obj(fields) =>
      !Dangling(root, j) && (InternalRef(j) == Some(x) || exists k :: k in fields && Keeps(root, fields[k], x))
    case _ => false
  }

  /** `$ref` is only ever given a string, as OpenAPI asks. */
  ghost predicate StringRefs(j: Json) {
    match j
    case Arr(items) => forall i :: 0 <= i < |items| ==> StringRefs(items[i])
    case Obj(fields) =>
      && (REF in fields ==> fields[REF].Str?)
      && forall k :: k in fields ==> StringRefs(fields[k])
    case _ => true
  }

  type Relation = iset<(string, string)>

  ghost predicate Transitive(r: Relation) {
    forall x, y, z :: (x, y) in r && (y, z) in r ==> (x, z) in r
  }

  /** `a` is related to every pointer inside `j`. */
  ghost predicate Above(r: Relation, a: string, j: Json) {
    forall x :: x in Refs(j) ==> (a, x) in r
  }

  /**
   * `r` relates each resolvable pointer of `j` to every pointer inside its target and to
   * every pointer beside it, among its siblings.
   */
  ghost predicate EdgesIn(root: Json, j: Json, r: Relation) {
    match j
    case Arr(items) => forall i :: 0 <= i < |items| ==> EdgesIn(root, items[i], r)
    case Obj(fields) =>
      && (InternalRef(j).Some? && !Dangling(root, j) ==>
            var ref := InternalRef(j).value;
            && Above(r, ref, Follow(root, ref))
            && forall k :: k in fields && k != REF ==> Above(r, ref, fields[k]))
      && forall k :: k in fields ==> EdgesIn(root, fields[k], r)
    case _ => true
  }

  lemma {:induction false} WalkKeepsStringRefs(node: Json, tokens: seq<string>)
    requires StringRefs(node)
    ensures StringRefs(Walk(node, tokens))
    decreases |tokens|
  {
    if tokens != [] {
      WalkKeepsStringRefs(Child(node, Unescape(tokens[0])), tokens[1..]);
    }
  }

  lemma {:induction false} WalkKeepsShape(root: Json, node: Json, tokens: seq<string>, r: Relation)
    requires EdgesIn(root, node, r)
    ensures EdgesIn(root, Walk(node, tokens), r)
    ensures StringRefs(node) ==> StringRefs(Walk(node, tokens))
    decreases |tokens|
  {
    if tokens != [] {
      WalkKeepsShape(root, Child(node, Unescape(tokens[0])), tokens[1..], r);
    }
  }

  /** Merging resolved siblings over a resolved target keeps nothing that neither of them kept. */
  lemma KeptByMerge(root: Json, resolved: map<string, Json>, siblings: map<string, Json>, x: string)
    requires REF !in siblings && Keeps(root, Obj(resolved + siblings), x)
    ensures Keeps(root, Obj(resolved), x) || exists k :: k in siblings && Keeps(root, siblings[k], x)
  {
    var merged := resolved + siblings;
    assert InternalRef(Obj(merged)) == InternalRef(Obj(resolved));
    if InternalRef(Obj(merged)) != Some(x) {
      var k :| k in merged && Keeps(root, merged[k], x);
      if k !in siblings {
        assert k in resolved && merged[k] == resolved[k];
      }
    }
  }

  /**
   * On any document, cyclic or not: for every transitive relation that covers the document's
   * edges, a pointer that resolution leaves behind is related to itself, that is, lies on a cycle.
   */
  lemma {:induction false} LeftoverIsCyclic(root: Json, node: Json, stack: set<string>, r: Relation, x: string)
    requires Transitive(r)
    requires StringRefs(root) && StringRefs(node)
    requires EdgesIn(root, root, r) && EdgesIn(root, node, r)
    requires forall s :: s in stack ==> Above(r, s, node)
    requires Keeps(root, Resolve(root, node, stack), x)
    ensures (x, x) in r
    decreases (Refs(root) + Refs(node)) - stack, node
  {
    match node
    case Obj(fields) =>
      if InternalRef(node).Some? {
        LeftoverOfRef(root, node, stack, r, x);
      } else {
        var out := Members(root, node, fields.Keys, stack);
        if REF in fields {
          assert Resolve(root, fields[REF], stack) == fields[REF];
        }
        var k :| k in out && Keeps(root, out[k], x);
        LeftoverIsCyclic(root, fields[k], stack, r, x);
      }
    case Arr(items) =>
      var i :| 0 <= i < |items| && Keeps(root, Resolve(root, items[i], stack), x);
      LeftoverIsCyclic(root, items[i], stack, r, x);
    case _ =>
  }

  /** What an expanded ref keeps comes from its target or from one of its siblings. */
  lemma KeptByExpansion(root: Json, node: Json, stack: set<string>, x: string)
    requires InternalRef(node).Some? && InternalRef(node).value !in stack && !Dangling(root, node)
    requires Keeps(root, Expand(root, node, stack), x)
    ensures
      var ref := InternalRef(node).value;
      var deeper := stack + {ref};
      || Keeps(root, Resolve(root, Follow(root, ref), deeper), x)
      || exists k :: k in node.fields && k != REF && Keeps(root, Resolve(root, node.fields[k], deeper), x)
  {
    var ref := InternalRef(node).value;
    var deeper := stack + {ref};
    var resolved := Resolve(root, Follow(root, ref), deeper);
    var siblings := Members(root, node, node.fields.Keys - {REF}, deeper);
    if |siblings| > 0 && resolved.Obj? && !Keeps(root, resolved, x) {
      KeptByMerge(root, resolved.fields, siblings, x);
      var k :| k in siblings && Keeps(root, siblings[k], x);
      assert siblings[k] == Resolve(root, node.fields[k], deeper);
    }
  }

  lemma {:induction false} LeftoverOfRef(root: Json, node: Json, stack: set<string>, r: Relation, x: string)
    requires InternalRef(node).Some?
    requires Transitive(r)
    requires StringRefs(root) && StringRefs(node)
    requires EdgesIn(root, root, r) && EdgesIn(root, node, r)
    requires forall s :: s in stack ==> Above(r, s, node)
    requires Keeps(root, Expand(root, node, stack), x)
    ensures (x, x) in r
    decreases (Refs(root) + Refs(node)) - stack, node, 0
  {
    var ref := InternalRef(node).value;
    var target := Follow(root, ref);
    if ref in stack {
      KeptByStub(root, ref, x);
    } else if !target.Null? {
      var deeper := stack + {ref};
      KeptByExpansion(root, node, stack, x);
      ExpansionShrinks(root, node, stack, target);
      if Keeps(root, Resolve(root, target, deeper), x) {
        WalkKeepsShape(root, root, Split(ref[2..], '/'), r);
        AboveTarget(root, node, stack, r);
        LeftoverIsCyclic(root, target, deeper, r, x);
      } else {
        var k :| k in node.fields && k != REF && Keeps(root, Resolve(root, node.fields[k], deeper), x);
        AboveSibling(root, node, stack, r, k);
        LeftoverIsCyclic(root, node.fields[k], deeper, r, x);
      }
    }
  }

  /** Putting a ref of the node on the stack leaves strictly fewer refs to expand. */
  lemma ExpansionShrinks(root: Json, node: Json, stack: set<string>, target: Json)
    requires InternalRef(node).Some? && InternalRef(node).value !in stack
    requires target == Follow(root, InternalRef(node).value)
    ensures
      var deeper := stack + {InternalRef(node).value};
      (Refs(root) + Refs(target)) - deeper < (Refs(root) + Refs(node)) - stack
  {
    RefsOfTarget(root, InternalRef(node).value);
    assert InternalRef(node).value in (Refs(root) + Refs(node)) - stack;
  }

  lemma AboveSibling(root: Json, node: Json, stack: set<string>, r: Relation, k: string)
    requires EdgesIn(root, node, r) && InternalRef(node).Some? && !Dangling(root, node)
    requires InternalRef(node).value !in stack
    requires forall s :: s in stack ==> Above(r, s, node)
    requires k in node.fields && k != REF
    ensures
      var deeper := stack + {InternalRef(node).value};
      && (forall s :: s in deeper ==> Above(r, s, node.fields[k]))
      && (Refs(root) + Refs(node.fields[k])) - deeper < (Refs(root) + Refs(node)) - stack
      && EdgesIn(root, node.fields[k], r)
  {
    assert Refs(node.fields[k]) <= Refs(node);
    assert InternalRef(node).value in (Refs(root) + Refs(node)) - stack;
  }

  lemma AboveTarget(root: Json, node: Json, stack: set<string>, r: Relation)
    requires Transitive(r) && EdgesIn(root, node, r) && InternalRef(node).Some? && !Dangling(root, node)
    requires forall s :: s in stack ==> Above(r, s, node)
    ensures
      var ref := InternalRef(node).value;
      forall s :: s in stack + {ref} ==> Above(r, s, Follow(root, ref))
  {
    var ref := InternalRef(node).value;
    forall s, y | s in stack && y in Refs(Follow(root, ref))
      ensures (s, y) in r
    {
      assert (s, ref) in r && (ref, y) in r;
    }
  }

  lemma KeptByStub(root: Json, ref: string, x: string)
    requires Keeps(root, Obj(map[REF := Str(ref)]), x)
    ensures x == ref
  {
    assert !Keeps(root, Str(ref), x);
  }

  // ---- Acyclic documents ----

  ghost function ByRank(rank: string -> int): Relation {
    iset a: string, b: string | rank(b) < rank(a) :: (a, b)
  }

  /** Ranks witness that refs do not go round: whatever a ref leads to ranks lower. */
  ghost predicate Ranked(root: Json, j: Json, rank: string -> int) {
    EdgesIn(root, root, ByRank(rank)) && EdgesIn(root, j, ByRank(rank))
  }

  /** Nothing is left to resolve. */
  ghost predicate Normal(root: Json, j: Json) {
    forall x :: !Keeps(root, j, x)
  }

  lemma AcyclicIsNormal(root: Json, node: Json, rank: string -> int)
    requires StringRefs(root) && StringRefs(node) && Ranked(root, node, rank)
    ensures Normal(root, Resolve(root, node, {}))
  {
    forall x | Keeps(root, Resolve(root, node, {}), x)
      ensures false
    {
      LeftoverIsCyclic(root, node, {}, ByRank(rank), x);
    }
  }

  lemma NormalPart(root: Json, j: Json, part: Json)
    requires Normal(root, j) && !Dangling(root, j)
    requires (j.Obj? && part in j.fields.Values) || (j.Arr? && part in j.items)
    ensures Normal(root, part)
  {
    forall x
      ensures Keeps(root, part, x) ==> Keeps(root, j, x)
    {
      if j.Obj? {
        var k :| k in j.fields && j.fields[k] == part;
      } else {
        var i :| 0 <= i < |j.items| && j.items[i] == part;
      }
    }
  }

  lemma {:induction false} NormalIsFixed(root: Json, j: Json)
    requires Normal(root, j)
    ensures Resolve(root, j, {}) == j
  {
    match j
    case Obj(fields) =>
      if InternalRef(j).Some? {
        assert !Keeps(root, j, InternalRef(j).value);
        assert Dangling(root, j);
      } else {
        forall k | k in fields
          ensures Resolve(root, fields[k], {}) == fields[k]
        {
          NormalPart(root, j, fields[k]);
          NormalIsFixed(root, fields[k]);
        }
      }
    case Arr(items) =>
      forall i | 0 <= i < |items|
        ensures Resolve(root, items[i], {}) == items[i]
      {
        NormalPart(root, j, items[i]);
        NormalIsFixed(root, items[i]);
      }
    case _ =>
  }

  /** On acyclic documents a second pass changes nothing. */
  lemma ResolveTwice(root: Json, node: Json, rank: string -> int)
    requires StringRefs(root) && StringRefs(node) && Ranked(root, node, rank)
    ensures
      var once := Resolve(root, node, {});
      Resolve(root, once, {}) == once
  {
    AcyclicIsNormal(root, node, rank);
    NormalIsFixed(root, Resolve(root, node, {}));
  }

  /** On acyclic documents resolution leaves alone exactly what has nothing left to resolve. */
  lemma FixedIsNormal(root: Json, j: Json, rank: string -> int)
    requires StringRefs(root) && StringRefs(j) && Ranked(root, j, rank)
    ensures Resolve(root, j, {}) == j <==> Normal(root, j)
  {
    if Resolve(root, j, {}) == j {
      AcyclicIsNormal(root, j, rank);
    } else if Normal(root, j) {
      NormalIsFixed(root, j);
    }
  }

  /** On acyclic documents the stack never decides anything. */
  lemma {:induction false} StackIsIrrelevant(root: Json, node: Json, s1: set<string>, s2: set<string>, r: Relation)
    requires Transitive(r) && forall x :: (x, x) !in r
    requires EdgesIn(root, root, r) && EdgesIn(root, node, r)
    requires forall s :: s in s1 + s2 ==> Above(r, s, node)
    ensures Resolve(root, node, s1) == Resolve(root, node, s2)
    decreases (Refs(root) + Refs(node)) - s1, node, 2
  {
    match node
    case Obj(fields) =>
      if InternalRef(node).Some? {
        ExpansionIgnoresStack(root, node, s1, s2, r);
      } else {
        forall k | k in fields
          ensures Resolve(root, fields[k], s1) == Resolve(root, fields[k], s2)
        {
          StackIsIrrelevant(root, fields[k], s1, s2, r);
        }
        assert Members(root, node, fields.Keys, s1) == Members(root, node, fields.Keys, s2);
      }
    case Arr(items) =>
      forall i | 0 <= i < |items|
        ensures Resolve(root, items[i], s1) == Resolve(root, items[i], s2)
      {
        StackIsIrrelevant(root, items[i], s1, s2, r);
      }
    case _ =>
  }

  lemma {:induction false} ExpansionIgnoresStack(root: Json, node: Json, s1: set<string>, s2: set<string>, r: Relation)
    requires Transitive(r) && forall x :: (x, x) !in r
    requires EdgesIn(root, root, r) && EdgesIn(root, node, r)
    requires forall s :: s in s1 + s2 ==> Above(r, s, node)
    requires InternalRef(node).Some?
    ensures Expand(root, node, s1) == Expand(root, node, s2)
    decreases (Refs(root) + Refs(node)) - s1, node, 1
  {
    var ref := InternalRef(node).value;
    forall s | s in s1 + s2
      ensures s != ref
    {
      assert Above(r, s, node) && (s, ref) in r;
    }
    assert ref !in s1 + s2;
    if !Dangling(root, node) {
      var target := Follow(root, ref);
      ExpansionShrinks(root, node, s1, target);
      WalkKeepsShape(root, root, Split(ref[2..], '/'), r);
      AboveTarget(root, node, s1, r);
      AboveTarget(root, node, s2, r);
      StackIsIrrelevant(root, target, s1 + {ref}, s2 + {ref}, r);
      SiblingsIgnoreStack(root, node, s1, s2, r);
    }
  }

  lemma {:induction false} SiblingsIgnoreStack(root: Json, node: Json, s1: set<string>, s2: set<string>, r: Relation)
    requires Transitive(r) && forall x :: (x, x) !in r
    requires EdgesIn(root, root, r) && EdgesIn(root, node, r)
    requires forall s :: s in s1 + s2 ==> Above(r, s, node)
    requires InternalRef(node).Some? && InternalRef(node).value !in s1 + s2 && !Dangling(root, node)
    ensures
      var ref, keys := InternalRef(node).value, node.fields.Keys - {REF};
      Members(root, node, keys, s1 + {ref}) == Members(root, node, keys, s2 + {ref})
    decreases (Refs(root) + Refs(node)) - s1, node, 0
  {
    var ref, keys := InternalRef(node).value, node.fields.Keys - {REF};
    forall k | k in keys
      ensures Resolve(root, node.fields[k], s1 + {ref}) == Resolve(root, node.fields[k], s2 + {ref})
    {
      AboveSibling(root, node, s1, r, k);
      AboveSibling(root, node, s2, r, k);
      StackIsIrrelevant(root, node.fields[k], s1 + {ref}, s2 + {ref}, r);
    }
  }

  /**
   * What a ref means on an acyclic document: the resolution of its target, overlaid with
   * each sibling resolved on its own. No stack is involved any more.
   */
  lemma RefIsTransparent(root: Json, node: Json, rank: string -> int)
    requires Ranked(root, node, rank) && InternalRef(node).Some? && !Dangling(root, node)
    ensures Resolve(root, node, {})
            == Overlay(Resolve(root, Follow(root, InternalRef(node).value), {}),
                       Members(root, node, node.fields.Keys - {REF}, {}))
  {
    var ref := InternalRef(node).value;
    var keys := node.fields.Keys - {REF};
    TransparentParts(root, node, ByRank(rank));
    assert {} + {ref} == {ref};
    assert Members(root, node, keys, {ref}) == Members(root, node, keys, {});
  }

  lemma TransparentParts(root: Json, node: Json, r: Relation)
    requires Transitive(r) && forall x :: (x, x) !in r
    requires EdgesIn(root, root, r) && EdgesIn(root, node, r)
    requires InternalRef(node).Some? && !Dangling(root, node)
    ensures
      var ref := InternalRef(node).value;
      && Resolve(root, Follow(root, ref), {ref}) == Resolve(root, Follow(root, ref), {})
      && forall k :: k in node.fields && k != REF ==>
           Resolve(root, node.fields[k], {ref}) == Resolve(root, node.fields[k], {})
  {
    var ref := InternalRef(node).value;
    var fields := node.fields;
    WalkKeepsShape(root, root, Split(ref[2..], '/'), r);
    AboveTarget(root, node, {}, r);
    StackIsIrrelevant(root, Follow(root, ref), {ref}, {}, r);
    forall k | k in fields && k != REF
      ensures Resolve(root, fields[k], {ref}) == Resolve(root, fields[k], {})
    {
      AboveSibling(root, node, {}, r, k);
      StackIsIrrelevant(root, fields[k], {ref}, {}, r);
    }
  }

  lemma FollowLetter(fields: map<string, Json>, c: char)
    requires c != '/'
    ensures Follow(Obj(fields), "#/" + [c]) == Get(fields, [c])
  {
    SplitPiece([c], "", '/');
    assert ("#/" + [c])[2..] == [c];
    assert Unescape([c]) == [c];
    assert Walk(Obj(fields), [[c]]) == Walk(Get(fields, [c]), [[c]][1..]);
  }

  /** A ref with no siblings becomes its resolved target. */
  lemma ResolveBare(root: Json, ref: string, stack: set<string>)
    requires StartsWith(ref, "#/") && ref !in stack && !Follow(root, ref).Null?
    ensures Resolve(root, Obj(map[REF := Str(ref)]), stack) == Resolve(root, Follow(root, ref), stack + {ref})
  {
    var node := Obj(map[REF := Str(ref)]);
    var none := node.fields.Keys - {REF};
    assert none == {};
    assert |Members(root, node, none, stack + {ref}).Keys| == 0;
  }

  lemma ResolveSingleton(root: Json, key: string, value: Json, stack: set<string>)
    requires InternalRef(Obj(map[key := value])).None?
    ensures Resolve(root, Obj(map[key := value]), stack) == Obj(map[key := Resolve(root, value, stack)])
  {
    var node := Obj(map[key := value]);
    assert Members(root, node, node.fields.Keys, stack) == map[key := Resolve(root, value, stack)];
  }

  // ---- Chains that end in a dangling ref ----

  /** The refs from `j` lead, one after the other, to one that finds nothing. */
  predicate EndsDangling(root: Json, j: Json, stack: set<string>)
    decreases (Refs(root) + Refs(j)) - stack
  {
    match InternalRef(j)
    case None => false
    case Some(ref) =>
      if ref in stack then false
      else
        ExpansionShrinks(root, j, stack, Follow(root, ref));
        Dangling(root, j) || EndsDangling(root, Follow(root, ref), stack + {ref})
  }

  /** Resolution gives a dangling ref exactly when it is given a chain that ends in one. */
  lemma {:induction false} EndsDanglingExact(root: Json, j: Json, stack: set<string>)
    requires StringRefs(root) && StringRefs(j) && forall s :: s in stack ==> !Follow(root, s).Null?
    ensures Dangling(root, Resolve(root, j, stack)) <==> EndsDangling(root, j, stack)
    decreases (Refs(root) + Refs(j)) - stack
  {
    if InternalRef(j).None? {
      PlainStaysPlain(root, j, stack);
    } else if InternalRef(j).value !in stack && !Dangling(root, j) {
      var ref := InternalRef(j).value;
      ExpansionShrinks(root, j, stack, Follow(root, ref));
      WalkKeepsStringRefs(root, Split(ref[2..], '/'));
      EndsDanglingExact(root, Follow(root, ref), stack + {ref});
      var siblings := Members(root, j, j.fields.Keys - {REF}, stack + {ref});
      OverlayKeepsRef(Resolve(root, Follow(root, ref), stack + {ref}), siblings);
    }
  }

  lemma PlainStaysPlain(root: Json, j: Json, stack: set<string>)
    requires StringRefs(j) && InternalRef(j).None?
    ensures InternalRef(Resolve(root, j, stack)).None?
    ensures j.Obj? && REF in j.fields ==> Resolve(root, j, stack).fields[REF] == j.fields[REF]
  {
    if j.Obj? && REF in j.fields {
      assert Resolve(root, j.fields[REF], stack) == j.fields[REF];
    }
  }

  lemma OverlayKeepsRef(resolved: Json, siblings: map<string, Json>)
    requires REF !in siblings
    ensures InternalRef(Overlay(resolved, siblings)) == InternalRef(resolved)
  {
    OverlayMerges(resolved, siblings);
  }

  lemma PlainObjectShape(root: Json, fields: map<string, Json>, r: Relation)
    requires InternalRef(Obj(fields)).None? && (REF in fields ==> fields[REF].Str?)
    requires forall k :: k in fields ==> StringRefs(fields[k]) && EdgesIn(root, fields[k], r)
    ensures StringRefs(Obj(fields)) && EdgesIn(root, Obj(fields), r)
  {}

  /** On acyclic documents what resolution gives has the shape of what it was given. */
  lemma {:induction false} ResolvedKeepsShape(root: Json, node: Json, stack: set<string>, r: Relation)
    requires Transitive(r) && forall x :: (x, x) !in r
    requires StringRefs(root) && StringRefs(node)
    requires EdgesIn(root, root, r) && EdgesIn(root, node, r)
    requires forall s :: s in stack ==> Above(r, s, node)
    ensures StringRefs(Resolve(root, node, stack)) && EdgesIn(root, Resolve(root, node, stack), r)
    decreases (Refs(root) + Refs(node)) - stack, node
  {
    match node
    case Arr(items) =>
      forall i | 0 <= i < |items|
        ensures
          var out := Resolve(root, items[i], stack);
          StringRefs(out) && EdgesIn(root, out, r)
      {
        ResolvedKeepsShape(root, items[i], stack, r);
      }
    case Obj(fields) =>
      var out := Resolve(root, node, stack);
      if InternalRef(node).None? {
        assert out == Obj(Members(root, node, fields.Keys, stack));
        forall k | k in fields
          ensures StringRefs(out.fields[k]) && EdgesIn(root, out.fields[k], r)
        {
          assert out.fields[k] == Resolve(root, fields[k], stack);
          ResolvedKeepsShape(root, fields[k], stack, r);
        }
        PlainStaysPlain(root, node, stack);
        PlainObjectShape(root, out.fields, r);
      } else {
        NotOnStack(root, node, stack, r);
        if !Dangling(root, node) {
          ExpandedKeepsShape(root, node, stack, r);
        }
      }
    case _ =>
  }

  lemma NotOnStack(root: Json, node: Json, stack: set<string>, r: Relation)
    requires InternalRef(node).Some? && forall x :: (x, x) !in r
    requires forall s :: s in stack ==> Above(r, s, node)
    ensures InternalRef(node).value !in stack
  {
    assert InternalRef(node).value in Refs(node);
  }

  lemma {:induction false} ExpandedKeepsShape(root: Json, node: Json, stack: set<string>, r: Relation)
    requires InternalRef(node).Some? && InternalRef(node).value !in stack && !Dangling(root, node)
    requires Transitive(r) && forall x :: (x, x) !in r
    requires StringRefs(root) && StringRefs(node)
    requires EdgesIn(root, root, r) && EdgesIn(root, node, r)
    requires forall s :: s in stack ==> Above(r, s, node)
    ensures StringRefs(Resolve(root, node, stack)) && EdgesIn(root, Resolve(root, node, stack), r)
    decreases (Refs(root) + Refs(node)) - stack, node, 0
  {
    var ref := InternalRef(node).value;
    var deeper := stack + {ref};
    ExpansionShrinks(root, node, stack, Follow(root, ref));
    WalkKeepsShape(root, root, Split(ref[2..], '/'), r);
    AboveTarget(root, node, stack, r);
    ResolvedKeepsShape(root, Follow(root, ref), deeper, r);
    var resolved := Resolve(root, Follow(root, ref), deeper);
    var siblings := Members(root, node, node.fields.Keys - {REF}, deeper);
    forall k | k in siblings
      ensures StringRefs(siblings[k]) && EdgesIn(root, siblings[k], r)
    {
      AboveSibling(root, node, stack, r, k);
      ResolvedKeepsShape(root, node.fields[k], deeper, r);
    }
    if InternalRef(resolved).Some? && !Dangling(root, resolved) {
      LeftoverIsCyclic(root, Follow(root, ref), deeper, r, InternalRef(resolved).value);
      assert false;
    }
    OverlayKeepsShape(root, resolved, siblings, r);
  }

  lemma OverlayKeepsShape(root: Json, resolved: Json, siblings: map<string, Json>, r: Relation)
    requires REF !in siblings && (InternalRef(resolved).Some? ==> Dangling(root, resolved))
    requires StringRefs(resolved) && EdgesIn(root, resolved, r)
    requires forall k :: k in siblings ==> StringRefs(siblings[k]) && EdgesIn(root, siblings[k], r)
    ensures StringRefs(Overlay(resolved, siblings)) && EdgesIn(root, Overlay(resolved, siblings), r)
  {
    OverlayMerges(resolved, siblings);
    if resolved.Obj? {
      var merged := Obj(resolved.fields + siblings);
      assert InternalRef(merged) == InternalRef(resolved);
      forall k | k in merged.fields
        ensures StringRefs(merged.fields[k]) && EdgesIn(root, merged.fields[k], r)
      {
        assert merged.fields[k] == if k in siblings then siblings[k] else resolved.fields[k];
      }
    }
  }

  // ---- What a pass leaves alone, on every document ----

  /** The text a value resolves to, if it does: itself, or that at the end of its chain of refs. */
  function TextAt(root: Json, j: Json, stack: set<string>): Option<string>
    decreases (Refs(root) + Refs(j)) - stack
  {
    match j
    case Str(s) => Some(s)
    case Obj(_) =>
      (match InternalRef(j)
       case None => None
       case Some(ref) =>
         if ref in stack then None
         else
           ExpansionShrinks(root, j, stack, Follow(root, ref));
           TextAt(root, Follow(root, ref), stack + {ref}))
    case _ => None
  }

  /**
   * The refs from `t` lead back to `x`, and no member beside them on the way is outside `keys`. Members
   * beside the ref that closes the loop do not count: the resolver drops them.
   */
  predicate LeadsBack(root: Json, x: string, t: Json, stack: set<string>, keys: set<string>)
    decreases (Refs(root) + Refs(t)) - stack
  {
    t.Obj? &&
    match InternalRef(t)
    case None => REF in t.fields && t.fields.Keys <= keys + {REF} && TextAt(root, t.fields[REF], stack) == Some(x)
    case Some(ref) =>
      if ref in stack then ref == x
      else
        ExpansionShrinks(root, t, stack, Follow(root, ref));
        && t.fields.Keys <= keys + {REF}
        && LeadsBack(root, x, Follow(root, ref), stack + {ref}, keys)
  }

  /**
   * Read off a value and the refs it leads to, without resolving anything: every ref in it is on the
   * stack and stands alone, or dangles, or leads back to itself gathering only members that stand
   * beside it, which are in turn left alone.
   */
  predicate Settled(root: Json, j: Json, stack: set<string>)
    decreases (Refs(root) + Refs(j)) - stack, j
  {
    match j
    case Arr(items) => forall i :: 0 <= i < |items| ==> Settled(root, items[i], stack)
    case Obj(fields) =>
      (match InternalRef(j)
       case None => forall k :: k in fields ==> Settled(root, fields[k], stack)
       case Some(ref) =>
         if ref in stack then fields.Keys == {REF}
         else if Dangling(root, j) then true
         else
           && LeadsBack(root, ref, Follow(root, ref), stack + {ref}, fields.Keys)
           && forall k :: k in fields && k != REF ==> Settled(root, fields[k], stack + {ref}))
    case _ => true
  }

  lemma {:induction false} TextAtExact(root: Json, j: Json, stack: set<string>, x: string)
    ensures Resolve(root, j, stack) == Str(x) <==> TextAt(root, j, stack) == Some(x)
    decreases (Refs(root) + Refs(j)) - stack
  {
    if InternalRef(j).Some? && InternalRef(j).value !in stack {
      var ref := InternalRef(j).value;
      ExpansionShrinks(root, j, stack, Follow(root, ref));
      TextAtExact(root, Follow(root, ref), stack + {ref}, x);
    }
  }

  /** `out` is a ref to `x` with members from `keys` only. */
  predicate IsRefTo(out: Json, x: string, keys: set<string>) {
    out.Obj? && REF in out.fields && out.fields[REF] == Str(x) && out.fields.Keys <= keys + {REF}
  }

  lemma {:induction false} LeadsBackExact(root: Json, x: string, t: Json, stack: set<string>, keys: set<string>)
    requires StartsWith(x, "#/") && x in stack && !Follow(root, x).Null?
    ensures IsRefTo(Resolve(root, t, stack), x, keys) <==> LeadsBack(root, x, t, stack, keys)
    decreases (Refs(root) + Refs(t)) - stack
  {
    if t.Obj? {
      if InternalRef(t).None? {
        if REF in t.fields { TextAtExact(root, t.fields[REF], stack, x); }
      } else if InternalRef(t).value !in stack {
        var ref := InternalRef(t).value;
        ExpansionShrinks(root, t, stack, Follow(root, ref));
        LeadsBackExact(root, x, Follow(root, ref), stack + {ref}, keys);
        LoopOverlay(root, x, t, stack, keys);
      }
    }
  }

  lemma LoopOverlay(root: Json, x: string, t: Json, stack: set<string>, keys: set<string>)
    requires InternalRef(t).Some? && InternalRef(t).value !in stack && x in stack && !Follow(root, x).Null?
    ensures
      var ref := InternalRef(t).value;
      IsRefTo(Resolve(root, t, stack), x, keys) <==>
        !Dangling(root, t) && t.fields.Keys <= keys + {REF}
        && IsRefTo(Resolve(root, Follow(root, ref), stack + {ref}), x, keys)
  {
    var ref := InternalRef(t).value;
    if !Dangling(root, t) {
      var resolved := Resolve(root, Follow(root, ref), stack + {ref});
      OverlayMerges(resolved, Members(root, t, t.fields.Keys - {REF}, stack + {ref}));
    }
  }

  lemma OverlayMerges(resolved: Json, siblings: map<string, Json>)
    ensures Overlay(resolved, siblings) == if resolved.Obj? then Obj(resolved.fields + siblings) else resolved
  {
    if |siblings| == 0 && resolved.Obj? {
      assert siblings == map[];
      assert resolved.fields + siblings == resolved.fields;
    }
  }

  lemma MergeIs(base: map<string, Json>, siblings: map<string, Json>, fields: map<string, Json>)
    requires REF in fields && siblings.Keys == fields.Keys - {REF}
    ensures
      base + siblings == fields <==>
        && REF in base && base[REF] == fields[REF] && base.Keys <= fields.Keys
        && forall k :: k in siblings ==> siblings[k] == fields[k]
  {
    var merged := base + siblings;
    if merged == fields {
      assert merged[REF] == base[REF];
      assert forall k :: k in siblings ==> merged[k] == siblings[k];
      assert base.Keys <= merged.Keys;
    }
  }

  lemma OverlayIs(resolved: Json, siblings: map<string, Json>, ref: string, fields: map<string, Json>)
    requires REF in fields && fields[REF] == Str(ref) && siblings.Keys == fields.Keys - {REF}
    ensures
      Overlay(resolved, siblings) == Obj(fields) <==>
        IsRefTo(resolved, ref, fields.Keys) && forall k :: k in siblings ==> siblings[k] == fields[k]
  {
    OverlayMerges(resolved, siblings);
    if resolved.Obj? {
      MergeIs(resolved.fields, siblings, fields);
      assert fields.Keys + {REF} == fields.Keys;
    }
  }

  lemma SettledRef(root: Json, j: Json, stack: set<string>)
    requires InternalRef(j).Some? && InternalRef(j).value !in stack && !Dangling(root, j)
    ensures
      var ref := InternalRef(j).value;
      Resolve(root, j, stack) == j <==>
        && IsRefTo(Resolve(root, Follow(root, ref), stack + {ref}), ref, j.fields.Keys)
        && forall k :: k in j.fields && k != REF ==> Resolve(root, j.fields[k], stack + {ref}) == j.fields[k]
  {
    var ref := InternalRef(j).value;
    var siblings := Members(root, j, j.fields.Keys - {REF}, stack + {ref});
    OverlayIs(Resolve(root, Follow(root, ref), stack + {ref}), siblings, ref, j.fields);
    assert forall k :: k in siblings ==> siblings[k] == Resolve(root, j.fields[k], stack + {ref});
  }

  /** On every document, cyclic or not: a pass leaves a value alone exactly when it is settled. */
  lemma {:induction false} SettledExact(root: Json, j: Json, stack: set<string>)
    requires forall s :: s in stack ==> !Follow(root, s).Null?
    ensures Resolve(root, j, stack) == j <==> Settled(root, j, stack)
    decreases (Refs(root) + Refs(j)) - stack, j
  {
    match j
    case Arr(items) =>
      forall i | 0 <= i < |items|
        ensures Resolve(root, items[i], stack) == items[i] <==> Settled(root, items[i], stack)
      {
        SettledExact(root, items[i], stack);
      }
      SettledItems(root, items, stack);
    case Obj(fields) =>
      if InternalRef(j).None? {
        forall k | k in fields
          ensures Resolve(root, fields[k], stack) == fields[k] <==> Settled(root, fields[k], stack)
        {
          SettledExact(root, fields[k], stack);
        }
        SettledMembers(root, j, stack);
      } else if InternalRef(j).value in stack {
        assert fields.Keys == {REF} ==> fields == map[REF := fields[REF]];
      } else if !Dangling(root, j) {
        var ref := InternalRef(j).value;
        forall k | k in fields && k != REF
          ensures Resolve(root, fields[k], stack + {ref}) == fields[k] <==> Settled(root, fields[k], stack + {ref})
        {
          assert ref in (Refs(root) + Refs(j)) - stack;
          SettledExact(root, fields[k], stack + {ref});
        }
        LeadsBackExact(root, ref, Follow(root, ref), stack + {ref}, fields.Keys);
        SettledRef(root, j, stack);
      }
    case _ =>
  }

  lemma SettledItems(root: Json, items: seq<Json>, stack: set<string>)
    ensures Resolve(root, Arr(items), stack) == Arr(items) <==>
              forall i :: 0 <= i < |items| ==> Resolve(root, items[i], stack) == items[i]
  {
    var out := Resolve(root, Arr(items), stack).items;
    assert |out| == |items| && forall i :: 0 <= i < |items| ==> out[i] == Resolve(root, items[i], stack);
    assert (forall i :: 0 <= i < |items| ==> out[i] == items[i]) ==> out == items;
  }

  lemma SettledMembers(root: Json, j: Json, stack: set<string>)
    requires j.Obj? && InternalRef(j).None?
    ensures
      Resolve(root, j, stack) == j <==> forall k :: k in j.fields ==> Resolve(root, j.fields[k], stack) == j.fields[k]
  {
    var out := Members(root, j, j.fields.Keys, stack);
    assert Resolve(root, j, stack) == Obj(out);
    assert (forall k :: k in j.fields ==> out[k] == j.fields[k]) ==> out == j.fields;
  }

  /** A second pass changes nothing exactly when what the first one leaves is settled. */
  lemma SecondPassExact(root: Json, node: Json)
    ensures
      var once := Resolve(root, node, {});
      Resolve(root, once, {}) == once <==> Settled(root, once, {})
  {
    SettledExact(root, Resolve(root, node, {}), {});
  }

  // ---- Where a second pass does change something ----

  /** A cycle: the stub left by the first pass is expanded by the second. */
  lemma CyclicIsNotFixed()
    ensures
      var stub := Obj(map[REF := Str("#/a")]);
      var root := Obj(map["a" := Obj(map["next" := stub])]);
      var once := Resolve(root, stub, {});
      && StringRefs(root) && Keeps(root, once, "#/a")
      && Resolve(root, once, {}) != once
  {
    var stub := Obj(map[REF := Str("#/a")]);
    var body := Obj(map["next" := stub]);
    var root := Obj(map["a" := body]);
    FollowLetter(root.fields, 'a');
    assert StringRefs(stub) && StringRefs(body);
    assert {} + {"#/a"} == {"#/a"};
    ResolveBare(root, "#/a", {});
    ResolveSingleton(root, "next", stub, {"#/a"});
    ResolveSingleton(root, "next", stub, {});
    assert Keeps(root, stub, "#/a");
    assert Keeps(root, body.fields["next"], "#/a");
    assert stub != body;
  }

  /** An object under `$ref` that resolves to pointer text becomes a ref of its own, ranks or not. */
  lemma ObjectUnderRefIsNotFixed()
    ensures
      var root := Obj(map["x" := Str("#/y"), "y" := Num(1)]);
      var node := Obj(map[REF := Obj(map[REF := Str("#/x")])]);
      var once := Resolve(root, node, {});
      && Ranked(root, node, x => 0)
      && once == Obj(map[REF := Str("#/y")])
      && Resolve(root, once, {}) == Num(1)
  {
    var root := Obj(map["x" := Str("#/y"), "y" := Num(1)]);
    var inner := Obj(map[REF := Str("#/x")]);
    FollowLetter(root.fields, 'x');
    FollowLetter(root.fields, 'y');
    RankedExample(root, inner);
    ResolveBare(root, "#/x", {});
    ResolveSingleton(root, REF, inner, {});
    ResolveBare(root, "#/y", {});
    assert Resolve(root, Str("#/y"), {} + {"#/x"}) == Str("#/y");
    assert Resolve(root, Num(1), {} + {"#/y"}) == Num(1);
  }

  lemma RankedExample(root: Json, inner: Json)
    requires root == Obj(map["x" := Str("#/y"), "y" := Num(1)])
    requires inner == Obj(map[REF := Str("#/x")])
    requires Follow(root, "#/x").Str?
    ensures Ranked(root, Obj(map[REF := inner]), x => 0)
  {
    var r := ByRank(x => 0);
    assert EdgesIn(root, root.fields["x"], r) && EdgesIn(root, root.fields["y"], r);
    assert EdgesIn(root, inner.fields[REF], r);
    assert Above(r, "#/x", Follow(root, "#/x"));
    assert EdgesIn(root, inner, r);
  }

  // ---- Cycles that a second pass does not change ----

  /** An alias of itself: cyclic, and a fixed point. */
  lemma SelfAliasIsFixed()
    ensures
      var stub := Obj(map[REF := Str("#/a")]);
      var root := Obj(map["a" := stub]);
      && Resolve(root, stub, {}) == stub && Keeps(root, stub, "#/a")
  {
    var stub := Obj(map[REF := Str("#/a")]);
    var root := Obj(map["a" := stub]);
    FollowLetter(root.fields, 'a');
    ResolveBare(root, "#/a", {});
    assert {} + {"#/a"} == {"#/a"};
  }

  lemma ResolveWithNumber(root: Json, ref: string, key: string, n: int, stack: set<string>)
    requires StartsWith(ref, "#/") && ref !in stack && !Follow(root, ref).Null? && key != REF
    ensures
      Resolve(root, Obj(map[REF := Str(ref), key := Num(n)]), stack)
      == Overlay(Resolve(root, Follow(root, ref), stack + {ref}), map[key := Num(n)])
  {
    var node := Obj(map[REF := Str(ref), key := Num(n)]);
    assert node.fields.Keys - {REF} == {key};
    var siblings := Members(root, node, {key}, stack + {ref});
    assert node.fields[key] == Num(n) && siblings[key] == Resolve(root, node.fields[key], stack + {ref});
    assert siblings == map[key := Num(n)];
  }

  lemma OverlayNumber(ref: string, key: string, n: int)
    requires key != REF
    ensures
      var out := Obj(map[REF := Str(ref), key := Num(n)]);
      && Overlay(Obj(map[REF := Str(ref)]), map[key := Num(n)]) == out
      && Overlay(out, map[key := Num(n)]) == out
  {
    var bare, whole := map[REF := Str(ref)], map[REF := Str(ref), key := Num(n)];
    OverlayMerges(Obj(bare), map[key := Num(n)]);
    OverlayMerges(Obj(whole), map[key := Num(n)]);
    assert bare + map[key := Num(n)] == whole && whole + map[key := Num(n)] == whole;
  }

  /** A loop that gathers a member on its way round is a fixed point too, once the member stands there. */
  lemma GatheringLoopIsFixed(root: Json, x: string, y: string, key: string, n: int)
    requires StartsWith(x, "#/") && StartsWith(y, "#/") && x != y && key != REF
    requires Follow(root, x) == Obj(map[REF := Str(y), key := Num(n)]) && Follow(root, y) == Obj(map[REF := Str(x)])
    ensures
      var once := Resolve(root, Obj(map[REF := Str(x)]), {});
      once == Obj(map[REF := Str(x), key := Num(n)]) && Keeps(root, once, x) && Resolve(root, once, {}) == once
  {
    GatheredOnce(root, x, y, key, n);
    OverlayNumber(x, key, n);
    ResolveWithNumber(root, x, key, n, {});
  }

  lemma GatheredOnce(root: Json, x: string, y: string, key: string, n: int)
    requires StartsWith(x, "#/") && StartsWith(y, "#/") && x != y && key != REF
    requires Follow(root, x) == Obj(map[REF := Str(y), key := Num(n)]) && Follow(root, y) == Obj(map[REF := Str(x)])
    ensures Resolve(root, Follow(root, x), {} + {x}) == Obj(map[REF := Str(x), key := Num(n)])
    ensures Resolve(root, Obj(map[REF := Str(x)]), {}) == Obj(map[REF := Str(x), key := Num(n)])
  {
    ResolveBare(root, x, {});
    ResolveWithNumber(root, y, key, n, {} + {x});
    OverlayNumber(x, key, n);
  }

  lemma GatheringLoopExists()
    ensures
      var root := Obj(map["a" := Obj(map[REF := Str("#/b"), "s" := Num(1)]), "b" := Obj(map[REF := Str("#/a")])]);
      Resolve(root, Obj(map[REF := Str("#/a")]), {}) == Obj(map[REF := Str("#/a"), "s" := Num(1)])
  {
    var a, b := Obj(map[REF := Str("#/b"), "s" := Num(1)]), Obj(map[REF := Str("#/a")]);
    var root := Obj(map["a" := a, "b" := b]);
    FollowLetter(root.fields, 'a');
    FollowLetter(root.fields, 'b');
    assert "s" != REF;
    GatheringLoopIsFixed(root, "#/a", "#/b", "s", 1);
  }
}
