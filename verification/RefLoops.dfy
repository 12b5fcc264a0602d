/**
 * Cyclic documents whose refs stand alone, as OpenAPI 3.0 has them: when a second resolution changes
 * something, read off the raw node and document.
 */
module RefLoops {
  import opened Prelude
  import opened Sorting
  import opened Iteration
  import opened Json
  import opened JsonPointer
  import opened RefResolver

  function Stub(ref: string): Json {
    Obj(map[REF := Str(ref)])
  }

  /** `$ref` only ever stands alone, with text. */
  ghost predicate BareRefs(j: Json) {
    match j
    case Arr(items) => forall i :: 0 <= i < |items| ==> BareRefs(items[i])
    case Obj(fields) =>
      && (REF in fields ==> fields[REF].Str? && fields == map[REF := fields[REF]])
      && forall k :: k in fields ==> BareRefs(fields[k])
    case _ => true
  }

  lemma BareRef(j: Json)
    requires BareRefs(j) && InternalRef(j).Some?
    ensures j == Stub(InternalRef(j).value) && Refs(j) == {InternalRef(j).value}
  {}

  lemma {:induction false} BareWalk(node: Json, tokens: seq<string>)
    requires BareRefs(node)
    ensures BareRefs(Walk(node, tokens))
    decreases |tokens|
  {
    if tokens != [] { BareWalk(Child(node, Unescape(tokens[0])), tokens[1..]); }
  }

  lemma BareTarget(root: Json, ref: string)
    requires BareRefs(root)
    ensures BareRefs(Follow(root, ref))
  {
    if StartsWith(ref, "#/") { BareWalk(root, Split(ref[2..], '/')); }
  }

  /** An expanded ref that stands alone is its target, expanded. */
  lemma ResolveStub(root: Json, ref: string, stack: set<string>)
    requires StartsWith(ref, "#/") && ref !in stack && !Follow(root, ref).Null?
    ensures Resolve(root, Stub(ref), stack) == Resolve(root, Follow(root, ref), stack + {ref})
  {
    ResolveBare(root, ref, stack);
  }

  lemma StubOnStack(root: Json, ref: string, stack: set<string>)
    requires StartsWith(ref, "#/") && ref in stack
    ensures Resolve(root, Stub(ref), stack) == Stub(ref)
  {}

  lemma ResolvePlain(root: Json, node: Json, stack: set<string>)
    requires node.Obj? && InternalRef(node).None?
    ensures
      var out := Resolve(root, node, stack);
      && out.Obj? && out.fields.Keys == node.fields.Keys
      && forall k :: k in node.fields ==> out.fields[k] == Resolve(root, node.fields[k], stack)
  {
    assert Resolve(root, node, stack) == Obj(Members(root, node, node.fields.Keys, stack));
  }

  lemma {:induction false} RefsArePointers(j: Json, ref: string)
    requires ref in Refs(j)
    ensures StartsWith(ref, "#/")
  {
    match j
    case Arr(items) =>
      var i :| 0 <= i < |items| && ref in Refs(items[i]);
      RefsArePointers(items[i], ref);
    case Obj(fields) =>
      if InternalRef(j) != Some(ref) {
        var k :| k in fields && ref in Refs(fields[k]);
        RefsArePointers(fields[k], ref);
      }
    case _ =>
  }

  // ---- Walks along refs ----

  /** Where a walk has come to. */
  function End(root: Json, node: Json, walk: seq<string>): Json {
    if walk == [] then node else Follow(root, walk[|walk| - 1])
  }

  /** Each ref of the walk stands in the target of the one before it, the first one in the node. */
  ghost predicate IsWalk(root: Json, node: Json, walk: seq<string>)
    decreases |walk|
  {
    walk == [] || (walk[0] in Refs(node) && IsWalk(root, Follow(root, walk[0]), walk[1..]))
  }

  lemma {:induction false} WalkOn(root: Json, node: Json, walk: seq<string>, ref: string)
    ensures IsWalk(root, node, walk + [ref]) <==> IsWalk(root, node, walk) && ref in Refs(End(root, node, walk))
    ensures End(root, node, walk + [ref]) == Follow(root, ref)
    decreases |walk|
  {
    if walk == [] {
      assert ([] + [ref])[1..] == [];
    } else {
      assert (walk + [ref])[1..] == walk[1..] + [ref];
      WalkOn(root, Follow(root, walk[0]), walk[1..], ref);
    }
  }

  /** Some walk from the node comes to `x` a second time. */
  ghost predicate ComesRound(root: Json, node: Json, x: string) {
    exists walk :: IsWalk(root, node, walk) && x in walk && x in Refs(End(root, node, walk))
  }

  // ---- Loops of aliases ----

  /** The ref that the target of `x` is, and nothing when it is something else. */
  function AliasOf(root: Json, x: string): string {
    match InternalRef(Follow(root, x))
    case None => ""
    case Some(y) => y
  }

  function Alias(root: Json): string -> string {
    (x: string) => AliasOf(root, x)
  }

  /** The target of `x` is nothing but a ref, and so on, back to `x`. */
  ghost predicate AliasLoop(root: Json, x: string) {
    x != "" && Loops(Alias(root), x)
  }

  lemma NothingAliased(root: Json, n: nat)
    ensures Iterate(Alias(root), "", n) == ""
  {
    FixedStays(Alias(root), "", n);
  }

  /** Every step on a loop of aliases is a ref. */
  lemma LoopIsRefs(root: Json, x: string, n: nat, i: nat)
    requires x != "" && i <= n && Iterate(Alias(root), x, n) == x
    ensures Iterate(Alias(root), x, i) != ""
  {
    IterateSum(Alias(root), x, i, n - i);
    NothingAliased(root, n - i);
  }

  lemma AliasIsOnlyRef(root: Json, x: string)
    requires BareRefs(root) && AliasOf(root, x) != ""
    ensures Follow(root, x) == Stub(AliasOf(root, x)) && Refs(Follow(root, x)) == {AliasOf(root, x)}
  {
    BareTarget(root, x);
    BareRef(Follow(root, x));
  }

  /** What an alias on a loop leads to is on the loop. */
  lemma OnAlongLoop(root: Json, x: string, y: string)
    requires BareRefs(root) && AliasLoop(root, x) && y in Refs(Follow(root, x))
    ensures AliasLoop(root, y)
  {
    var n: nat :| n > 0 && Iterate(Alias(root), x, n) == x;
    LoopIsRefs(root, x, n, 1);
    OneStep(Alias(root), x, 0);
    AliasIsOnlyRef(root, x);
    LoopGoesOn(Alias(root), x);
  }

  lemma {:induction false} ChainReturns(root: Json, x: string, y: string, stack: set<string>, keys: set<string>)
    requires BareRefs(root) && StartsWith(x, "#/") && LeadsBack(root, x, Follow(root, y), stack, keys)
    ensures exists n: nat :: n > 0 && Iterate(Alias(root), y, n) == x
    decreases (Refs(root) + Refs(Follow(root, y))) - stack
  {
    BareTarget(root, y);
    var z := AliasOf(root, y);
    OneStep(Alias(root), y, 0);
    assert Iterate(Alias(root), y, 1) == z;
    if z != "" && z !in stack {
      ExpansionShrinks(root, Follow(root, y), stack, Follow(root, z));
      ChainReturns(root, x, z, stack + {z}, keys);
      var n: nat :| n > 0 && Iterate(Alias(root), z, n) == x;
      assert Iterate(Alias(root), y, n + 1) == x;
    }
  }

  /** From the `i`-th ref after `x`, with those up to it on the stack, refs lead back to `x`. */
  ghost predicate LeadsBackFrom(root: Json, x: string, i: nat, keys: set<string>) {
    LeadsBack(root, x, Follow(root, Iterate(Alias(root), x, i)), Passed(Alias(root), x, i), keys)
  }

  lemma {:induction false} LoopLeadsBack(root: Json, x: string, n: nat, i: nat, keys: set<string>)
    requires BareRefs(root) && x != "" && IsRing(Alias(root), x, n) && i < n
    ensures LeadsBackFrom(root, x, i, keys)
    decreases n - i
  {
    if i + 1 < n { LoopLeadsBack(root, x, n, i + 1, keys); }
    LeadsBackStep(root, x, n, i, keys);
  }

  lemma LeadsBackStep(root: Json, x: string, n: nat, i: nat, keys: set<string>)
    requires BareRefs(root) && x != "" && Iterate(Alias(root), x, n) == x && i < n
    requires i + 1 < n ==> NewAt(Alias(root), x, i) && LeadsBackFrom(root, x, i + 1, keys)
    ensures LeadsBackFrom(root, x, i, keys)
  {
    var f := Alias(root);
    var y, z := Iterate(f, x, i), Iterate(f, x, i + 1);
    LoopIsRefs(root, x, n, i + 1);
    OneStep(f, x, i);
    assert z == AliasOf(root, y);
    LeadsOn(root, x, y, Passed(f, x, i), keys);
    if i + 1 == n { PassedHolds(f, x, i, 0); }
  }

  lemma LeadsOn(root: Json, x: string, y: string, stack: set<string>, keys: set<string>)
    requires BareRefs(root) && AliasOf(root, y) != ""
    ensures
      var z := AliasOf(root, y);
      LeadsBack(root, x, Follow(root, y), stack, keys)
      <==> if z in stack then z == x else LeadsBack(root, x, Follow(root, z), stack + {z}, keys)
  {
    AliasIsOnlyRef(root, y);
  }

  /** The stub of a ref is settled exactly when the ref is on a loop of aliases. */
  lemma SettledStub(root: Json, x: string)
    requires BareRefs(root) && StartsWith(x, "#/") && !Follow(root, x).Null?
    ensures Settled(root, Stub(x), {}) <==> AliasLoop(root, x)
  {
    StubLeadsBack(root, x);
    if LeadsBack(root, x, Follow(root, x), {x}, {REF}) {
      ChainReturns(root, x, x, {x}, {REF});
    }
    if AliasLoop(root, x) {
      AliasLeadsBack(root, x);
    }
  }

  lemma StubLeadsBack(root: Json, x: string)
    requires StartsWith(x, "#/") && !Follow(root, x).Null?
    ensures Settled(root, Stub(x), {}) <==> LeadsBack(root, x, Follow(root, x), {x}, {REF})
  {
    assert {} + {x} == {x} && Stub(x).fields.Keys == {REF};
  }

  lemma AliasLeadsBack(root: Json, x: string)
    requires BareRefs(root) && AliasLoop(root, x)
    ensures LeadsBack(root, x, Follow(root, x), {x}, {REF})
  {
    var n := RingExists(Alias(root), x);
    LoopLeadsBack(root, x, n, 0, {REF});
    assert LeadsBackFrom(root, x, 0, {REF});
  }

  // ---- What the first pass keeps ----

  lemma {:induction false} ResolveKeepsBare(root: Json, node: Json, stack: set<string>)
    requires BareRefs(root) && BareRefs(node)
    ensures BareRefs(Resolve(root, node, stack))
    decreases (Refs(root) + Refs(node)) - stack, node
  {
    match node
    case Arr(items) =>
      forall i | 0 <= i < |items| ensures BareRefs(Resolve(root, items[i], stack)) {
        ResolveKeepsBare(root, items[i], stack);
      }
    case Obj(fields) =>
      if InternalRef(node).None? {
        forall k | k in fields ensures BareRefs(Resolve(root, fields[k], stack)) {
          ResolveKeepsBare(root, fields[k], stack);
        }
        PlainIsBare(root, node, stack);
      } else {
        var ref := InternalRef(node).value;
        BareRef(node);
        if ref !in stack && !Dangling(root, node) {
          ResolveStub(root, ref, stack);
          BareTarget(root, ref);
          ExpansionShrinks(root, node, stack, Follow(root, ref));
          ResolveKeepsBare(root, Follow(root, ref), stack + {ref});
        }
      }
    case _ =>
  }

  lemma PlainIsBare(root: Json, node: Json, stack: set<string>)
    requires node.Obj? && InternalRef(node).None? && BareRefs(node)
    requires forall k :: k in node.fields ==> BareRefs(Resolve(root, node.fields[k], stack))
    ensures BareRefs(Resolve(root, node, stack))
  {
    var out := Resolve(root, node, stack);
    ResolvePlain(root, node, stack);
    if REF in node.fields {
      assert node.fields.Keys == {REF};
      assert out.fields[REF] == node.fields[REF];
      assert out.fields == map[REF := out.fields[REF]];
    }
  }

  /** What a ref that stands alone keeps: itself, when it is being expanded already, or what its target keeps. */
  lemma KeptByRef(root: Json, ref: string, stack: set<string>, x: string)
    requires StartsWith(ref, "#/") && Keeps(root, Resolve(root, Stub(ref), stack), x)
    ensures
      if ref in stack then x == ref
      else !Follow(root, ref).Null? && Keeps(root, Resolve(root, Follow(root, ref), stack + {ref}), x)
  {
    if ref in stack {
      StubOnStack(root, ref, stack);
      KeptByStub(root, ref, x);
    } else if !Follow(root, ref).Null? {
      ResolveStub(root, ref, stack);
    } else {
      assert Dangling(root, Stub(ref)) && Resolve(root, Stub(ref), stack) == Stub(ref);
    }
  }

  /** Every ref that is kept is one that a walk comes to a second time. */
  lemma {:induction false} KeptComesRound(
      root: Json, start: Json, walk: seq<string>, node: Json, stack: set<string>, x: string)
    requires BareRefs(root) && BareRefs(node)
    requires IsWalk(root, start, walk) && forall s :: s in stack <==> s in walk
    requires Refs(node) <= Refs(End(root, start, walk))
    requires Keeps(root, Resolve(root, node, stack), x)
    ensures ComesRound(root, start, x)
    decreases (Refs(root) + Refs(node)) - stack, node, 1
  {
    match node
    case Arr(items) =>
      var i := KeptItem(root, items, stack, x);
      KeptComesRound(root, start, walk, items[i], stack, x);
    case Obj(fields) =>
      if InternalRef(node).None? {
        var k := KeptMember(root, node, stack, x);
        KeptComesRound(root, start, walk, fields[k], stack, x);
      } else {
        BareRef(node);
        KeptRefComesRound(root, start, walk, InternalRef(node).value, stack, x);
      }
    case _ =>
  }

  lemma {:induction false} KeptRefComesRound(
      root: Json, start: Json, walk: seq<string>, ref: string, stack: set<string>, x: string)
    requires BareRefs(root) && StartsWith(ref, "#/")
    requires IsWalk(root, start, walk) && forall s :: s in stack <==> s in walk
    requires ref in Refs(End(root, start, walk)) && Keeps(root, Resolve(root, Stub(ref), stack), x)
    ensures ComesRound(root, start, x)
    decreases (Refs(root) + Refs(Stub(ref))) - stack, Stub(ref), 0
  {
    KeptByRef(root, ref, stack, x);
    if ref !in stack {
      WalkOn(root, start, walk, ref);
      BareTarget(root, ref);
      ExpansionShrinks(root, Stub(ref), stack, Follow(root, ref));
      KeptComesRound(root, start, walk + [ref], Follow(root, ref), stack + {ref}, x);
    }
  }

  lemma KeptItem(root: Json, items: seq<Json>, stack: set<string>, x: string) returns (i: nat)
    requires Keeps(root, Resolve(root, Arr(items), stack), x)
    ensures i < |items| && Keeps(root, Resolve(root, items[i], stack), x) && Refs(items[i]) <= Refs(Arr(items))
  {
    var out := Resolve(root, Arr(items), stack);
    i :| 0 <= i < |items| && Keeps(root, out.items[i], x);
  }

  lemma KeptMember(root: Json, node: Json, stack: set<string>, x: string) returns (k: string)
    requires node.Obj? && InternalRef(node).None? && BareRefs(node) && Keeps(root, Resolve(root, node, stack), x)
    ensures k in node.fields && Keeps(root, Resolve(root, node.fields[k], stack), x)
    ensures Refs(node.fields[k]) <= Refs(node)
  {
    KeptByMember(root, node, stack, x);
    k :| k in node.fields && Keeps(root, Resolve(root, node.fields[k], stack), x);
  }

  lemma KeptByMember(root: Json, node: Json, stack: set<string>, x: string)
    requires node.Obj? && InternalRef(node).None? && BareRefs(node)
    ensures
      Keeps(root, Resolve(root, node, stack), x)
      <==> exists k :: k in node.fields && Keeps(root, Resolve(root, node.fields[k], stack), x)
  {
    var out := Resolve(root, node, stack);
    ResolvePlain(root, node, stack);
    assert InternalRef(out).None?;
  }

  /** What a ref in the node would keep, the node keeps. */
  lemma {:induction false} KeptInside(root: Json, node: Json, stack: set<string>, ref: string, x: string)
    requires BareRefs(node) && ref in Refs(node) && Keeps(root, Resolve(root, Stub(ref), stack), x)
    ensures Keeps(root, Resolve(root, node, stack), x)
    decreases node
  {
    match node
    case Arr(items) =>
      var i :| 0 <= i < |items| && ref in Refs(items[i]);
      KeptInside(root, items[i], stack, ref, x);
      assert Resolve(root, node, stack).items[i] == Resolve(root, items[i], stack);
    case Obj(fields) =>
      if InternalRef(node).None? {
        var k :| k in fields && ref in Refs(fields[k]);
        KeptInside(root, fields[k], stack, ref, x);
        KeptByMember(root, node, stack, x);
      } else {
        BareRef(node);
      }
    case _ =>
  }

  /** A walk over fresh refs that then meets one of its own keeps it. */
  lemma {:induction false} WalkIsKept(root: Json, node: Json, stack: set<string>, walk: seq<string>, x: string)
    requires BareRefs(root) && BareRefs(node) && IsWalk(root, node, walk) && x in Refs(End(root, node, walk))
    requires Distinct(walk) && (forall s :: s in walk ==> s !in stack)
    requires (x in stack || x in walk) && !Follow(root, x).Null?
    ensures Keeps(root, Resolve(root, node, stack), x)
    decreases |walk|
  {
    RefsArePointers(End(root, node, walk), x);
    if walk == [] {
      StubOnStack(root, x, stack);
      KeptInside(root, node, stack, x, x);
    } else {
      var ref, rest := walk[0], walk[1..];
      RefsArePointers(node, ref);
      BareTarget(root, ref);
      assert walk == [ref] + rest;
      assert End(root, node, walk) == End(root, Follow(root, ref), rest);
      WalkIsKept(root, Follow(root, ref), stack + {ref}, rest, x);
      NotNullOnWalk(root, node, walk, x);
      ResolveStub(root, ref, stack);
      KeptInside(root, node, stack, ref, x);
    }
  }

  lemma NotNullOnWalk(root: Json, node: Json, walk: seq<string>, x: string)
    requires IsWalk(root, node, walk) && walk != [] && x in Refs(End(root, node, walk))
    ensures !Follow(root, walk[0]).Null?
  {
    if |walk| > 1 { assert walk[1..][0] in Refs(Follow(root, walk[0])); }
  }

  // ---- The second pass ----

  lemma {:induction false} AliasesSettle(root: Json, j: Json)
    requires BareRefs(root) && BareRefs(j) && forall x :: Keeps(root, j, x) ==> AliasLoop(root, x)
    ensures Settled(root, j, {})
  {
    match j
    case Arr(items) =>
      forall i | 0 <= i < |items| ensures Settled(root, items[i], {}) {
        AliasesSettle(root, items[i]);
      }
    case Obj(fields) =>
      if InternalRef(j).None? {
        forall k | k in fields ensures Settled(root, fields[k], {}) {
          AliasesSettle(root, fields[k]);
        }
      } else if !Dangling(root, j) {
        BareRef(j);
        SettledStub(root, InternalRef(j).value);
      }
    case _ =>
  }

  lemma {:induction false} SettledIsAliases(root: Json, j: Json, x: string)
    requires BareRefs(root) && BareRefs(j) && Settled(root, j, {}) && Keeps(root, j, x)
    ensures AliasLoop(root, x)
  {
    match j
    case Arr(items) =>
      var i :| 0 <= i < |items| && Keeps(root, items[i], x);
      SettledIsAliases(root, items[i], x);
    case Obj(fields) =>
      if InternalRef(j).None? {
        var k :| k in fields && Keeps(root, fields[k], x);
        SettledIsAliases(root, fields[k], x);
      } else {
        BareRef(j);
        KeptByStub(root, InternalRef(j).value, x);
        SettledStub(root, x);
      }
    case _ =>
  }

  /** When every kept ref is on an alias loop, so is the end of every walk that passes a ref twice. */
  lemma {:induction false} RepeatIsAlias(root: Json, node: Json, walk: seq<string>)
    requires BareRefs(root) && BareRefs(node) && IsWalk(root, node, walk) && !Distinct(walk)
    requires forall x :: Keeps(root, Resolve(root, node, {}), x) ==> AliasLoop(root, x)
    ensures AliasLoop(root, walk[|walk| - 1])
    decreases |walk|
  {
    var init, last := walk[..|walk| - 1], walk[|walk| - 1];
    assert walk == init + [last];
    WalkOn(root, node, init, last);
    if Distinct(init) {
      RepeatedLast(init, last);
      Resolvable(root, node, init, last);
      WalkIsKept(root, node, {}, init, last);
    } else {
      RepeatIsAlias(root, node, init);
      OnAlongLoop(root, init[|init| - 1], last);
    }
  }

  lemma RepeatedLast<T>(init: seq<T>, last: T)
    requires Distinct(init) && !Distinct(init + [last])
    ensures last in init
  {}

  /** Whatever a walk goes on from has a target. */
  lemma {:induction false} Resolvable(root: Json, node: Json, walk: seq<string>, x: string)
    requires IsWalk(root, node, walk) && x in Refs(End(root, node, walk))
    ensures forall y :: y in walk ==> !Follow(root, y).Null?
    decreases |walk|
  {
    if walk != [] {
      var rest := walk[1..];
      assert walk == [walk[0]] + rest;
      assert End(root, node, walk) == End(root, Follow(root, walk[0]), rest);
      Resolvable(root, Follow(root, walk[0]), rest, x);
      NotNullOnWalk(root, node, walk, x);
    }
  }

  /**
   * Where refs stand alone, the second pass changes nothing exactly when every ref that some walk along
   * the raw refs comes to a second time is an alias of an alias, and so on, back to itself.
   */
  lemma SecondPassOnLoops(root: Json, node: Json)
    requires BareRefs(root) && BareRefs(node)
    ensures
      var once := Resolve(root, node, {});
      Resolve(root, once, {}) == once <==> forall x :: ComesRound(root, node, x) ==> AliasLoop(root, x)
  {
    var once := Resolve(root, node, {});
    ResolveKeepsBare(root, node, {});
    SecondPassExact(root, node);
    if Settled(root, once, {}) {
      forall x | ComesRound(root, node, x) ensures AliasLoop(root, x) {
        SettledLoops(root, node, x);
      }
    }
    if forall x :: ComesRound(root, node, x) ==> AliasLoop(root, x) {
      forall x | Keeps(root, once, x) ensures AliasLoop(root, x) {
        KeptComesRound(root, node, [], node, {}, x);
      }
      AliasesSettle(root, once);
    }
  }

  lemma SettledLoops(root: Json, node: Json, x: string)
    requires BareRefs(root) && BareRefs(node) && ComesRound(root, node, x)
    requires Settled(root, Resolve(root, node, {}), {})
    ensures AliasLoop(root, x)
  {
    var walk :| IsWalk(root, node, walk) && x in walk && x in Refs(End(root, node, walk));
    WalkOn(root, node, walk, x);
    var i :| 0 <= i < |walk| && walk[i] == x;
    assert (walk + [x])[i] == (walk + [x])[|walk|];
    ResolveKeepsBare(root, node, {});
    forall y | Keeps(root, Resolve(root, node, {}), y) ensures AliasLoop(root, y) {
      SettledIsAliases(root, Resolve(root, node, {}), y);
    }
    RepeatIsAlias(root, node, walk + [x]);
  }
}
