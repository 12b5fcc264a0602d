/**
 * JSON Pointer evaluation over a parsed document (section 4 of RFC 6901), with the
 * Python reading of list indices. An unresolved pointer and a JSON null both come
 * out as `Null`, as Python's `None` does.
 */
module JsonPointer {
  import opened Prelude
  import opened Json

  /** Digits with single underscores between them, most significant first. */
  function DigitsFrom(s: string, acc: int, afterDigit: bool): Option<int> {
    if s == [] then
      if afterDigit then Some(acc) else None
    else if '0' <= s[0] <= '9' then
      DigitsFrom(s[1..], 10 * acc + (s[0] as int - '0' as int), true)
    else if s[0] == '_' && afterDigit then
      DigitsFrom(s[1..], acc, false)
    else
      None
  }

  /** Python's `int(text)` over ASCII text; `None` is its `ValueError`. */
  function PyInt(text: string): Option<int> {
    var t := Strip(text);
    if t != [] && t[0] in "+-" then
      match DigitsFrom(t[1..], 0, false)
      case None => None
      case Some(n) => Some(if t[0] == '-' then -n else n)
    else
      match DigitsFrom(t, 0, false)
      case None => None
      case Some(n) => Some(n)
  }

  /** One step down: a member of an object, an element of an array, or nothing. */
  function Child(node: Json, key: string): Json {
    match node
    case Obj(fields) => Get(fields, key)
    case Arr(items) =>
      (match PyInt(key)
       case Some(i) => if 0 <= i < |items| then items[i] else Null
       case None => Null)
    case _ => Null
  }

  function Unescape(raw: string): string {
    ReplacePair(ReplacePair(raw, '~', '1', '/'), '~', '0', '~')
  }

  function Walk(node: Json, tokens: seq<string>): Json
    decreases |tokens|
  {
    if tokens == [] then node else Walk(Child(node, Unescape(tokens[0])), tokens[1..])
  }

  function Follow(root: Json, pointer: string): Json {
    if StartsWith(pointer, "#/") then Walk(root, Split(pointer[2..], '/')) else Null
  }

  lemma WalkNull(tokens: seq<string>)
    ensures Walk(Null, tokens) == Null
  {}

  /** The loop of the source: walk the tokens, giving up at the first scalar. */
  method FollowPointer(root: Json, pointer: string) returns (node: Json)
    ensures node == Follow(root, pointer)
  {
    if !StartsWith(pointer, "#/") {
      return Null;
    }
    node := root;
    var tokens := Split(pointer[2..], '/');
    for k := 0 to |tokens|
      invariant Walk(node, tokens[k..]) == Follow(root, pointer)
    {
      var key := Unescape(tokens[k]);
      assert tokens[k..][1..] == tokens[k + 1..];
      if node.Obj? {
        node := Get(node.fields, key);
      } else if node.Arr? {
        var parsed := PyInt(key);
        if parsed.None? || parsed.value < 0 || parsed.value >= |node.items| {
          WalkNull(tokens[k + 1..]);
          return Null;
        }
        node := node.items[parsed.value];
      } else {
        WalkNull(tokens[k + 1..]);
        return Null;
      }
    }
  }

  // ---- The pointer syntax of RFC 6901, as an independent account of the same lookup ----

  /** Escaping of section 3: `~` is written `~0` and `/` is written `~1`. */
  function Escape(key: string): string {
    if key == [] then ""
    else (if key[0] == '~' then "~0" else if key[0] == '/' then "~1" else [key[0]]) + Escape(key[1..])
  }

  function EscapeAll(keys: seq<string>): seq<string> {
    seq(|keys|, i requires 0 <= i < |keys| => Escape(keys[i]))
  }

  /** The fragment pointer naming the value reached by a path of keys. */
  function PointerTo(keys: seq<string>): string {
    "#/" + Join(EscapeAll(keys), '/')
  }

  function Descend(node: Json, keys: seq<string>): Json
    decreases |keys|
  {
    if keys == [] then node else Descend(Child(node, keys[0]), keys[1..])
  }

  function EscapeTildes(key: string): string {
    if key == [] then ""
    else (if key[0] == '~' then "~0" else [key[0]]) + EscapeTildes(key[1..])
  }

  lemma {:induction false} UnescapeSlashes(key: string)
    ensures ReplacePair(Escape(key), '~', '1', '/') == EscapeTildes(key)
  {
    if key != [] {
      var rest := Escape(key[1..]);
      UnescapeSlashes(key[1..]);
      if key[0] == '~' {
        ReplaceMissTwice(rest, '0', '~', '1', '/');
      } else if key[0] == '/' {
        ReplaceHit(rest, '~', '1', '/');
      } else {
        ReplaceMiss(rest, key[0], '~', '1', '/');
      }
    }
  }

  lemma {:induction false} UnescapeTildes(key: string)
    ensures ReplacePair(EscapeTildes(key), '~', '0', '~') == key
  {
    if key != [] {
      UnescapeTildes(key[1..]);
      var rest := EscapeTildes(key[1..]);
      if key[0] == '~' {
        ReplaceHit(rest, '~', '0', '~');
      } else {
        ReplaceMiss(rest, key[0], '~', '0', '~');
      }
      assert [key[0]] + key[1..] == key;
    }
  }

  lemma EscapeRoundTrip(key: string)
    ensures Unescape(Escape(key)) == key
    ensures '/' !in Escape(key)
  {
    UnescapeSlashes(key);
    UnescapeTildes(key);
    EscapeHasNoSlash(key);
  }

  lemma EscapeHasNoSlash(key: string)
    ensures '/' !in Escape(key)
  {}

  lemma {:induction false} WalkEscaped(node: Json, keys: seq<string>)
    ensures Walk(node, EscapeAll(keys)) == Descend(node, keys)
    decreases |keys|
  {
    if keys != [] {
      EscapeRoundTrip(keys[0]);
      WalkEscaped(Child(node, keys[0]), keys[1..]);
      assert EscapeAll(keys)[1..] == EscapeAll(keys[1..]);
    }
  }

  /** Every non-empty path of keys, whatever characters they hold, has a pointer that finds it. */
  lemma PointerFindsPath(root: Json, keys: seq<string>)
    requires keys != []
    ensures Follow(root, PointerTo(keys)) == Descend(root, keys)
  {
    var tokens := EscapeAll(keys);
    forall t | t in tokens ensures '/' !in t {
      var i :| 0 <= i < |tokens| && tokens[i] == t;
      EscapeRoundTrip(keys[i]);
    }
    SplitJoin(tokens, '/');
    assert PointerTo(keys)[2..] == Join(tokens, '/');
    WalkEscaped(root, keys);
  }

  // ---- Members and list items ----

  datatype Step = Member(key: string) | Item(index: nat)

  /** The value that the steps lead to, one by one. */
  function Reach(node: Json, steps: seq<Step>): Option<Json>
    decreases |steps|
  {
    if steps == [] then Some(node)
    else
      match steps[0]
      case Member(key) => if node.Obj? && key in node.fields then Reach(node.fields[key], steps[1..]) else None
      case Item(i) => if node.Arr? && i < |node.items| then Reach(node.items[i], steps[1..]) else None
  }

  function Token(step: Step): string {
    match step
    case Member(key) => Escape(key)
    case Item(i) => NatText(i)
  }

  function Tokens(steps: seq<Step>): seq<string> {
    seq(|steps|, i requires 0 <= i < |steps| => Token(steps[i]))
  }

  /** The pointer of section 6 of RFC 6901, with list indices in decimal. */
  function PointerOf(steps: seq<Step>): string {
    "#/" + Join(Tokens(steps), '/')
  }

  lemma {:induction false} ReplaceNone(s: string, a: char, b: char, c: char)
    requires a !in s
    ensures ReplacePair(s, a, b, c) == s
  {
    if |s| >= 2 { ReplaceNone(s[1..], a, b, c); }
  }

  lemma {:induction false} DigitsOfNat(n: nat, rest: string, afterDigit: bool)
    ensures DigitsFrom(NatText(n) + rest, 0, afterDigit) == DigitsFrom(rest, n, true)
  {
    if n < 10 {
      assert (NatText(n) + rest)[1..] == rest;
    } else {
      var tail := [DigitChar(n % 10)] + rest;
      DigitsOfNat(n / 10, tail, afterDigit);
      assert NatText(n) + rest == NatText(n / 10) + tail;
      assert tail[1..] == rest;
    }
  }

  /** Python reads a decimal index back. */
  lemma PyIntOfNat(n: nat)
    ensures PyInt(NatText(n)) == Some(n)
  {
    var text := NatText(n);
    NatTextDigits(n);
    StripPlain(text);
    assert text[0] in text;
    DigitsOfNat(n, "", false);
    NothingAdded(text);
  }

  lemma StripPlain(text: string)
    requires text != "" && forall c :: c in text ==> IsDigit(c)
    ensures Strip(text) == text
  {
    assert text[0] in text && text[|text| - 1] in text;
  }

  lemma TokenIsPlain(i: nat)
    ensures Unescape(NatText(i)) == NatText(i) && '/' !in NatText(i)
  {
    NatTextDigits(i);
    ReplaceNone(NatText(i), '~', '1', '/');
    ReplaceNone(NatText(i), '~', '0', '~');
  }

  lemma {:induction false} WalkSteps(node: Json, steps: seq<Step>, rest: seq<string>)
    requires Reach(node, steps).Some?
    ensures Walk(node, Tokens(steps) + rest) == Walk(Reach(node, steps).value, rest)
    decreases |steps|
  {
    var tokens := Tokens(steps) + rest;
    if steps == [] {
      assert tokens == rest;
    } else {
      assert tokens[1..] == Tokens(steps[1..]) + rest;
      match steps[0]
      case Member(key) =>
        EscapeRoundTrip(key);
        WalkSteps(node.fields[key], steps[1..], rest);
      case Item(i) =>
        TokenIsPlain(i);
        PyIntOfNat(i);
        WalkSteps(node.items[i], steps[1..], rest);
    }
  }

  lemma FollowTokens(root: Json, steps: seq<Step>)
    requires steps != []
    ensures Follow(root, PointerOf(steps)) == Walk(root, Tokens(steps))
  {
    var tokens := Tokens(steps);
    forall t | t in tokens ensures '/' !in t {
      var i :| 0 <= i < |tokens| && tokens[i] == t;
      TokenHasNoSlash(steps[i]);
    }
    SplitJoin(tokens, '/');
    assert PointerOf(steps)[2..] == Join(tokens, '/');
  }

  lemma TokenHasNoSlash(step: Step)
    ensures '/' !in Token(step)
  {
    match step
    case Member(key) => EscapeHasNoSlash(key);
    case Item(i) => TokenIsPlain(i);
  }

  /** The pointer written for any path of members and list indices finds what they lead to. */
  lemma PointerFindsSteps(root: Json, steps: seq<Step>)
    requires steps != [] && Reach(root, steps).Some?
    ensures Follow(root, PointerOf(steps)) == Reach(root, steps).value
  {
    FollowTokens(root, steps);
    WalkSteps(root, steps, []);
    NothingAdded(Tokens(steps));
  }

  /** One step too far finds nothing: past the end of a list, at a missing member, or on a scalar. */
  lemma PointerMisses(root: Json, steps: seq<Step>, last: Step)
    requires Reach(root, steps).Some? && Reach(root, steps + [last]).None?
    requires Reach(root, steps).value.Arr? ==> last.Item?
    requires Reach(root, steps).value.Obj? ==> last.Member?
    ensures Follow(root, PointerOf(steps + [last])) == Null
  {
    var node := Reach(root, steps).value;
    ReachOn(root, steps, last);
    FollowTokens(root, steps + [last]);
    assert Tokens(steps + [last]) == Tokens(steps) + [Token(last)];
    WalkSteps(root, steps, [Token(last)]);
    assert [Token(last)][1..] == [];
    match last
    case Member(key) => EscapeRoundTrip(key);
    case Item(i) =>
      TokenIsPlain(i);
      PyIntOfNat(i);
  }

  lemma {:induction false} ReachOn(node: Json, steps: seq<Step>, last: Step)
    requires Reach(node, steps).Some?
    ensures Reach(node, steps + [last]) == Reach(Reach(node, steps).value, [last])
    decreases |steps|
  {
    if steps == [] {
      assert [] + [last] == [last];
    } else {
      assert (steps + [last])[1..] == steps[1..] + [last];
      match steps[0]
      case Member(key) => ReachOn(node.fields[key], steps[1..], last);
      case Item(i) => ReachOn(node.items[i], steps[1..], last);
    }
  }

  /** A token that is no decimal integer finds nothing in a list, nor does a negative one. */
  lemma TextMissesList(items: seq<Json>, key: string)
    requires PyInt(key).None? || PyInt(key).value < 0
    ensures Child(Arr(items), key) == Null
  {}

  // ---- What Python's `int` reads ----

  /** Digits with single underscores between them, after a digit or not. */
  ghost predicate Grouped(s: string, afterDigit: bool) {
    && (if s == "" then afterDigit else (s[0] == '_' ==> afterDigit) && IsDigit(s[|s| - 1]))
    && (forall i :: 0 <= i < |s| ==> IsDigit(s[i]) || s[i] == '_')
    && forall i :: 0 <= i < |s| - 1 ==> s[i] == '_' ==> s[i + 1] != '_'
  }

  function ValueOf(s: string, acc: int): int {
    if s == "" then acc
    else if s[0] == '_' then ValueOf(s[1..], acc)
    else ValueOf(s[1..], 10 * acc + (s[0] as int - '0' as int))
  }

  lemma GroupedTail(s: string, afterDigit: bool)
    requires s != ""
    ensures
      Grouped(s, afterDigit) <==>
        if IsDigit(s[0]) then Grouped(s[1..], true) else s[0] == '_' && afterDigit && Grouped(s[1..], false)
  {
    var rest := s[1..];
    assert forall i :: 0 <= i < |rest| ==> rest[i] == s[i + 1];
    if Grouped(rest, IsDigit(s[0])) && (IsDigit(s[0]) || (s[0] == '_' && afterDigit)) {
      forall i | 0 <= i < |s| ensures IsDigit(s[i]) || s[i] == '_' {
        if i > 0 { assert s[i] == rest[i - 1]; }
      }
      forall i | 0 <= i < |s| - 1 && s[i] == '_' ensures s[i + 1] != '_' {
        if i > 0 { assert s[i] == rest[i - 1] && s[i + 1] == rest[i]; } else { assert s[1] == rest[0]; }
      }
    }
  }

  lemma {:induction false} DigitsExact(s: string, acc: int, afterDigit: bool)
    ensures DigitsFrom(s, acc, afterDigit) == if Grouped(s, afterDigit) then Some(ValueOf(s, acc)) else None
  {
    if s != "" {
      GroupedTail(s, afterDigit);
      if IsDigit(s[0]) {
        DigitsExact(s[1..], 10 * acc + (s[0] as int - '0' as int), true);
      } else {
        DigitsExact(s[1..], acc, false);
      }
    }
  }

  /** Around white space: an optional sign and grouped digits, read in base ten. */
  lemma PyIntExact(text: string, n: int)
    ensures
      var t := Strip(text);
      var signed := t != "" && (t[0] == '+' || t[0] == '-');
      var body := if signed then t[1..] else t;
      PyInt(text) == Some(n)
      <==> Grouped(body, false) && ValueOf(body, 0) == if signed && t[0] == '-' then -n else n
  {
    var t := Strip(text);
    if t != "" { DigitsExact(t[1..], 0, false); }
    DigitsExact(t, 0, false);
  }
}
