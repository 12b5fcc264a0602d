/**
 * `stableStringify`: canonical text of a JavaScript value. Objects keep their insertion order
 * here; what a value means is the unordered `Json` it denotes.
 */
module StableJson {
  import opened Prelude
  import opened Json
  import opened JsonText
  import opened Sorting

  /**
   * A JavaScript value with integer numbers. `JOther` is anything `typeof` calls neither string,
   * number, boolean nor object (undefined, a function, …), with the text `String(value)` gives.
   */
  datatype JsValue =
    | JNull
    | JBool(b: bool)
    | JInt(n: int)
    | JStr(s: string)
    | JOther(text: string)
    | JArr(items: seq<JsValue>)
    | JObj(keys: seq<string>, at: map<string, JsValue>)

  /** The keys of an object are listed once each. */
  ghost predicate WellFormed(v: JsValue) {
    match v
    case JArr(items) => forall i :: 0 <= i < |items| ==> WellFormed(items[i])
    case JObj(keys, at) =>
      && Distinct(keys)
      && (forall k :: k in keys <==> k in at)
      && forall k :: k in at ==> WellFormed(at[k])
    case _ => true
  }

  // ---- Key order ----

  /** Orders characters as their UTF-16 code units do: astral ones before U+E000 and above. */
  function CodeUnitRank(c: char): int {
    var n := c as int;
    if n < 0xd800 || n >= 0x1_0000 then n else n + 0x11_0000
  }

  /** JavaScript's default string order. */
  predicate Less(a: string, b: string) {
    if b == "" then false
    else if a == "" then true
    else if a[0] != b[0] then CodeUnitRank(a[0]) < CodeUnitRank(b[0])
    else Less(a[1..], b[1..])
  }

  /** The UTF-16 code units of a text. */
  function Units(s: string): seq<int> {
    if s == "" then []
    else
      var n := s[0] as int;
      (if n < 0x1_0000 then [n] else [0xd800 + (n - 0x1_0000) / 0x400, 0xdc00 + (n - 0x1_0000) % 0x400]) + Units(s[1..])
  }

  /** The first unit that differs is lower, or the other text goes on. */
  ghost predicate LowerUnits(a: seq<int>, b: seq<int>) {
    exists k :: 0 <= k <= |a| && k < |b| && a[..k] == b[..k] && (k == |a| || a[k] < b[k])
  }

  lemma LowerUnitsSkip(p: seq<int>, a: seq<int>, b: seq<int>)
    ensures LowerUnits(p + a, p + b) <==> LowerUnits(a, b)
  {
    if LowerUnits(a, b) {
      var k :| 0 <= k <= |a| && k < |b| && a[..k] == b[..k] && (k == |a| || a[k] < b[k]);
      assert (p + a)[..|p| + k] == p + a[..k] && (p + b)[..|p| + k] == p + b[..k];
    }
    if LowerUnits(p + a, p + b) {
      var x, y := p + a, p + b;
      assert forall m :: 0 <= m < |p| ==> x[m] == y[m];
      var k :| 0 <= k <= |x| && k < |y| && x[..k] == y[..k] && (k == |x| || x[k] < y[k]);
      assert a[..k - |p|] == x[..k][|p|..] && b[..k - |p|] == y[..k][|p|..];
    }
  }

  lemma LowerUnitsFirst(a: seq<int>, b: seq<int>)
    requires a != [] && b != [] && a[0] != b[0]
    ensures LowerUnits(a, b) <==> a[0] < b[0]
  {
    if a[0] < b[0] {
      assert a[..0] == b[..0];
    }
    if k :| 0 <= k <= |a| && k < |b| && a[..k] == b[..k] && (k == |a| || a[k] < b[k]) {
      if k > 0 { assert a[..k][0] == b[..k][0]; }
    }
  }

  /** JavaScript's order compares code units. */
  lemma {:induction false} LessIsUtf16(a: string, b: string)
    ensures Less(a, b) <==> LowerUnits(Units(a), Units(b))
  {
    if a != "" && b != "" {
      var x, y := Units([a[0]]), Units([b[0]]);
      UnitsOfHead(a);
      UnitsOfHead(b);
      if a[0] == b[0] {
        LessIsUtf16(a[1..], b[1..]);
        LowerUnitsSkip(x, Units(a[1..]), Units(b[1..]));
      } else {
        UnitsApart(a[0], b[0], Units(a[1..]), Units(b[1..]));
      }
    } else if b != "" {
      UnitsOfHead(b);
      assert Units(a)[..0] == Units(b)[..0];
    }
  }

  lemma UnitsOfHead(s: string)
    requires s != ""
    ensures Units(s) == Units([s[0]]) + Units(s[1..]) && Units([s[0]]) != []
  {
    var one := [s[0]];
    assert one[1..] == "" && Units("") == [];
    assert Units(one) + Units(s[1..]) == Units(s);
  }

  lemma UnitsApart(c: char, d: char, a: seq<int>, b: seq<int>)
    requires c != d
    ensures LowerUnits(Units([c]) + a, Units([d]) + b) <==> CodeUnitRank(c) < CodeUnitRank(d)
  {
    var x, y := Units([c]), Units([d]);
    assert [c][1..] == "" && [d][1..] == "";
    if x[0] != y[0] {
      LowerUnitsFirst(x + a, y + b);
    } else {
      assert x == [x[0]] + [x[1]] && y == [x[0]] + [y[1]];
      assert x + a == [x[0]] + ([x[1]] + a) && y + b == [x[0]] + ([y[1]] + b);
      LowerUnitsSkip([x[0]], [x[1]] + a, [y[1]] + b);
      LowerUnitsFirst([x[1]] + a, [y[1]] + b);
    }
  }

  lemma {:induction false} LessIrreflexive(a: string)
    ensures !Less(a, a)
  {
    if a != "" { LessIrreflexive(a[1..]); }
  }

  lemma {:induction false} LessTransitive(a: string, b: string, c: string)
    ensures Less(a, b) && Less(b, c) ==> Less(a, c)
    ensures !Less(a, b) && !Less(b, c) ==> !Less(a, c)
  {
    if a != "" && b != "" && c != "" {
      LessTransitive(a[1..], b[1..], c[1..]);
    }
  }

  lemma {:induction false} LessTotal(a: string, b: string)
    ensures a == b || Less(a, b) || Less(b, a)
  {
    if a != "" && b != "" && a[0] == b[0] {
      LessTotal(a[1..], b[1..]);
      assert a == [a[0]] + a[1..] && b == [b[0]] + b[1..];
    }
  }

  lemma LessIsOrder()
    ensures WeakOrder(Less)
  {
    forall a ensures !Less(a, a) { LessIrreflexive(a); }
    forall a, b, c
      ensures (Less(a, b) && Less(b, c) ==> Less(a, c)) && (!Less(a, b) && !Less(b, c) ==> !Less(a, c))
    {
      LessTransitive(a, b, c);
    }
  }

  lemma LessSeparates(keys: seq<string>)
    ensures Separates(Less, keys)
  {
    forall a, b | a in keys && b in keys && a != b
      ensures Less(a, b) || Less(b, a)
    {
      LessTotal(a, b);
    }
  }

  /** One set of keys has one sorted list. */
  lemma SortedKeysAgree(a: seq<string>, b: seq<string>)
    requires Distinct(a) && Distinct(b) && forall k :: k in a <==> k in b
    ensures Sort(Less, a) == Sort(Less, b)
  {
    DistinctMultiset(a, b);
    LessIsOrder();
    LessSeparates(a);
    SortForgetsOrder(Less, a, b);
  }

  // ---- The printer ----

  /** `JSON.stringify` on one character. */
  function EscapeJs(c: char): string {
    if c == '"' then "\\\""
    else if c == '\\' then "\\\\"
    else if c >= ' ' then [c]
    else if c == '\n' then "\\n"
    else if c == '\r' then "\\r"
    else if c == '\t' then "\\t"
    else if c as int == 8 then "\\b"
    else if c as int == 12 then "\\f"
    else "\\u" + Hex4(c as int)
  }

  function Stringify(v: JsValue): string
    decreases v, 1
  {
    match v
    case JNull => "null"
    case JBool(b) => if b then "true" else "false"
    case JInt(n) => IntText(n)
    case JStr(s) => Quote(EscapeJs, s)
    case JOther(text) => Quote(EscapeJs, text)
    case JArr(items) => ['['] + (Commas(ItemTexts(v)) + [']'])
    case JObj(keys, _) => ['{'] + (Commas(MemberTexts(v, Sort(Less, keys))) + ['}'])
  }

  function ItemTexts(v: JsValue): seq<string>
    requires v.JArr?
    decreases v, 0
  {
    seq(|v.items|, i requires 0 <= i < |v.items| => Stringify(v.items[i]))
  }

  function MemberTexts(v: JsValue, keys: seq<string>): seq<string>
    requires v.JObj?
    decreases v, 0
  {
    seq(|keys|, i requires 0 <= i < |keys| =>
      Quote(EscapeJs, keys[i]) + ([':'] + if keys[i] in v.at then Stringify(v.at[keys[i]]) else ""))
  }

  function Commas(parts: seq<string>): string {
    if parts == [] then "" else if |parts| == 1 then parts[0] else parts[0] + ([','] + Commas(parts[1..]))
  }

  /** What the text stands for: key order is gone, and `JOther` has become text. */
  function Meaning(v: JsValue): Json {
    match v
    case JNull => Null
    case JBool(b) => Bool(b)
    case JInt(n) => Num(n)
    case JStr(s) => Str(s)
    case JOther(text) => Str(text)
    case JArr(items) => Arr(seq(|items|, i requires 0 <= i < |items| => Meaning(items[i])))
    case JObj(_, at) => Obj(map k | k in at :: Meaning(at[k]))
  }

  /** The same value but for the order of keys; text and what prints as text are not told apart. */
  ghost predicate SameValue(a: JsValue, b: JsValue) {
    match a
    case JNull => b.JNull?
    case JBool(x) => b.JBool? && b.b == x
    case JInt(n) => b.JInt? && b.n == n
    case JStr(s) => (b.JStr? && b.s == s) || (b.JOther? && b.text == s)
    case JOther(s) => (b.JStr? && b.s == s) || (b.JOther? && b.text == s)
    case JArr(items) =>
      b.JArr? && |b.items| == |items| && forall i :: 0 <= i < |items| ==> SameValue(items[i], b.items[i])
    case JObj(_, at) =>
      && b.JObj? && (forall k :: k in at <==> k in b.at)
      && forall k :: k in at ==> SameValue(at[k], b.at[k])
  }

  lemma {:induction false} MeaningExact(a: JsValue, b: JsValue)
    ensures Meaning(a) == Meaning(b) <==> SameValue(a, b)
  {
    match a
    case JArr(items) =>
      if b.JArr? && |b.items| == |items| {
        forall i | 0 <= i < |items| ensures Meaning(items[i]) == Meaning(b.items[i])
          <==> SameValue(items[i], b.items[i]) {
          MeaningExact(items[i], b.items[i]);
        }
        SameItems(a, b);
      } else if b.JArr? {
        assert |Meaning(a).items| == |items| && |Meaning(b).items| == |b.items|;
      }
    case JObj(_, at) =>
      if b.JObj? {
        forall k | k in at && k in b.at ensures Meaning(at[k]) == Meaning(b.at[k]) <==> SameValue(at[k], b.at[k]) {
          MeaningExact(at[k], b.at[k]);
        }
        SameMembers(a, b);
      }
    case _ =>
  }

  lemma SameItems(a: JsValue, b: JsValue)
    requires a.JArr? && b.JArr? && |a.items| == |b.items|
    ensures
      Meaning(a) == Meaning(b) <==> forall i :: 0 <= i < |a.items| ==> Meaning(a.items[i]) == Meaning(b.items[i])
  {
    if Meaning(a) == Meaning(b) {
      forall i | 0 <= i < |a.items| ensures Meaning(a.items[i]) == Meaning(b.items[i]) {
        assert Meaning(a).items[i] == Meaning(b).items[i];
      }
    }
  }

  lemma SameMembers(a: JsValue, b: JsValue)
    requires a.JObj? && b.JObj?
    ensures
      Meaning(a) == Meaning(b) <==>
        && (forall k :: k in a.at <==> k in b.at)
        && forall k :: k in a.at && k in b.at ==> Meaning(a.at[k]) == Meaning(b.at[k])
  {
    var x, y := Meaning(a).fields, Meaning(b).fields;
    assert forall k :: k in x <==> k in a.at;
    assert forall k :: k in y <==> k in b.at;
    if Meaning(a) == Meaning(b) {
      forall k | k in a.at && k in b.at ensures Meaning(a.at[k]) == Meaning(b.at[k]) {
        assert x[k] == y[k];
      }
    }
  }

  // ---- Reading the text back ----

  lemma EscapeJsSpells()
    ensures Spells(EscapeJs)
  {
    forall c, rest
      ensures SpellsBefore(EscapeJs, c, rest)
    {
      EscapeJsReads(c, rest);
    }
  }

  lemma EscapeJsReads(c: char, rest: string)
    ensures ReadChar(EscapeJs(c) + rest) == Some((c, rest))
    ensures EscapeJs(c) != "" && EscapeJs(c)[0] != '"'
  {
    var e := EscapeJs(c);
    if |e| == 6 {
      ReadUnicodeEscape(c as int, rest);
    } else if |e| == 2 {
      ReadNamedEscape(e[1], rest);
      assert e == ['\\', e[1]];
    } else {
      assert ([c] + rest)[1..] == rest;
    }
  }

  lemma StringifyStart(v: JsValue)
    ensures Stringify(v) != "" && Stringify(v)[0] !in "]}"
  {
    if v.JInt? {
      ReadNatText(if v.n < 0 then -v.n else v.n, "");
    }
  }

  lemma {:induction false} ReadStringify(v: JsValue, rest: string)
    requires WellFormed(v) && !DigitNext(rest)
    ensures ReadValue(Stringify(v) + rest) == Some((Meaning(v), rest))
    decreases v, 1
  {
    match v
    case JNull => ReadKeyword("null", rest);
    case JBool(b) => ReadKeyword(if b then "true" else "false", rest);
    case JInt(n) => ReadIntText(n, rest);
    case JStr(s) => EscapeJsSpells(); ReadQuoted(EscapeJs, s, rest);
    case JOther(text) => EscapeJsSpells(); ReadQuoted(EscapeJs, text, rest);
    case JArr(_) => ReadArrayText(v, rest);
    case JObj(_, _) => ReadObjectText(v, rest);
  }

  lemma {:induction false} ReadArrayText(v: JsValue, rest: string)
    requires WellFormed(v) && v.JArr?
    ensures ReadValue(Stringify(v) + rest) == Some((Meaning(v), rest))
    decreases v, 0, |v.items| + 1
  {
    var texts := ItemTexts(v);
    var body := Commas(texts) + ([']'] + rest);
    assert Stringify(v) + rest == ['['] + body;
    if v.items == [] {
      assert body == [']'] + rest;
      ReadEmptyArray(rest);
      assert Meaning(v).items == [];
    } else {
      assert texts[0..] == texts && Meaning(v).items[0..] == Meaning(v).items;
      ReadItemTexts(v, 0, rest);
      StringifyStart(v.items[0]);
      CommasStart(texts, [']'] + rest);
      ReadArray(body, Meaning(v).items, rest);
    }
  }

  lemma {:induction false} ReadObjectText(v: JsValue, rest: string)
    requires WellFormed(v) && v.JObj?
    ensures ReadValue(Stringify(v) + rest) == Some((Meaning(v), rest))
    decreases v, 0, |v.keys| + 1
  {
    var sorted := Sort(Less, v.keys);
    var texts := MemberTexts(v, sorted);
    var body := Commas(texts) + (['}'] + rest);
    assert Stringify(v) + rest == ['{'] + body;
    SortMembers(Less, v.keys);
    assert MeaningOf(v.at, sorted) == Meaning(v).fields;
    if v.keys == [] {
      assert body == ['}'] + rest;
      ReadEmptyObject(rest);
      assert Meaning(v).fields == map[];
    } else {
      assert texts[0..] == texts && sorted[0..] == sorted;
      ReadMemberTexts(v, sorted, 0, rest);
      CommasStart(texts, ['}'] + rest);
      ReadObject(body, Meaning(v).fields, rest);
    }
  }

  lemma ReadKeyword(word: string, rest: string)
    requires word == "null" || word == "true" || word == "false"
    ensures ReadValue(word + rest) ==
            Some((if word == "null" then Null else Bool(word == "true"), rest))
  {
    assert (word + rest)[..|word|] == word && (word + rest)[|word|..] == rest;
    assert (word + rest)[0] == word[0];
  }

  lemma ReadEmptyArray(rest: string)
    ensures ReadValue(['['] + ([']'] + rest)) == Some((Arr([]), rest))
  {
    var s := ['['] + ([']'] + rest);
    assert s[1..] == [']'] + rest && s[2..] == rest;
    assert s[1..][..1] == "]";
  }

  lemma ReadEmptyObject(rest: string)
    ensures ReadValue(['{'] + (['}'] + rest)) == Some((Obj(map[]), rest))
  {
    var s := ['{'] + (['}'] + rest);
    assert s[1..] == ['}'] + rest && s[2..] == rest;
    assert s[1..][..1] == "}";
  }

  lemma ReadArray(body: string, items: seq<Json>, rest: string)
    requires body != "" && body[0] != ']' && ReadItems(body) == Some((items, rest))
    ensures ReadValue(['['] + body) == Some((Arr(items), rest))
  {
    var s := ['['] + body;
    assert s[1..] == body;
    assert body[..1] == [body[0]];
  }

  lemma ReadObject(body: string, fields: map<string, Json>, rest: string)
    requires body != "" && body[0] != '}' && ReadMembers(body) == Some((fields, rest))
    ensures ReadValue(['{'] + body) == Some((Obj(fields), rest))
  {
    var s := ['{'] + body;
    assert s[1..] == body;
    assert body[..1] == [body[0]];
  }

  lemma CommasStart(parts: seq<string>, rest: string)
    requires parts != [] && parts[0] != ""
    ensures Commas(parts) + rest != "" && (Commas(parts) + rest)[0] == parts[0][0]
  {}

  lemma CommasNext(parts: seq<string>, i: nat, end: string)
    requires i < |parts|
    ensures Commas(parts[i..]) + end
            == parts[i] + if i + 1 == |parts| then end else [','] + (Commas(parts[i + 1..]) + end)
  {
    if i + 1 < |parts| {
      assert parts[i..][1..] == parts[i + 1..];
    }
  }

  lemma {:induction false} ReadItemTexts(v: JsValue, i: nat, rest: string)
    requires WellFormed(v) && v.JArr? && i < |v.items|
    ensures ReadItems(Commas(ItemTexts(v)[i..]) + ([']'] + rest)) == Some((Meaning(v).items[i..], rest))
    decreases v, 0, |v.items| - i
  {
    var texts := ItemTexts(v);
    var end := [']'] + rest;
    CommasNext(texts, i, end);
    MeaningOfItems(v, i);
    if i + 1 == |v.items| {
      ReadStringify(v.items[i], end);
    } else {
      var after := [','] + (Commas(texts[i + 1..]) + end);
      assert after[1..] == Commas(texts[i + 1..]) + end;
      ReadStringify(v.items[i], after);
      ReadItemTexts(v, i + 1, rest);
    }
  }

  lemma MeaningOfItems(v: JsValue, i: nat)
    requires v.JArr? && i < |v.items|
    ensures Meaning(v).items[i..] == [Meaning(v.items[i])] + Meaning(v).items[i + 1..]
    ensures i + 1 == |v.items| ==> Meaning(v).items[i..] == [Meaning(v.items[i])]
  {}

  ghost function MeaningOf(at: map<string, JsValue>, keys: seq<string>): map<string, Json> {
    map k | k in keys && k in at :: Meaning(at[k])
  }

  lemma MeaningOfNext(at: map<string, JsValue>, keys: seq<string>, i: nat)
    requires i < |keys| && keys[i] in at
    ensures MeaningOf(at, keys[i..]) == map[keys[i] := Meaning(at[keys[i]])] + MeaningOf(at, keys[i + 1..])
    ensures i + 1 == |keys| ==> MeaningOf(at, keys[i..]) == map[keys[i] := Meaning(at[keys[i]])]
  {
    assert keys[i..] == [keys[i]] + keys[i + 1..];
  }

  lemma {:induction false} ReadMemberTexts(v: JsValue, keys: seq<string>, i: nat, rest: string)
    requires WellFormed(v) && v.JObj? && i < |keys| && forall k :: k in keys ==> k in v.at
    ensures MemberTexts(v, keys)[i] != "" && MemberTexts(v, keys)[i][0] == '"'
    ensures ReadMembers(Commas(MemberTexts(v, keys)[i..]) + (['}'] + rest)) == Some((MeaningOf(v.at, keys[i..]), rest))
    decreases v, 0, |keys| - i
  {
    var texts, value := MemberTexts(v, keys), v.at[keys[i]];
    var end := ['}'] + rest;
    CommasNext(texts, i, end);
    MeaningOfNext(v.at, keys, i);
    if i + 1 == |keys| {
      ReadStringify(value, end);
      ReadMember(keys[i], Stringify(value), Meaning(value), end);
      RegroupMember(Quote(EscapeJs, keys[i]), Stringify(value), end);
    } else {
      var after := [','] + (Commas(texts[i + 1..]) + end);
      assert after[1..] == Commas(texts[i + 1..]) + end;
      ReadStringify(value, after);
      ReadMemberTexts(v, keys, i + 1, rest);
      ReadMember(keys[i], Stringify(value), Meaning(value), after);
      RegroupMember(Quote(EscapeJs, keys[i]), Stringify(value), after);
    }
  }

  lemma RegroupMember(key: string, text: string, after: string)
    ensures (key + ([':'] + text)) + after == key + ([':'] + (text + after))
  {}

  /** One member, then a closing brace or a comma and more members. */
  lemma ReadMember(key: string, text: string, value: Json, after: string)
    requires ReadValue(text + after) == Some((value, after))
    requires after != "" && (after[0] == '}' || (after[0] == ',' && ReadMembers(after[1..]).Some?))
    ensures
      ReadMembers(Quote(EscapeJs, key) + ([':'] + (text + after))) ==
        if after[0] == '}' then Some((map[key := value], after[1..]))
        else Some((map[key := value] + ReadMembers(after[1..]).value.0, ReadMembers(after[1..]).value.1))
  {
    var colon := [':'] + (text + after);
    EscapeJsSpells();
    ReadQuoted(EscapeJs, key, colon);
    var s := Quote(EscapeJs, key) + colon;
    assert s[1..] == EscapeAll(EscapeJs, key) + (['"'] + colon);
    assert colon[1..] == text + after;
  }

  // ---- Same text, same meaning ----

  lemma {:induction false} SameMeaningSameText(a: JsValue, b: JsValue)
    requires WellFormed(a) && WellFormed(b) && Meaning(a) == Meaning(b)
    ensures Stringify(a) == Stringify(b)
    decreases a
  {
    match a
    case JArr(items) =>
      forall i | 0 <= i < |items|
        ensures i < |b.items| && Stringify(items[i]) == Stringify(b.items[i])
      {
        assert Meaning(a).items[i] == Meaning(b).items[i];
        SameMeaningSameText(items[i], b.items[i]);
      }
      assert |b.items| == |Meaning(b).items| == |items|;
      assert ItemTexts(a) == ItemTexts(b);
    case JObj(_, at) =>
      SameMeaningSameKeys(a, b);
      forall k | k in at
        ensures k in b.at && Stringify(at[k]) == Stringify(b.at[k])
      {
        assert Meaning(a).fields[k] == Meaning(b).fields[k];
        SameMeaningSameText(at[k], b.at[k]);
      }
      SameMembersSameText(a, b);
    case _ =>
  }

  lemma SameMeaningSameKeys(a: JsValue, b: JsValue)
    requires WellFormed(a) && WellFormed(b) && Meaning(a) == Meaning(b) && a.JObj?
    ensures b.JObj? && a.at.Keys == b.at.Keys && Sort(Less, a.keys) == Sort(Less, b.keys)
  {
    assert Meaning(a).fields.Keys == a.at.Keys && Meaning(b).fields.Keys == b.at.Keys;
    forall k ensures k in a.keys <==> k in b.keys {
      assert k in a.at <==> k in b.at;
    }
    SortedKeysAgree(a.keys, b.keys);
  }

  lemma SameMembersSameText(a: JsValue, b: JsValue)
    requires a.JObj? && b.JObj? && Sort(Less, a.keys) == Sort(Less, b.keys) && a.at.Keys == b.at.Keys
    requires forall k :: k in a.at ==> Stringify(a.at[k]) == Stringify(b.at[k])
    ensures Stringify(a) == Stringify(b)
  {
    var sorted := Sort(Less, a.keys);
    assert MemberTexts(a, sorted) == MemberTexts(b, sorted);
  }

  /**
   * Two values give the same text exactly when they mean the same: equal up to key order, with
   * whatever `typeof` sets apart as text.
   */
  lemma StringifyIsCanonical(a: JsValue, b: JsValue)
    requires WellFormed(a) && WellFormed(b)
    ensures Stringify(a) == Stringify(b) <==> Meaning(a) == Meaning(b)
    ensures Stringify(a) == Stringify(b) <==> SameValue(a, b)
  {
    MeaningExact(a, b);
    if Stringify(a) == Stringify(b) {
      ReadStringify(a, "");
      ReadStringify(b, "");
    } else if Meaning(a) == Meaning(b) {
      SameMeaningSameText(a, b);
    }
  }

  // ---- The text itself, on samples ----

  lemma LiteralTexts()
    ensures Stringify(JNull) == "null" && Stringify(JBool(true)) == "true" && Stringify(JBool(false)) == "false"
    ensures Stringify(JInt(0)) == "0" && Stringify(JInt(-42)) == "-42" && Stringify(JArr([])) == "[]"
    ensures Stringify(JStr("a")) == "\"a\"" && Stringify(JOther("a")) == "\"a\""
  {
    assert NatText(42) == NatText(4) + "2" && NatText(4) == "4";
    assert ItemTexts(JArr([])) == [];
  }

  /** The escapes of section 7 of RFC 8259: two characters where there is a name, four digits otherwise. */
  lemma EscapedTexts()
    ensures EscapeJs('"') == "\\\"" && EscapeJs('\\') == "\\\\" && EscapeJs('/') == "/"
    ensures EscapeJs('\n') == "\\n" && EscapeJs('\r') == "\\r" && EscapeJs('\t') == "\\t"
    ensures EscapeJs(8 as char) == "\\b" && EscapeJs(12 as char) == "\\f" && EscapeJs(31 as char) == "\\u001f"
    ensures EscapeJs('\U{e9}') == "\U{e9}"
  {}

  lemma IntIsText(n: int)
    ensures Stringify(JInt(n)) == IntText(n)
  {}

  lemma ArrayText(x: int, y: int)
    ensures Stringify(JArr([JInt(x), JInt(y)])) == "[" + IntText(x) + "," + IntText(y) + "]"
  {
    var v := JArr([JInt(x), JInt(y)]);
    var texts := ItemTexts(v);
    IntIsText(x);
    IntIsText(y);
    assert texts[0] == Stringify(v.items[0]) && texts[1] == Stringify(v.items[1]);
    assert texts[1..] == [IntText(y)];
    assert Commas(texts) == IntText(x) + ([','] + IntText(y));
  }

  lemma SortTwo()
    ensures Sort(Less, ["b", "a"]) == ["a", "b"]
  {
    assert ["b", "a"][..1] == ["b"] && ["b"][..0] == [];
    assert Less("a", "b");
    assert Sort(Less, ["b"]) == ["b"] && Sort(Less, ["b", "a"]) == ["a"] + ["b"];
  }

  lemma TwoMembers(v: JsValue, k: string, l: string)
    requires v.JObj? && k in v.at && l in v.at
    ensures
      Commas(MemberTexts(v, [k, l]))
      == (Quote(EscapeJs, k) + ([':'] + Stringify(v.at[k])))
         + ([','] + (Quote(EscapeJs, l) + ([':'] + Stringify(v.at[l]))))
  {
    var texts := MemberTexts(v, [k, l]);
    assert texts[0] == Quote(EscapeJs, k) + ([':'] + Stringify(v.at[k]));
    assert texts[1] == Quote(EscapeJs, l) + ([':'] + Stringify(v.at[l]));
    assert texts[1..] == [texts[1]];
  }

  /** Keys in ascending order, without white space. */
  lemma ObjectText(x: int, y: int)
    ensures
      Stringify(JObj(["b", "a"], map["a" := JInt(x), "b" := JInt(y)]))
      == ['{'] + ((("\"a\"" + ([':'] + IntText(x))) + ([','] + ("\"b\"" + ([':'] + IntText(y))))) + ['}'])
  {
    var v := JObj(["b", "a"], map["a" := JInt(x), "b" := JInt(y)]);
    SortTwo();
    TwoMembers(v, "a", "b");
    assert Quote(EscapeJs, "a") == "\"a\"" && Quote(EscapeJs, "b") == "\"b\"";
    IntIsText(x);
    IntIsText(y);
  }
}
