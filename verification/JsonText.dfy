/**
 * A reader for compact JSON text (RFC 8259 without white space and with integer numbers). It is
 * the inverse against which the printers of the other modules are measured.
 */
module JsonText {
  import opened Prelude
  import opened Json

  // ---- Numbers ----

  predicate DigitNext(s: string) {
    s != "" && IsDigit(s[0])
  }

  function ReadNat(s: string, acc: nat): (r: (nat, string))
    ensures |r.1| <= |s|
    ensures DigitNext(s) ==> |r.1| < |s|
  {
    if DigitNext(s) then ReadNat(s[1..], 10 * acc + (s[0] as int - '0' as int)) else (acc, s)
  }

  lemma {:induction false} ReadNatText(n: nat, rest: string)
    ensures ReadNat(NatText(n) + rest, 0) == ReadNat(rest, n)
    ensures DigitNext(NatText(n))
  {
    if n < 10 {
      assert (NatText(n) + rest)[1..] == rest;
    } else {
      var tail := [DigitChar(n % 10)] + rest;
      ReadNatText(n / 10, tail);
      assert NatText(n) + rest == NatText(n / 10) + tail;
      assert tail[1..] == rest;
    }
  }

  // ---- Strings ----

  function HexChar(d: int): char
    requires 0 <= d < 16
  {
    if d < 10 then '0' + d as char else 'a' + (d - 10) as char
  }

  function HexValue(c: char): Option<int> {
    if '0' <= c <= '9' then Some(c as int - '0' as int)
    else if 'a' <= c <= 'f' then Some(c as int - 'a' as int + 10)
    else if 'A' <= c <= 'F' then Some(c as int - 'A' as int + 10)
    else None
  }

  function Hex2(n: int): string
    requires 0 <= n < 0x100
  {
    [HexChar(n / 0x10), HexChar(n % 0x10)]
  }

  /** A code unit as four hexadecimal digits. */
  function Hex4(n: int): string
    requires 0 <= n < 0x1_0000
  {
    Hex2(n / 0x100) + Hex2(n % 0x100)
  }

  function ReadHex2(s: string): (r: Option<int>)
    ensures r.Some? ==> |s| >= 2 && 0 <= r.value < 0x100
  {
    if |s| < 2 || HexValue(s[0]).None? || HexValue(s[1]).None? then None
    else Some(HexValue(s[0]).value * 0x10 + HexValue(s[1]).value)
  }

  function ReadHex4(s: string): (r: Option<int>)
    ensures r.Some? ==> |s| >= 4 && 0 <= r.value < 0x1_0000
  {
    if |s| < 4 || ReadHex2(s).None? || ReadHex2(s[2..]).None? then None
    else Some(ReadHex2(s).value * 0x100 + ReadHex2(s[2..]).value)
  }

  lemma ReadHex4Text(n: int, rest: string)
    requires 0 <= n < 0x1_0000
    ensures ReadHex4(Hex4(n) + rest) == Some(n)
    ensures (Hex4(n) + rest)[4..] == rest
  {
    var low := Hex2(n % 0x100) + rest;
    assert Hex4(n) + rest == Hex2(n / 0x100) + low;
  }

  /** The named escapes of section 7 of RFC 8259. */
  function NamedEscape(c: char): Option<char> {
    if c == '"' then Some('"')
    else if c == '\\' then Some('\\')
    else if c == '/' then Some('/')
    else if c == 'b' then Some(8 as char)
    else if c == 'f' then Some(12 as char)
    else if c == 'n' then Some('\n')
    else if c == 'r' then Some('\r')
    else if c == 't' then Some('\t')
    else None
  }

  /** One character after the opening quote: itself or an escape; a lone surrogate is no character. */
  function ReadChar(s: string): (r: Option<(char, string)>)
    ensures r.Some? ==> |r.value.1| < |s|
  {
    if s == "" || s[0] < ' ' || s[0] == '"' then None
    else if s[0] != '\\' then Some((s[0], s[1..]))
    else if |s| < 2 then None
    else if s[1] != 'u' then
      match NamedEscape(s[1])
      case Some(c) => Some((c, s[2..]))
      case None => None
    else
      match ReadHex4(s[2..])
      case None => None
      case Some(n) =>
        if n < 0xd800 || n >= 0xe000 then Some((n as char, s[6..]))
        else if n < 0xdc00 && |s| >= 8 && s[6] == '\\' && s[7] == 'u' then
          match ReadHex4(s[8..])
          case Some(m) =>
            if 0xdc00 <= m < 0xe000
            then Some((FromSurrogates(n, m) as char, s[12..]))
            else None
          case None => None
        else None
  }

  /** The characters up to the closing quote, and what follows it. */
  function ReadChars(s: string): (r: Option<(string, string)>)
    ensures r.Some? ==> |r.value.1| < |s|
  {
    if s == "" then None
    else if s[0] == '"' then Some(("", s[1..]))
    else
      match ReadChar(s)
      case None => None
      case Some((c, rest)) =>
        match ReadChars(rest)
        case None => None
        case Some((text, after)) => Some(([c] + text, after))
  }

  function HighSurrogate(n: int): (h: int)
    requires 0x1_0000 <= n < 0x11_0000
    ensures 0xd800 <= h < 0xdc00
  {
    0xd800 + (n - 0x1_0000) / 0x400
  }

  function LowSurrogate(n: int): (l: int)
    requires 0x1_0000 <= n < 0x11_0000
    ensures 0xdc00 <= l < 0xe000
  {
    0xdc00 + (n - 0x1_0000) % 0x400
  }

  function FromSurrogates(high: int, low: int): (n: int)
    requires 0xd800 <= high < 0xdc00 && 0xdc00 <= low < 0xe000
    ensures 0x1_0000 <= n < 0x11_0000
  {
    0x1_0000 + (high - 0xd800) * 0x400 + (low - 0xdc00)
  }

  /** A character outside the basic plane as an escaped surrogate pair. */
  function PairEscape(n: int): string
    requires 0x1_0000 <= n < 0x11_0000
  {
    PairText(Hex4(HighSurrogate(n)), Hex4(LowSurrogate(n)))
  }

  function PairText(high: string, low: string): string {
    "\\u" + (high + ("\\u" + low))
  }

  lemma PairSlices(high: string, low: string, rest: string)
    requires |high| == 4 && |low| == 4
    ensures
      var text := PairText(high, low) + rest;
      && |text| >= 12 && text[0] == '\\' && text[1] == 'u' && text[6] == '\\' && text[7] == 'u'
      && text[2..] == high + ("\\u" + (low + rest)) && text[8..] == low + rest && text[12..] == rest
  {}

  lemma ReadPair(s: string, high: int, low: int)
    requires |s| >= 12 && s[0] == '\\' && s[1] == 'u' && s[6] == '\\' && s[7] == 'u'
    requires ReadHex4(s[2..]) == Some(high) && ReadHex4(s[8..]) == Some(low)
    requires 0xd800 <= high < 0xdc00 && 0xdc00 <= low < 0xe000
    ensures ReadChar(s) == Some((FromSurrogates(high, low) as char, s[12..]))
  {}

  lemma ReadPairOf(high: int, low: int, rest: string)
    requires 0xd800 <= high < 0xdc00 && 0xdc00 <= low < 0xe000
    ensures ReadChar(PairText(Hex4(high), Hex4(low)) + rest) == Some((FromSurrogates(high, low) as char, rest))
  {
    PairSlices(Hex4(high), Hex4(low), rest);
    ReadHex4Text(high, "\\u" + (Hex4(low) + rest));
    ReadHex4Text(low, rest);
    ReadPair(PairText(Hex4(high), Hex4(low)) + rest, high, low);
  }

  lemma ReadPairEscape(n: int, rest: string)
    requires 0x1_0000 <= n < 0x11_0000
    ensures ReadChar(PairEscape(n) + rest) == Some((n as char, rest))
  {
    ReadPairOf(HighSurrogate(n), LowSurrogate(n), rest);
  }

  // ---- Values ----

  function ReadValue(s: string): (r: Option<(Json, string)>)
    ensures r.Some? ==> |r.value.1| < |s|
    decreases |s|, 0
  {
    if s == "" then None
    else if s[0] == 'n' then if StartsWith(s, "null") then Some((Null, s[4..])) else None
    else if s[0] == 't' then if StartsWith(s, "true") then Some((Bool(true), s[4..])) else None
    else if s[0] == 'f' then if StartsWith(s, "false") then Some((Bool(false), s[5..])) else None
    else if s[0] == '"' then
      match ReadChars(s[1..])
      case Some((text, rest)) => Some((Str(text), rest))
      case None => None
    else if s[0] == '-' then
      if DigitNext(s[1..]) then var (n, rest) := ReadNat(s[1..], 0); Some((Num(0 - n), rest)) else None
    else if IsDigit(s[0]) then
      var (n, rest) := ReadNat(s, 0);
      Some((Num(n), rest))
    else if s[0] == '[' then
      if StartsWith(s[1..], "]") then Some((Arr([]), s[2..]))
      else
        match ReadItems(s[1..])
        case Some((items, rest)) => Some((Arr(items), rest))
        case None => None
    else if s[0] == '{' then
      if StartsWith(s[1..], "}") then Some((Obj(map[]), s[2..]))
      else
        match ReadMembers(s[1..])
        case Some((fields, rest)) => Some((Obj(fields), rest))
        case None => None
    else None
  }

  function ReadItems(s: string): (r: Option<(seq<Json>, string)>)
    ensures r.Some? ==> |r.value.1| < |s|
    decreases |s|, 1
  {
    match ReadValue(s)
    case None => None
    case Some((item, rest)) =>
      if rest == "" then None
      else if rest[0] == ']' then Some(([item], rest[1..]))
      else if rest[0] != ',' then None
      else
        match ReadItems(rest[1..])
        case None => None
        case Some((items, after)) => Some(([item] + items, after))
  }

  /** Members up to the closing brace; of two with one name the later counts. */
  function ReadMembers(s: string): (r: Option<(map<string, Json>, string)>)
    ensures r.Some? ==> |r.value.1| < |s|
    decreases |s|, 1
  {
    if s == "" || s[0] != '"' then None
    else
      match ReadChars(s[1..])
      case None => None
      case Some((key, colon)) =>
        if colon == "" || colon[0] != ':' then None
        else
          match ReadValue(colon[1..])
          case None => None
          case Some((value, rest)) =>
            if rest == "" then None
            else if rest[0] == '}' then Some((map[key := value], rest[1..]))
            else if rest[0] != ',' then None
            else
              match ReadMembers(rest[1..])
              case None => None
              case Some((fields, after)) => Some((map[key := value] + fields, after))
  }

  // ---- What a printer has to show ----

  lemma ReadNamedEscape(name: char, rest: string)
    requires name != 'u' && NamedEscape(name).Some?
    ensures ReadChar(['\\', name] + rest) == Some((NamedEscape(name).value, rest))
  {
    assert (['\\', name] + rest)[2..] == rest;
  }

  lemma ReadUnicodeEscape(n: int, rest: string)
    requires 0 <= n < 0xd800 || 0xe000 <= n < 0x1_0000
    ensures ReadChar("\\u" + Hex4(n) + rest) == Some((n as char, rest))
  {
    var text := "\\u" + Hex4(n) + rest;
    ReadHex4Text(n, rest);
    assert text[0] == '\\' && text[1] == 'u';
    assert text[2..] == Hex4(n) + rest;
    assert text[6..] == (Hex4(n) + rest)[4..];
  }

  /** `esc` spells single characters so that the reader gets them back. */
  ghost predicate Spells(esc: char -> string) {
    forall c, rest :: SpellsBefore(esc, c, rest)
  }

  ghost predicate SpellsBefore(esc: char -> string, c: char, rest: string) {
    ReadChar(esc(c) + rest) == Some((c, rest)) && esc(c) != "" && esc(c)[0] != '"'
  }

  function EscapeAll(esc: char -> string, s: string): string {
    if s == "" then "" else esc(s[0]) + EscapeAll(esc, s[1..])
  }

  /** A string literal under an escaping. */
  function Quote(esc: char -> string, s: string): string {
    ['"'] + EscapeAll(esc, s) + ['"']
  }

  lemma ReadOne(esc: char -> string, c: char, rest: string)
    requires Spells(esc)
    ensures ReadChar(esc(c) + rest) == Some((c, rest))
    ensures esc(c) + rest != "" && (esc(c) + rest)[0] != '"'
  {
    assert SpellsBefore(esc, c, rest);
  }

  lemma ReadClosing(rest: string)
    ensures ReadChars(['"'] + rest) == Some(("", rest))
  {
    assert (['"'] + rest)[1..] == rest;
  }

  lemma ReadFirst(s: string, c: char, tail: string)
    requires s != "" && s[0] != '"' && ReadChar(s) == Some((c, tail)) && ReadChars(tail).Some?
    ensures ReadChars(s) == Some(([c] + ReadChars(tail).value.0, ReadChars(tail).value.1))
  {}

  lemma ReadStep(esc: char -> string, c: char, tail: string, text: string, rest: string)
    requires Spells(esc) && ReadChars(tail) == Some((text, rest))
    ensures ReadChars(esc(c) + tail) == Some(([c] + text, rest))
  {
    ReadOne(esc, c, tail);
    ReadFirst(esc(c) + tail, c, tail);
  }

  lemma {:induction false} ReadEscaped(esc: char -> string, s: string, rest: string)
    requires Spells(esc)
    ensures ReadChars(EscapeAll(esc, s) + (['"'] + rest)) == Some((s, rest))
  {
    var end := ['"'] + rest;
    if s == "" {
      ReadClosing(rest);
      assert EscapeAll(esc, s) + end == end;
    } else {
      var tail := EscapeAll(esc, s[1..]) + end;
      ReadEscaped(esc, s[1..], rest);
      ReadStep(esc, s[0], tail, s[1..], rest);
      Regroup(esc(s[0]), EscapeAll(esc, s[1..]), end);
      assert [s[0]] + s[1..] == s;
    }
  }

  lemma ReadObjectValue(s: string, fields: map<string, Json>, rest: string)
    requires !StartsWith(s, "}") && ReadMembers(s) == Some((fields, rest))
    ensures ReadValue(['{'] + s) == Some((Obj(fields), rest))
  {
    assert (['{'] + s)[1..] == s;
  }

  lemma ReadStringValue(s: string, text: string, rest: string)
    requires ReadChars(s) == Some((text, rest))
    ensures ReadValue(['"'] + s) == Some((Str(text), rest))
  {
    assert (['"'] + s)[1..] == s;
  }

  /** A quoted string reads back, wherever it stands. */
  lemma ReadQuoted(esc: char -> string, s: string, rest: string)
    requires Spells(esc)
    ensures
      var body := EscapeAll(esc, s) + (['"'] + rest);
      Quote(esc, s) + rest == ['"'] + body && ReadChars(body) == Some((s, rest))
    ensures ReadValue(Quote(esc, s) + rest) == Some((Str(s), rest))
  {
    var body := EscapeAll(esc, s) + (['"'] + rest);
    ReadEscaped(esc, s, rest);
    ReadStringValue(body, s, rest);
    assert Quote(esc, s) + rest == ['"'] + body;
  }

  lemma ReadNatValue(s: string)
    requires DigitNext(s)
    ensures ReadValue(s) == Some((Num(ReadNat(s, 0).0), ReadNat(s, 0).1))
    ensures ReadValue(['-'] + s) == Some((Num(0 - ReadNat(s, 0).0), ReadNat(s, 0).1))
  {
    assert (['-'] + s)[1..] == s;
  }

  lemma ReadIntText(n: int, rest: string)
    requires !DigitNext(rest)
    ensures ReadValue(IntText(n) + rest) == Some((Num(n), rest))
  {
    var m := if n < 0 then -n else n;
    ReadNatText(m, rest);
    assert (NatText(m) + rest)[0] == NatText(m)[0];
    ReadNatValue(NatText(m) + rest);
    if n < 0 {
      assert IntText(n) + rest == ['-'] + (NatText(m) + rest);
    }
  }
}
