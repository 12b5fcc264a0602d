/**
 * The opaque page cursor of `spec.list_tags`: versioned JSON in base64url without padding
 * (section 5 of RFC 4648), with the padding restored before decoding.
 */
module Cursor {
  import opened Prelude
  import opened Json
  import opened JsonText

  type Byte = b: int | 0 <= b < 256

  // ---- base64url ----

  function SextetChar(v: int): char
    requires 0 <= v < 64
  {
    if v < 26 then 'A' + v as char
    else if v < 52 then 'a' + (v - 26) as char
    else if v < 62 then '0' + (v - 52) as char
    else if v == 62 then '-' else '_'
  }

  function SextetValue(c: char): (r: Option<int>)
    ensures r.Some? ==> 0 <= r.value < 64
  {
    if 'A' <= c <= 'Z' then Some(c as int - 'A' as int)
    else if 'a' <= c <= 'z' then Some(c as int - 'a' as int + 26)
    else if '0' <= c <= '9' then Some(c as int - '0' as int + 52)
    else if c == '-' then Some(62)
    else if c == '_' then Some(63)
    else None
  }

  function EncodeOne(a: Byte): string {
    [SextetChar(a / 4), SextetChar(a % 4 * 16)]
  }

  function EncodeTwo(a: Byte, b: Byte): string {
    [SextetChar(a / 4), SextetChar(a % 4 * 16 + b / 16), SextetChar(b % 16 * 4)]
  }

  function EncodeThree(a: Byte, b: Byte, c: Byte): string {
    [SextetChar(a / 4), SextetChar(a % 4 * 16 + b / 16), SextetChar(b % 16 * 4 + c / 64), SextetChar(c % 64)]
  }

  /** `urlsafe_b64encode`, padding included. */
  function Encode(bytes: seq<Byte>): string {
    if |bytes| == 0 then ""
    else if |bytes| == 1 then EncodeOne(bytes[0]) + "=="
    else if |bytes| == 2 then EncodeTwo(bytes[0], bytes[1]) + "="
    else EncodeThree(bytes[0], bytes[1], bytes[2]) + Encode(bytes[3..])
  }

  /** `rstrip("=")`. */
  function StripPad(s: string): string {
    if s != "" && s[|s| - 1] == '=' then StripPad(s[..|s| - 1]) else s
  }

  function Equals(n: nat): string {
    if n == 0 then "" else Equals(n - 1) + "="
  }

  /** Padding to a multiple of four. */
  function Pad(s: string): string {
    s + Equals((4 - |s| % 4) % 4)
  }

  /** `urlsafe_b64decode` on text of the alphabet and its padding; anything else is an error. */
  function Decode(s: string): Option<seq<Byte>> {
    if s == "" then Some([])
    else if |s| < 4 then None
    else
      var a, b, c, d := SextetValue(s[0]), SextetValue(s[1]), SextetValue(s[2]), SextetValue(s[3]);
      if a.None? || b.None? then None
      else if |s| == 4 && s[2] == '=' && s[3] == '=' then Some([a.value * 4 + b.value / 16])
      else if c.None? then None
      else if |s| == 4 && s[3] == '=' then Some([a.value * 4 + b.value / 16, b.value % 16 * 16 + c.value / 4])
      else if d.None? then None
      else
        match Decode(s[4..])
        case None => None
        case Some(rest) =>
          Some([a.value * 4 + b.value / 16, b.value % 16 * 16 + c.value / 4, c.value % 4 * 64 + d.value] + rest)
  }

  lemma SextetRoundTrip(v: int)
    requires 0 <= v < 64
    ensures SextetValue(SextetChar(v)) == Some(v)
    ensures SextetChar(v) != '=' && !IsSpace(SextetChar(v))
  {}

  lemma SextetsOfBytes(a: Byte, b: Byte, c: Byte)
    ensures a / 4 * 4 + (a % 4 * 16 + b / 16) / 16 == a
    ensures (a % 4 * 16 + b / 16) % 16 * 16 + (b % 16 * 4 + c / 64) / 4 == b
    ensures (b % 16 * 4 + c / 64) % 4 * 64 + c % 64 == c
  {}

  lemma DecodeGroup(s: string, p: int, q: int, u: int, v: int, a: Byte, b: Byte, c: Byte)
    requires |s| >= 4 && SextetValue(s[0]) == Some(p) && SextetValue(s[1]) == Some(q)
    requires SextetValue(s[2]) == Some(u) && SextetValue(s[3]) == Some(v)
    requires s[2] != '=' && s[3] != '=' && Decode(s[4..]).Some?
    requires p * 4 + q / 16 == a && q % 16 * 16 + u / 4 == b && u % 4 * 64 + v == c
    ensures Decode(s) == Some([a, b, c] + Decode(s[4..]).value)
  {}

  lemma DecodeChars(p: int, q: int, u: int, v: int, a: Byte, b: Byte, c: Byte, rest: string)
    requires 0 <= p < 64 && 0 <= q < 64 && 0 <= u < 64 && 0 <= v < 64
    requires p * 4 + q / 16 == a && q % 16 * 16 + u / 4 == b && u % 4 * 64 + v == c
    requires Decode(rest).Some?
    ensures
      Decode([SextetChar(p), SextetChar(q), SextetChar(u), SextetChar(v)] + rest)
      == Some([a, b, c] + Decode(rest).value)
  {
    var s := [SextetChar(p), SextetChar(q), SextetChar(u), SextetChar(v)] + rest;
    SextetRoundTrip(p);
    SextetRoundTrip(q);
    SextetRoundTrip(u);
    SextetRoundTrip(v);
    assert s[4..] == rest;
    DecodeGroup(s, p, q, u, v, a, b, c);
  }

  lemma DecodeThree(a: Byte, b: Byte, c: Byte, rest: string)
    requires Decode(rest).Some?
    ensures Decode(EncodeThree(a, b, c) + rest) == Some([a, b, c] + Decode(rest).value)
  {
    SextetsOfBytes(a, b, c);
    DecodeChars(a / 4, a % 4 * 16 + b / 16, b % 16 * 4 + c / 64, c % 64, a, b, c, rest);
  }

  lemma DecodeLastOne(a: Byte)
    ensures Decode(EncodeOne(a) + "==") == Some([a])
  {
    SextetRoundTrip(a / 4);
    SextetRoundTrip(a % 4 * 16);
  }

  lemma DecodeLastTwo(a: Byte, b: Byte)
    ensures Decode(EncodeTwo(a, b) + "=") == Some([a, b])
  {
    SextetRoundTrip(a / 4);
    SextetRoundTrip(a % 4 * 16 + b / 16);
    SextetRoundTrip(b % 16 * 4);
  }

  lemma {:induction false} DecodeEncode(bytes: seq<Byte>)
    ensures Decode(Encode(bytes)) == Some(bytes)
  {
    if |bytes| <= 2 {
      DecodeShort(bytes);
    } else {
      var rest := bytes[3..];
      DecodeEncode(rest);
      DecodeThree(bytes[0], bytes[1], bytes[2], Encode(rest));
      EncodeLong(bytes);
      assert bytes == [bytes[0], bytes[1], bytes[2]] + rest;
    }
  }

  lemma EncodeLong(bytes: seq<Byte>)
    requires |bytes| > 2
    ensures Encode(bytes) == EncodeThree(bytes[0], bytes[1], bytes[2]) + Encode(bytes[3..])
  {}

  lemma DecodeShort(bytes: seq<Byte>)
    requires |bytes| <= 2
    ensures Decode(Encode(bytes)) == Some(bytes)
  {
    if |bytes| == 1 {
      DecodeLastOne(bytes[0]);
      assert bytes == [bytes[0]];
    } else if |bytes| == 2 {
      DecodeLastTwo(bytes[0], bytes[1]);
      assert bytes == [bytes[0], bytes[1]];
    }
  }

  /** The encoding without its padding. */
  function Unpadded(bytes: seq<Byte>): string {
    if |bytes| == 0 then ""
    else if |bytes| == 1 then EncodeOne(bytes[0])
    else if |bytes| == 2 then EncodeTwo(bytes[0], bytes[1])
    else EncodeThree(bytes[0], bytes[1], bytes[2]) + Unpadded(bytes[3..])
  }

  /** Characters of the alphabet only: no padding, no white space. */
  ghost predicate InAlphabet(s: string) {
    forall i :: 0 <= i < |s| ==> s[i] != '=' && !IsSpace(s[i])
  }

  lemma AlphabetOfGroups(a: Byte, b: Byte, c: Byte)
    ensures InAlphabet(EncodeOne(a)) && InAlphabet(EncodeTwo(a, b)) && InAlphabet(EncodeThree(a, b, c))
  {
    SextetRoundTrip(a / 4);
    SextetRoundTrip(a % 4 * 16);
    SextetRoundTrip(a % 4 * 16 + b / 16);
    SextetRoundTrip(b % 16 * 4);
    SextetRoundTrip(b % 16 * 4 + c / 64);
    SextetRoundTrip(c % 64);
  }

  lemma {:induction false} UnpaddedAlphabet(bytes: seq<Byte>)
    ensures InAlphabet(Unpadded(bytes)) && (bytes != [] ==> Unpadded(bytes) != "")
  {
    if 0 < |bytes| <= 2 {
      AlphabetOfGroups(bytes[0], if |bytes| == 2 then bytes[1] else 0, 0);
    } else if |bytes| > 2 {
      AlphabetOfGroups(bytes[0], bytes[1], bytes[2]);
      UnpaddedAlphabet(bytes[3..]);
    }
  }

  lemma ShortPads()
    ensures Equals(2) == "==" && Equals(1) == "=" && Equals(0) == ""
  {}

  lemma {:induction false} EncodeIsPadded(bytes: seq<Byte>)
    ensures Encode(bytes) == Pad(Unpadded(bytes))
  {
    ShortPads();
    if |bytes| > 2 {
      EncodeIsPadded(bytes[3..]);
      PadSuffix(EncodeThree(bytes[0], bytes[1], bytes[2]), Unpadded(bytes[3..]));
    }
  }

  lemma PadSuffix(group: string, rest: string)
    requires |group| == 4
    ensures Pad(group + rest) == group + Pad(rest)
  {
    assert |group + rest| % 4 == |rest| % 4;
  }

  lemma {:induction false} StripPadding(s: string, n: nat)
    requires InAlphabet(s)
    ensures StripPad(s + Equals(n)) == s
  {
    var padded := s + Equals(n);
    if n == 0 {
      assert padded == s;
    } else {
      assert padded[..|padded| - 1] == s + Equals(n - 1);
      StripPadding(s, n - 1);
    }
  }

  lemma StripOfPad(s: string)
    requires InAlphabet(s)
    ensures StripPad(Pad(s)) == s
  {
    StripPadding(s, (4 - |s| % 4) % 4);
  }

  /** Dropping the padding and restoring it from the length loses nothing. */
  lemma PaddingRestored(bytes: seq<Byte>)
    ensures StripPad(Encode(bytes)) == Unpadded(bytes)
    ensures Decode(Pad(StripPad(Encode(bytes)))) == Some(bytes)
  {
    UnpaddedAlphabet(bytes);
    EncodeIsPadded(bytes);
    DecodeEncode(bytes);
    StripOfPad(Unpadded(bytes));
  }

  // ---- The payload ----

  /** `json.dumps` on one character: ASCII stays, the rest is escaped, astral ones as a pair. */
  function EscapePy(c: char): string {
    var n := c as int;
    if c == '"' then "\\\""
    else if c == '\\' then "\\\\"
    else if ' ' <= c <= '~' then [c]
    else if c == '\n' then "\\n"
    else if c == '\r' then "\\r"
    else if c == '\t' then "\\t"
    else if n == 8 then "\\b"
    else if n == 12 then "\\f"
    else if n < 0x1_0000 then "\\u" + Hex4(n)
    else PairEscape(n)
  }

  /** The payload with its keys sorted and no white space. */
  function PayloadText(count: int, tag: string): string {
    "{\"c\":" + (IntText(count) + (",\"t\":" + (Quote(EscapePy, tag) + ",\"v\":1}")))
  }

  function CharBytes(s: string): seq<Byte>
    requires forall i :: 0 <= i < |s| ==> s[i] as int < 128
  {
    seq(|s|, i requires 0 <= i < |s| => s[i] as int)
  }

  /** UTF-8 decoding of ASCII bytes. */
  function BytesText(bytes: seq<Byte>): Option<string> {
    if forall i :: 0 <= i < |bytes| ==> bytes[i] < 128
    then Some(seq(|bytes|, i requires 0 <= i < |bytes| => bytes[i] as char))
    else None
  }

  lemma PayloadIsAscii(count: int, tag: string)
    ensures IsAscii(PayloadText(count, tag))
  {
    IntIsAscii(count);
    EscapedIsAscii(tag);
  }

  predicate IsAscii(s: string) {
    forall i :: 0 <= i < |s| ==> s[i] as int < 128
  }

  lemma {:induction false} NatIsAscii(n: nat)
    ensures IsAscii(NatText(n))
  {
    if n >= 10 { NatIsAscii(n / 10); }
  }

  lemma IntIsAscii(n: int)
    ensures IsAscii(IntText(n))
  {
    NatIsAscii(if n < 0 then -n else n);
  }

  lemma {:induction false} EscapedIsAscii(s: string)
    ensures IsAscii(EscapeAll(EscapePy, s))
  {
    if s != "" {
      EscapedIsAscii(s[1..]);
    }
  }

  datatype CursorError =
    | EmptyValue | MalformedEncoding | ExpectedObject | UnsupportedVersion
    | BadCount | BadTag | NegativeCount | MissingFields | BadTimestamp | NoTimezone | BadId

  /** The text as unpadded base64url. */
  function Wrap(text: string): string
    requires IsAscii(text)
  {
    StripPad(Encode(CharBytes(text)))
  }

  /** What every decoder does first: restore the padding, decode, read the JSON. */
  function Unwrap(raw: string): Result<Json, CursorError> {
    var s := Strip(raw);
    if s == "" then Err(EmptyValue)
    else
      match Decode(Pad(s))
      case None => Err(MalformedEncoding)
      case Some(bytes) =>
        match BytesText(bytes)
        case None => Err(MalformedEncoding)
        case Some(text) =>
          match ReadValue(text)
          case Some((j, "")) => Ok(j)
          case _ => Err(MalformedEncoding)
  }

  function EncodeTagsCursor(count: int, tag: string): string {
    PayloadIsAscii(count, tag);
    Wrap(PayloadText(count, tag))
  }

  datatype TagKey = TagKey(count: nat, tag: string)

  function DecodeTagsCursor(raw: Option<string>): Result<Option<TagKey>, CursorError> {
    if raw.None? then Ok(None)
    else
      match Unwrap(raw.value)
      case Err(e) => Err(e)
      case Ok(j) => DecodePayload(j)
  }

  /** Python compares `True` equal to 1, but a Boolean count is refused. */
  function DecodePayload(j: Json): Result<Option<TagKey>, CursorError> {
    if !j.Obj? then Err(ExpectedObject)
    else
      var v, c, t := Get(j.fields, "v"), Get(j.fields, "c"), Get(j.fields, "t");
      if v != Num(1) && v != Bool(true) then Err(UnsupportedVersion)
      else if !c.Num? then Err(BadCount)
      else if !t.Str? then Err(BadTag)
      else if c.n < 0 then Err(NegativeCount)
      else Ok(Some(TagKey(c.n, t.s)))
  }

  // ---- Round trip ----

  lemma ReadRaw(c: char, rest: string)
    requires c >= ' ' && c != '"' && c != '\\'
    ensures ReadChar([c] + rest) == Some((c, rest))
  {
    assert ([c] + rest)[1..] == rest;
  }

  lemma EscapePyReads(c: char, rest: string)
    ensures ReadChar(EscapePy(c) + rest) == Some((c, rest))
    ensures EscapePy(c) != "" && EscapePy(c)[0] != '"'
  {
    var n := c as int;
    if n >= 0x1_0000 {
      ReadPairEscape(n, rest);
    } else if |EscapePy(c)| == 6 {
      ReadUnicodeEscape(n, rest);
    } else if |EscapePy(c)| == 2 {
      ReadShortEscape(c, rest);
    } else {
      ReadRaw(c, rest);
    }
  }

  lemma ReadShortEscape(c: char, rest: string)
    requires (c as int) < 0x1_0000 && |EscapePy(c)| == 2
    ensures ReadChar(EscapePy(c) + rest) == Some((c, rest))
  {
    var name := EscapePy(c)[1];
    ReadNamedEscape(name, rest);
    assert EscapePy(c) == ['\\', name];
  }

  lemma EscapePySpells()
    ensures Spells(EscapePy)
  {
    forall c, rest
      ensures SpellsBefore(EscapePy, c, rest)
    {
      EscapePyReads(c, rest);
    }
  }

  lemma ReadShortKey(k: char, after: string)
    requires k >= ' ' && k != '"' && k != '\\'
    ensures ReadChars([k] + (['"'] + after)) == Some(([k], after))
  {
    ReadRaw(k, ['"'] + after);
    ReadClosing(after);
    ReadFirst([k] + (['"'] + after), k, ['"'] + after);
    assert [k] + "" == [k];
  }

  /** One member with a one-letter key. */
  lemma ReadShortMember(k: char, text: string, value: Json, after: string)
    requires k >= ' ' && k != '"' && k != '\\'
    requires ReadValue(text + after) == Some((value, after))
    requires after != "" && (after[0] == '}' || (after[0] == ',' && ReadMembers(after[1..]).Some?))
    ensures
      ReadMembers(['"', k, '"', ':'] + (text + after)) ==
        if after[0] == '}' then Some((map[[k] := value], after[1..]))
        else Some((map[[k] := value] + ReadMembers(after[1..]).value.0, ReadMembers(after[1..]).value.1))
  {
    var s := ['"', k, '"', ':'] + (text + after);
    ReadShortKey(k, [':'] + (text + after));
    assert s[1..] == [k] + (['"'] + ([':'] + (text + after)));
    assert ([':'] + (text + after))[1..] == text + after;
  }

  /** The last member of the payload. */
  function VersionMember(): string {
    ['"', 'v', '"', ':'] + (IntText(1) + "}")
  }

  function TagMembers(tag: string): string {
    ['"', 't', '"', ':'] + (Quote(EscapePy, tag) + ([','] + VersionMember()))
  }

  function CountMembers(count: int, tag: string): string {
    ['"', 'c', '"', ':'] + (IntText(count) + ([','] + TagMembers(tag)))
  }

  lemma ReadVersionMember()
    ensures ReadMembers(VersionMember()) == Some((map["v" := Num(1)], ""))
  {
    ReadIntText(1, "}");
    ReadShortMember('v', IntText(1), Num(1), "}");
  }

  lemma ReadTagMembers(tag: string)
    ensures ReadMembers(TagMembers(tag)) == Some((map["t" := Str(tag)] + map["v" := Num(1)], ""))
  {
    var after := [','] + VersionMember();
    assert after[1..] == VersionMember();
    ReadVersionMember();
    EscapePySpells();
    ReadQuoted(EscapePy, tag, after);
    ReadShortMember('t', Quote(EscapePy, tag), Str(tag), after);
  }

  lemma ReadCountMembers(count: int, tag: string)
    ensures ReadMembers(CountMembers(count, tag))
            == Some((map["c" := Num(count)] + (map["t" := Str(tag)] + map["v" := Num(1)]), ""))
  {
    var after := [','] + TagMembers(tag);
    assert after[1..] == TagMembers(tag);
    ReadTagMembers(tag);
    ReadIntText(count, after);
    ReadShortMember('c', IntText(count), Num(count), after);
  }

  lemma PayloadIsMembers(count: int, tag: string)
    ensures PayloadText(count, tag) == ['{'] + CountMembers(count, tag)
  {
    assert IntText(1) == "1";
  }

  lemma ReadPayload(count: int, tag: string)
    ensures
      ReadValue(PayloadText(count, tag))
      == Some((Obj(map["c" := Num(count)] + (map["t" := Str(tag)] + map["v" := Num(1)])), ""))
  {
    var body := CountMembers(count, tag);
    PayloadIsMembers(count, tag);
    ReadCountMembers(count, tag);
    assert (['{'] + body)[1..] == body && body[..1] == ['"'];
  }

  lemma UnwrapWrap(text: string, j: Json)
    requires text != "" && IsAscii(text) && ReadValue(text) == Some((j, ""))
    ensures Unwrap(Wrap(text)) == Ok(j)
  {
    var bytes := CharBytes(text);
    UnpaddedAlphabet(bytes);
    PaddingRestored(bytes);
    TextOfBytes(text);
  }

  /** Every count and every tag survives the trip through the cursor. */
  lemma TagsCursorRoundTrip(count: nat, tag: string)
    ensures DecodeTagsCursor(Some(EncodeTagsCursor(count, tag))) == Ok(Some(TagKey(count, tag)))
  {
    PayloadIsAscii(count, tag);
    ReadPayload(count, tag);
    UnwrapWrap(PayloadText(count, tag), Obj(map["c" := Num(count)] + (map["t" := Str(tag)] + map["v" := Num(1)])));
  }

  lemma TextOfBytes(s: string)
    requires IsAscii(s)
    ensures BytesText(CharBytes(s)) == Some(s)
  {
    var bytes := CharBytes(s);
    assert seq(|bytes|, i requires 0 <= i < |bytes| => bytes[i] as char) == s;
  }

  // ---- The text itself ----

  /** Test vectors of section 10 of RFC 4648, and the two characters that make it URL-safe. */
  lemma EncodeVectors()
    ensures Encode([]) == "" && Encode([102]) == "Zg==" && Encode([102, 111]) == "Zm8="
    ensures Encode([102, 111, 111]) == "Zm9v" && Encode([102, 111, 111, 98, 97, 114]) == "Zm9vYmFy"
    ensures Encode([0xfb, 0xff, 0xbf]) == "-_-_"
  {
    var six: seq<Byte> := [102, 111, 111, 98, 97, 114];
    assert six[3..] == [98, 97, 114] && six[3..][3..] == [];
    assert EncodeThree(102, 111, 111) == "Zm9v" && EncodeThree(98, 97, 114) == "YmFy";
    assert EncodeThree(0xfb, 0xff, 0xbf) == "-_-_";
  }

  lemma PayloadSample(tag: string)
    ensures PayloadText(5, tag) == "{\"c\":5,\"t\":" + Quote(EscapePy, tag) + ",\"v\":1}"
  {
    assert IntText(5) == "5";
    var rest := Quote(EscapePy, tag) + ",\"v\":1}";
    Regroup("5", ",\"t\":", rest);
    assert "5" + ",\"t\":" == "5,\"t\":";
    assert "{\"c\":" + ("5,\"t\":" + rest) == ("{\"c\":5,\"t\":" + Quote(EscapePy, tag)) + ",\"v\":1}";
  }

  lemma EscapeSample()
    ensures EscapePy('a') == "a" && EscapePy('"') == "\\\"" && EscapePy('\U{e9}') == "\\u00e9"
  {}

  /** Beyond four digits a surrogate pair is written. */
  lemma PairSample()
    ensures EscapePy('\U{1f600}') == "\\ud83d\\ude00"
  {}

  /** A payload is taken exactly when it is an object of version 1 with a count that is not negative and a text tag. */
  lemma PayloadExact(fields: map<string, Json>, k: TagKey)
    ensures
      DecodePayload(Obj(fields)) == Ok(Some(k)) <==>
        && "v" in fields && (fields["v"] == Num(1) || fields["v"] == Bool(true))
        && "c" in fields && fields["c"] == Num(k.count) && "t" in fields && fields["t"] == Str(k.tag)
  {}

  /** No cursor is no place; an empty one is an error. */
  lemma MissingCursor()
    ensures DecodeTagsCursor(None) == Ok(None) && DecodeTagsCursor(Some("")) == Err(EmptyValue)
    ensures DecodeTagsCursor(Some(" ")) == Err(EmptyValue)
  {
    assert Strip(" ") == "";
  }
}
