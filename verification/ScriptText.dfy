/** The text side of the migration checksum: newline normalization and UTF-8. */
module ScriptText {
  import opened Prelude
  import opened Checksum

  function ReplaceChar(s: string, a: char, b: char): string {
    seq(|s|, i requires 0 <= i < |s| => if s[i] == a then b else s[i])
  }

  /** CRLF first, then every remaining CR, becomes LF. */
  function Normalize(sql: string): string {
    ReplaceChar(ReplacePair(sql, '\r', '\n', '\n'), '\r', '\n')
  }

  /** The bytes of one character, as numbers. */
  function Utf8Numbers(c: char): (bytes: seq<int>)
    ensures AreBytes(bytes)
  {
    var n := c as int;
    if n < 0x80 then [n]
    else if n < 0x800 then [0xc0 + n / 0x40, 0x80 + n % 0x40]
    else if n < 0x1_0000 then [0xe0 + n / 0x1000, 0x80 + n / 0x40 % 0x40, 0x80 + n % 0x40]
    else [0xf0 + n / 0x4_0000, 0x80 + n / 0x1000 % 0x40, 0x80 + n / 0x40 % 0x40, 0x80 + n % 0x40]
  }

  predicate AreBytes(xs: seq<int>) {
    forall i :: 0 <= i < |xs| ==> 0 <= xs[i] < 0x100
  }

  function Octets(xs: seq<int>): seq<Octet>
    requires AreBytes(xs)
  {
    seq(|xs|, i requires 0 <= i < |xs| => xs[i] as Octet)
  }

  function Utf8Char(c: char): seq<Octet> {
    Octets(Utf8Numbers(c))
  }

  function Utf8(s: string): seq<Octet> {
    if s == [] then [] else Utf8Char(s[0]) + Utf8(s[1..])
  }

  // ---- UTF-8, read back ----

  function Points(s: string): seq<int> {
    seq(|s|, i requires 0 <= i < |s| => s[i] as int)
  }

  function Numbers(s: string): (bytes: seq<int>)
    ensures AreBytes(bytes)
  {
    if s == "" then [] else Utf8Numbers(s[0]) + Numbers(s[1..])
  }

  /** The code points of well-formed UTF-8 (section 3 of RFC 3629). */
  function ReadPoints(bytes: seq<int>): seq<int>
    decreases |bytes|
  {
    if bytes == [] then []
    else
      var lead := bytes[0];
      if lead < 0x80 || |bytes| < 2 then [lead] + ReadPoints(bytes[1..])
      else if lead < 0xe0 || |bytes| < 3 then
        [(lead - 0xc0) * 0x40 + (bytes[1] - 0x80)] + ReadPoints(bytes[2..])
      else if lead < 0xf0 || |bytes| < 4 then
        [(lead - 0xe0) * 0x1000 + (bytes[1] - 0x80) * 0x40 + (bytes[2] - 0x80)] + ReadPoints(bytes[3..])
      else
        [(lead - 0xf0) * 0x4_0000 + (bytes[1] - 0x80) * 0x1000 + (bytes[2] - 0x80) * 0x40 + (bytes[3] - 0x80)]
        + ReadPoints(bytes[4..])
  }

  lemma ReadTwo(a: int, b: int, rest: seq<int>)
    requires 0x80 <= a < 0xe0
    ensures ReadPoints([a, b] + rest) == [(a - 0xc0) * 0x40 + (b - 0x80)] + ReadPoints(rest)
  {
    assert ([a, b] + rest)[2..] == rest;
  }

  lemma ReadThree(a: int, b: int, c: int, rest: seq<int>)
    requires 0xe0 <= a < 0xf0
    ensures ReadPoints([a, b, c] + rest) == [(a - 0xe0) * 0x1000 + (b - 0x80) * 0x40 + (c - 0x80)] + ReadPoints(rest)
  {
    assert ([a, b, c] + rest)[3..] == rest;
  }

  lemma ReadFour(a: int, b: int, c: int, d: int, rest: seq<int>)
    requires 0xf0 <= a
    ensures
      ReadPoints([a, b, c, d] + rest)
      == [(a - 0xf0) * 0x4_0000 + (b - 0x80) * 0x1000 + (c - 0x80) * 0x40 + (d - 0x80)] + ReadPoints(rest)
  {
    assert ([a, b, c, d] + rest)[4..] == rest;
  }

  lemma SixBits(n: int)
    requires 0 <= n
    ensures n / 0x40 * 0x40 + n % 0x40 == n && n / 0x1000 == n / 0x40 / 0x40 && n / 0x4_0000 == n / 0x1000 / 0x40
  {}

  lemma ReadNumbers(c: char, rest: seq<int>)
    ensures ReadPoints(Utf8Numbers(c) + rest) == [c as int] + ReadPoints(rest)
  {
    var n := c as int;
    SixBits(n);
    SixBits(n / 0x40);
    SixBits(n / 0x1000);
    if n < 0x80 {
      assert (Utf8Numbers(c) + rest)[1..] == rest;
    } else if n < 0x800 {
      ReadTwo(0xc0 + n / 0x40, 0x80 + n % 0x40, rest);
    } else if n < 0x1_0000 {
      ReadThree(0xe0 + n / 0x1000, 0x80 + n / 0x40 % 0x40, 0x80 + n % 0x40, rest);
    } else {
      ReadFour(0xf0 + n / 0x4_0000, 0x80 + n / 0x1000 % 0x40, 0x80 + n / 0x40 % 0x40, 0x80 + n % 0x40, rest);
    }
  }

  /** The bytes of a text, as numbers, are read back as its code points. */
  lemma {:induction false} Utf8RoundTrip(s: string)
    ensures Utf8(s) == Octets(Numbers(s)) && ReadPoints(Numbers(s)) == Points(s)
  {
    if s != "" {
      Utf8RoundTrip(s[1..]);
      ReadNumbers(s[0], Numbers(s[1..]));
      OctetsAppend(Utf8Numbers(s[0]), Numbers(s[1..]));
      assert Points(s) == [s[0] as int] + Points(s[1..]);
    }
  }

  lemma OctetsAppend(a: seq<int>, b: seq<int>)
    requires AreBytes(a) && AreBytes(b)
    ensures Octets(a + b) == Octets(a) + Octets(b)
  {}

  function ScriptBytes(sql: string): seq<Octet> {
    Utf8(Normalize(sql))
  }

  lemma CharBytes(c: char)
    requires Plain([c])
    ensures ScriptBytes([c]) == Utf8Char(c)
  {
    NormalizePlain([c], "");
    NothingAdded([c]);
    assert Normalize([c] + "") == [c] + Normalize("") && Normalize("") == "";
    assert [c][1..] == [] && Utf8([c]) == Utf8Char(c) + Utf8([]);
    NothingAdded(Utf8Char(c));
  }

  function ScriptChecksum(sql: string): Word {
    Crc32(ScriptBytes(sql))
  }

  method ComputeChecksum(table: array<Word>, sql: string) returns (checksum: Word)
    requires IsTable(table[..])
    ensures checksum == ScriptChecksum(sql)
  {
    checksum := ComputeCrc(table, Utf8(Normalize(sql)));
  }

  // ---- Line endings ----

  datatype Ending = Lf | Cr | CrLf
  datatype Line = Line(text: string, ending: Ending)

  function EndingText(e: Ending): string {
    match e
    case Lf => "\n"
    case Cr => "\r"
    case CrLf => "\r\n"
  }

  /** A file of terminated lines, then text after the last terminator. */
  function Render(lines: seq<Line>, last: string): string {
    if lines == [] then last
    else lines[0].text + (EndingText(lines[0].ending) + Render(lines[1..], last))
  }

  function WithLf(lines: seq<Line>): seq<Line> {
    seq(|lines|, i requires 0 <= i < |lines| => lines[i].(ending := Lf))
  }

  predicate Plain(text: string) {
    '\r' !in text && '\n' !in text
  }

  predicate PlainLines(lines: seq<Line>, last: string) {
    Plain(last) && forall i :: 0 <= i < |lines| ==> Plain(lines[i].text)
  }

  /** A CR terminator right before an empty line that ends in LF: on disk the two read as one CRLF. */
  predicate Ambiguous(lines: seq<Line>) {
    exists i :: 0 <= i < |lines| - 1
      && lines[i].ending == Cr && lines[i + 1].text == "" && lines[i + 1].ending == Lf
  }

  lemma {:induction false} NormalizePlain(text: string, rest: string)
    requires Plain(text)
    ensures Normalize(text + rest) == text + Normalize(rest)
  {
    if text == [] {
      assert text + rest == rest;
    } else {
      NormalizePlain(text[1..], rest);
      var tail := text[1..] + rest;
      assert text + rest == [text[0]] + tail;
      ReplaceMiss(tail, text[0], '\r', '\n', '\n');
      assert [text[0]] + (text[1..] + Normalize(rest)) == text + Normalize(rest);
    }
  }

  /** One terminator is one LF, unless it is a CR and an LF follows. */
  lemma NormalizeEnding(e: Ending, rest: string)
    ensures e != Cr || !StartsWith(rest, "\n") ==> Normalize(EndingText(e) + rest) == "\n" + Normalize(rest)
    ensures Normalize("\r\n" + rest) == "\n" + Normalize(rest)
  {
    ReplaceHit(rest, '\r', '\n', '\n');
    if e != CrLf && (e == Lf || !StartsWith(rest, "\n")) {
      var c := if e == Lf then '\n' else '\r';
      assert rest != [] ==> rest[..1] == [rest[0]];
      ReplaceMiss(rest, c, '\r', '\n', '\n');
    }
  }

  lemma RenderStart(lines: seq<Line>, last: string)
    requires PlainLines(lines, last)
    ensures StartsWith(Render(lines, last), "\n") <==> lines != [] && lines[0].text == "" && lines[0].ending == Lf
  {
    var text := Render(lines, last);
    if lines == [] {
      if last != "" {
        assert last[0] in last;
      }
    } else if lines[0].text != "" {
      assert text[0] == lines[0].text[0];
      assert lines[0].text[0] in lines[0].text;
    } else {
      assert text[0] == EndingText(lines[0].ending)[0];
    }
    assert StartsWith(text, "\n") <==> text != [] && text[0] == '\n' by {
      if text != [] {
        assert text[..1] == [text[0]];
      }
    }
  }

  /** The head line's own terminator does not merge with what follows. */
  predicate HeadIsClear(lines: seq<Line>) {
    lines != [] && !(lines[0].ending == Cr && |lines| > 1 && lines[1].text == "" && lines[1].ending == Lf)
  }

  lemma NormalizeHead(lines: seq<Line>, last: string)
    requires PlainLines(lines, last) && HeadIsClear(lines)
    ensures Normalize(Render(lines, last)) == lines[0].text + ("\n" + Normalize(Render(lines[1..], last)))
  {
    var rest := Render(lines[1..], last);
    assert PlainLines(lines[1..], last);
    RenderStart(lines[1..], last);
    NormalizePlain(lines[0].text, EndingText(lines[0].ending) + rest);
    NormalizeEnding(lines[0].ending, rest);
  }

  lemma NormalizeMergedHead(lines: seq<Line>, last: string)
    requires PlainLines(lines, last) && lines != [] && !HeadIsClear(lines)
    ensures Normalize(Render(lines, last)) == lines[0].text + ("\n" + Normalize(Render(lines[2..], last)))
  {
    var rest := Render(lines[2..], last);
    assert lines[1..][1..] == lines[2..];
    assert Render(lines[1..], last) == "\n" + rest;
    assert "\r" + ("\n" + rest) == "\r\n" + rest;
    NormalizePlain(lines[0].text, "\r\n" + rest);
    NormalizeEnding(CrLf, rest);
  }

  lemma WithLfTail(lines: seq<Line>, last: string)
    requires lines != []
    ensures Render(WithLf(lines), last) == lines[0].text + ("\n" + Render(WithLf(lines[1..]), last))
  {
    assert WithLf(lines)[1..] == WithLf(lines[1..]);
  }

  lemma MergedHeadIsAmbiguous(lines: seq<Line>)
    requires lines != [] && !HeadIsClear(lines)
    ensures Ambiguous(lines)
  {
    assert lines[0].ending == Cr && lines[0 + 1].text == "" && lines[0 + 1].ending == Lf;
  }

  /** Normalization never adds to the LF form, and loses from it exactly when terminators merge. */
  lemma {:induction false} NormalizedLength(lines: seq<Line>, last: string)
    requires PlainLines(lines, last)
    ensures |Normalize(Render(lines, last))| <= |Render(WithLf(lines), last)|
    ensures Ambiguous(lines) ==> |Normalize(Render(lines, last))| < |Render(WithLf(lines), last)|
    decreases |lines|
  {
    if lines == [] {
      NormalizePlain(last, "");
      assert last + "" == last;
    } else if HeadIsClear(lines) {
      NormalizedLength(lines[1..], last);
      NormalizeHead(lines, last);
      WithLfTail(lines, last);
    } else {
      NormalizedLength(lines[2..], last);
      NormalizeMergedHead(lines, last);
      WithLfTail(lines, last);
      WithLfTail(lines[1..], last);
      assert lines[1..][1..] == lines[2..];
    }
  }

  lemma {:induction false} NormalizeUnambiguous(lines: seq<Line>, last: string)
    requires PlainLines(lines, last) && !Ambiguous(lines)
    ensures Normalize(Render(lines, last)) == Render(WithLf(lines), last)
    decreases |lines|
  {
    if lines == [] {
      NormalizePlain(last, "");
      assert last + "" == last;
    } else {
      if !HeadIsClear(lines) {
        MergedHeadIsAmbiguous(lines);
      }
      NormalizeUnambiguous(lines[1..], last);
      NormalizeHead(lines, last);
      WithLfTail(lines, last);
    }
  }

  /**
   * A file with any mix of line endings normalizes to its LF form exactly when no CR terminator stands
   * before an empty line that ends in LF; and then it checksums like it.
   */
  lemma LineEndingsExact(lines: seq<Line>, last: string)
    requires PlainLines(lines, last)
    ensures Normalize(Render(lines, last)) == Render(WithLf(lines), last) <==> !Ambiguous(lines)
  {
    if Ambiguous(lines) {
      NormalizedLength(lines, last);
    } else {
      NormalizeUnambiguous(lines, last);
    }
  }

  /** An old-style line end before an empty line that ends in LF: the empty line is lost. */
  lemma EmptyLineIsLost(text: string)
    requires Plain(text)
    ensures
      var lines := [Line(text, Cr), Line("", Lf)];
      && PlainLines(lines, "")
      && Normalize(Render(lines, "")) == text + "\n"
      && Normalize(Render(WithLf(lines), "")) == text + "\n\n"
  {
    var lines, unix := [Line(text, Cr), Line("", Lf)], [Line(text, Lf), Line("", Lf)];
    assert WithLf(lines) == unix && WithLf(unix) == unix;
    assert unix[1..] == [Line("", Lf)] && lines[2..] == [];
    NormalizeMergedHead(lines, "");
    NormalizePlain("", "");
    NormalizeUnambiguous(unix, "");
    assert Render([Line("", Lf)], "") == "\n";
  }

  /** Nor does the checksum always forgive it: two empty lines. */
  lemma EndingsChecksumApart()
    ensures
      var lines := [Line("", Cr), Line("", Lf)];
      ScriptChecksum(Render(lines, "")) != ScriptChecksum(Render(WithLf(lines), ""))
  {
    EmptyLineIsLost("");
    LineFeedBytes();
    KnownChecksums();
  }

  lemma LineFeedBytes()
    ensures Utf8("" + "\n") == [10] && Utf8("" + "\n\n") == [10, 10]
  {
    assert Utf8Char('\n') == [10];
    assert "\n\n"[1..] == "\n" && "\n"[1..] == "" && Utf8("") == [];
    assert Utf8("\n") == [10] + [] && Utf8("\n\n") == [10] + Utf8("\n");
    assert "" + "\n" == "\n" && "" + "\n\n" == "\n\n";
  }

  /** Two files of the same lines under different line endings have one checksum. */
  lemma LineEndingsChecksumAlike(a: seq<Line>, b: seq<Line>, last: string)
    requires PlainLines(a, last) && !Ambiguous(a) && !Ambiguous(b)
    requires |a| == |b| && forall i :: 0 <= i < |a| ==> a[i].text == b[i].text
    ensures ScriptChecksum(Render(a, last)) == ScriptChecksum(Render(b, last))
  {
    NormalizeUnambiguous(a, last);
    NormalizeUnambiguous(b, last);
    assert WithLf(a) == WithLf(b);
  }
}
