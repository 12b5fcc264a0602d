/** Values and text helpers shared by the other modules. */
module Prelude {

  datatype Option<+T> = None | Some(value: T)

  datatype Result<+T, +E> = Ok(value: T) | Err(error: E)

  predicate StartsWith(s: string, prefix: string) {
    |prefix| <= |s| && s[..|prefix|] == prefix
  }

  /** White space that Python and JavaScript agree on, beyond the ASCII range. */
  predicate IsWideSpace(n: int) {
    n == 0xa0 || n == 0x1680 || 0x2000 <= n <= 0x200a
    || n == 0x2028 || n == 0x2029 || n == 0x202f || n == 0x205f || n == 0x3000
  }

  /** What Python's `str.strip` and `int` treat as white space. */
  predicate IsSpace(c: char) {
    var n := c as int;
    9 <= n <= 13 || 28 <= n <= 32 || n == 0x85 || IsWideSpace(n)
  }

  /** What JavaScript's `trim` treats as white space. */
  predicate IsJsSpace(c: char) {
    var n := c as int;
    9 <= n <= 13 || n == 32 || n == 0xfeff || IsWideSpace(n)
  }

  function TrimLeft(space: char -> bool, s: string): string {
    if s != [] && space(s[0]) then TrimLeft(space, s[1..]) else s
  }

  function TrimRight(space: char -> bool, s: string): string {
    if s != [] && space(s[|s| - 1]) then TrimRight(space, s[..|s| - 1]) else s
  }

  /** Python's `s.strip()`. */
  function Strip(s: string): string {
    TrimRight(IsSpace, TrimLeft(IsSpace, s))
  }

  /** JavaScript's `s.trim()`. */
  function Trim(s: string): string {
    TrimRight(IsJsSpace, TrimLeft(IsJsSpace, s))
  }

  /** Lower case of ASCII letters. */
  function Lower(s: string): string {
    seq(|s|, i requires 0 <= i < |s| => if 'A' <= s[i] <= 'Z' then s[i] - 'A' + 'a' else s[i])
  }

  lemma Regroup<T>(a: seq<T>, b: seq<T>, c: seq<T>)
    ensures (a + b) + c == a + (b + c)
  {}

  lemma NothingAdded<T>(xs: seq<T>)
    ensures xs + [] == xs && [] + xs == xs
  {}

  /** The pieces of `s` between occurrences of `d`, like JavaScript's and Python's `split`. */
  function Split(s: string, d: char): (parts: seq<string>)
    ensures |parts| > 0
    ensures forall p :: p in parts ==> d !in p
  {
    if s == [] then [""]
    else if s[0] == d then [""] + Split(s[1..], d)
    else
      var rest := Split(s[1..], d);
      [[s[0]] + rest[0]] + rest[1..]
  }

  function Join(parts: seq<string>, d: char): string {
    if parts == [] then ""
    else if |parts| == 1 then parts[0]
    else parts[0] + [d] + Join(parts[1..], d)
  }

  lemma {:induction false} SplitPiece(p: string, s: string, d: char)
    requires d !in p
    ensures Split(p, d) == [p]
    ensures Split(p + [d] + s, d) == [p] + Split(s, d)
  {
    if p == [] {
      assert p + [d] + s == [d] + s;
    } else {
      SplitPiece(p[1..], s, d);
      assert (p + [d] + s)[1..] == p[1..] + [d] + s;
      assert [p[0]] + p[1..] == p;
    }
  }

  /** Splitting undoes joining when no piece holds the delimiter. */
  lemma {:induction false} SplitJoin(parts: seq<string>, d: char)
    requires parts != [] && forall p :: p in parts ==> d !in p
    ensures Split(Join(parts, d), d) == parts
  {
    if |parts| == 1 {
      SplitPiece(parts[0], "", d);
    } else {
      var rest := Join(parts[1..], d);
      SplitJoin(parts[1..], d);
      SplitPiece(parts[0], rest, d);
      assert Join(parts, d) == parts[0] + [d] + rest;
      assert [parts[0]] + parts[1..] == parts;
    }
  }

  /** Joining undoes splitting, always. */
  lemma {:induction false} JoinSplit(s: string, d: char)
    ensures Join(Split(s, d), d) == s
  {
    if s != [] {
      JoinSplit(s[1..], d);
      var rest := Split(s[1..], d);
      if s[0] != d {
        assert Split(s, d) == [[s[0]] + rest[0]] + rest[1..];
        if |rest| > 1 {
          assert Split(s, d)[1..] == rest[1..];
        }
      } else {
        assert Split(s, d)[1..] == rest;
      }
    }
  }

  /** Left-to-right replacement of every `a b` by `c`. */
  function ReplacePair(s: string, a: char, b: char, c: char): string {
    if |s| < 2 then s
    else if s[0] == a && s[1] == b then [c] + ReplacePair(s[2..], a, b, c)
    else [s[0]] + ReplacePair(s[1..], a, b, c)
  }

  lemma ReplaceMiss(rest: string, x: char, a: char, b: char, c: char)
    requires x != a || rest == [] || rest[0] != b
    ensures ReplacePair([x] + rest, a, b, c) == [x] + ReplacePair(rest, a, b, c)
  {
    assert ([x] + rest)[1..] == rest;
  }

  lemma ReplaceHit(rest: string, a: char, b: char, c: char)
    ensures ReplacePair([a, b] + rest, a, b, c) == [c] + ReplacePair(rest, a, b, c)
  {
    assert ([a, b] + rest)[2..] == rest;
  }

  lemma ReplaceMissTwice(rest: string, x: char, a: char, b: char, c: char)
    requires x != a && x != b
    ensures ReplacePair([a, x] + rest, a, b, c) == [a, x] + ReplacePair(rest, a, b, c)
  {
    var tail := [x] + rest;
    ReplaceMiss(rest, x, a, b, c);
    ReplaceMiss(tail, a, a, b, c);
    assert [a, x] + rest == [a] + tail;
  }

  /** Left-to-right replacement of every occurrence of a text, as Python's `replace` does it. */
  function Replace(s: string, part: string, with: string): string
    requires part != ""
  {
    if s == "" then ""
    else if StartsWith(s, part) then with + Replace(s[|part|..], part, with)
    else [s[0]] + Replace(s[1..], part, with)
  }

  /** Replacing by a character that does not occur can be undone. */
  lemma {:induction false} ReplaceBack(s: string, part: string, c: char)
    requires part != "" && c !in s
    ensures Replace(Replace(s, part, [c]), [c], part) == s
  {
    if s != "" {
      var hit := StartsWith(s, part);
      var rest := if hit then s[|part|..] else s[1..];
      ReplaceBack(rest, part, c);
      var head, after := if hit then [c] else [s[0]], Replace(rest, part, [c]);
      assert Replace(s, part, [c]) == head + after;
      assert (head + after)[1..] == after;
      assert (head + after)[..1] == head;
      assert s == (if hit then part else [s[0]]) + rest;
    }
  }

  // ---- Decimal text ----

  function DigitChar(d: int): char
    requires 0 <= d < 10
  {
    '0' + d as char
  }

  function NatText(n: nat): string {
    if n < 10 then [DigitChar(n)] else NatText(n / 10) + [DigitChar(n % 10)]
  }

  function IntText(n: int): string {
    if n < 0 then ['-'] + NatText(-n) else NatText(n)
  }

  predicate IsDigit(c: char) {
    '0' <= c <= '9'
  }

  lemma {:induction false} NatTextDigits(n: nat)
    ensures NatText(n) != "" && forall c :: c in NatText(n) ==> IsDigit(c)
  {
    if n >= 10 { NatTextDigits(n / 10); }
  }

  // ---- Letters and spaces ----

  /** Every capital letter has its small one, and nothing else changes. */
  lemma LowerExact(s: string, i: nat)
    requires i < |s|
    ensures |Lower(s)| == |s|
    ensures 65 <= s[i] as int <= 90 ==> Lower(s)[i] as int == s[i] as int + 32
    ensures !(65 <= s[i] as int <= 90) ==> Lower(s)[i] == s[i]
  {}

  /** Both trim tab, line feed, return and space; Python also the separators, JavaScript also the byte order mark. */
  lemma SpacesApart(c: char)
    ensures c == '\t' || c == '\n' || c == '\r' || c == ' ' || c as int == 0xa0 ==> IsSpace(c) && IsJsSpace(c)
    ensures 28 <= c as int <= 31 || c as int == 0x85 ==> IsSpace(c) && !IsJsSpace(c)
    ensures c as int == 0xfeff ==> IsJsSpace(c) && !IsSpace(c)
    ensures '!' <= c <= '~' ==> !IsSpace(c) && !IsJsSpace(c)
  {}

  lemma TrimSample()
    ensures Trim(" \ta b\n ") == "a b" && Strip(" \ta b\n ") == "a b"
  {
    SpacesApart(' ');
    SpacesApart('\t');
    SpacesApart('\n');
    SpacesApart('a');
    SpacesApart('b');
    TrimmedSample(IsJsSpace);
    TrimmedSample(IsSpace);
  }

  lemma TrimmedSample(space: char -> bool)
    requires space(' ') && space('\t') && space('\n') && !space('a') && !space('b')
    ensures TrimRight(space, TrimLeft(space, " \ta b\n ")) == "a b"
  {
    assert " \ta b\n "[1..] == "\ta b\n " && "\ta b\n "[1..] == "a b\n ";
    assert TrimLeft(space, "a b\n ") == "a b\n " && TrimLeft(space, "\ta b\n ") == "a b\n ";
    assert "a b\n "[..4] == "a b\n" && "a b\n"[..3] == "a b";
    assert TrimRight(space, "a b") == "a b" && TrimRight(space, "a b\n") == "a b";
  }
}
