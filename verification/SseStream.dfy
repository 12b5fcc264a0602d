/**
 * Accumulating assistant text from a server-sent event stream that arrives in arbitrary pieces.
 * `content` stands for parsing a payload: the text to append, or nothing.
 */
module SseStream {
  import opened Prelude

  const DATA_PREFIX := "data: "
  const DONE := "[DONE]"

  /** `!line.trim()`. */
  predicate IsBlank(line: string) {
    forall i :: 0 <= i < |line| ==> IsJsSpace(line[i])
  }

  /** The text one line contributes. */
  function LineText(content: string -> Option<string>, line: string): Option<string> {
    if IsBlank(line) || !StartsWith(line, DATA_PREFIX) then None
    else
      var data := line[|DATA_PREFIX|..];
      if data == DONE then None
      else
        match content(data)
        case Some(text) => if text == "" then None else Some(text)
        case None => None
  }

  /** The texts of a list of lines, in order. */
  function Pieces(content: string -> Option<string>, lines: seq<string>): seq<string> {
    if lines == [] then []
    else
      (match LineText(content, lines[0])
       case Some(text) => [text]
       case None => [])
      + Pieces(content, lines[1..])
  }

  function Concat(parts: seq<string>): string {
    if parts == [] then "" else Concat(parts[..|parts| - 1]) + parts[|parts| - 1]
  }

  /** The newline-terminated lines of a text. */
  function CompleteLines(text: string): seq<string> {
    Init(Split(text, '\n'))
  }

  /** The text still waiting for its newline. */
  function Remainder(text: string): string {
    Last(Split(text, '\n'))
  }

  /** What a stream that delivered `text` has accumulated. */
  function Accumulated(content: string -> Option<string>, text: string): string {
    Concat(Pieces(content, CompleteLines(text)))
  }

  /** The values handed to `onDelta`: each piece as it is appended. */
  function Deltas(pieces: seq<string>): seq<string> {
    if pieces == [] then [] else Deltas(pieces[..|pieces| - 1]) + [Concat(pieces)]
  }

  /** How many pieces are read before the signal is seen to be aborted. */
  function ReadsBeforeAbort(aborted: nat -> bool, count: nat, i: nat): (n: nat)
    requires i <= count
    ensures i <= n <= count
    decreases count - i
  {
    if aborted(i) || i == count then i else ReadsBeforeAbort(aborted, count, i + 1)
  }

  /** Put a character in front of the first piece. */
  function Grow(c: char, parts: seq<string>): seq<string>
    requires parts != []
  {
    [[c] + parts[0]] + parts[1..]
  }

  function Init(parts: seq<string>): seq<string>
    requires parts != []
  {
    parts[..|parts| - 1]
  }

  function Last(parts: seq<string>): string
    requires parts != []
  {
    parts[|parts| - 1]
  }

  lemma GrowJoins(c: char, parts: seq<string>, more: seq<string>)
    requires parts != [] && more != []
    ensures Init([""] + parts) + more == [""] + (Init(parts) + more)
    ensures Last([""] + parts) == Last(parts)
    ensures |parts| > 1 ==> Init(Grow(c, parts)) + more == Grow(c, Init(parts) + more)
    ensures |parts| > 1 ==> Last(Grow(c, parts)) == Last(parts)
    ensures |parts| == 1 ==> Init(Grow(c, parts)) == [] && Last(Grow(c, parts)) == [c] + parts[0] && Init(parts) == []
  {}

  /** More text continues the last, unfinished line. */
  lemma {:induction false} SplitContinues(a: string, b: string, d: char)
    ensures Split(a + b, d) == Init(Split(a, d)) + Split(Last(Split(a, d)) + b, d)
  {
    if a == "" {
      assert a + b == b;
    } else {
      var c, s := a[0], a[1..];
      var parts := Split(s, d);
      var more := Split(Last(parts) + b, d);
      SplitContinues(s, b, d);
      GrowJoins(c, parts, more);
      assert a == [c] + s && a + b == [c] + (s + b);
      if c != d && |parts| == 1 {
        Regroup([c], parts[0], b);
        assert [] + more == more;
      }
    }
  }

  lemma LinesContinue(a: string, b: string)
    ensures CompleteLines(a + b) == CompleteLines(a) + CompleteLines(Remainder(a) + b)
    ensures Remainder(a + b) == Remainder(Remainder(a) + b)
  {
    SplitContinues(a, b, '\n');
  }

  lemma {:induction false} PiecesConcat(content: string -> Option<string>, a: seq<string>, b: seq<string>)
    ensures Pieces(content, a + b) == Pieces(content, a) + Pieces(content, b)
  {
    if a == [] {
      assert a + b == b;
    } else {
      assert (a + b)[1..] == a[1..] + b;
      PiecesConcat(content, a[1..], b);
    }
  }

  lemma ConcatAppend(parts: seq<string>, part: string)
    ensures Concat(parts + [part]) == Concat(parts) + part
    ensures Deltas(parts + [part]) == Deltas(parts) + [Concat(parts) + part]
  {
    assert (parts + [part])[..|parts|] == parts;
  }

  lemma PiecesAppend(content: string -> Option<string>, lines: seq<string>, line: string)
    ensures
      Pieces(content, lines + [line]) ==
        match LineText(content, line)
        case Some(text) => Pieces(content, lines) + [text]
        case None => Pieces(content, lines)
  {
    PiecesConcat(content, lines, [line]);
    assert [line][1..] == [];
  }

  /** What the loop holds once `text` has come in. */
  ghost predicate Holds(
      content: string -> Option<string>, text: string, buffer: string, accumulated: string, deltas: seq<string>) {
    buffer == Remainder(text) && Emitted(content, CompleteLines(text), accumulated, deltas)
  }

  /** What has been appended and reported once `lines` have been read. */
  ghost predicate Emitted(
      content: string -> Option<string>, lines: seq<string>, accumulated: string, deltas: seq<string>)
  {
    accumulated == Concat(Pieces(content, lines)) && deltas == Deltas(Pieces(content, lines))
  }

  lemma EmitNext(
      content: string -> Option<string>, lines: seq<string>, line: string, accumulated: string, deltas: seq<string>)
    requires Emitted(content, lines, accumulated, deltas)
    ensures
      match LineText(content, line)
      case Some(text) => Emitted(content, lines + [line], accumulated + text, deltas + [accumulated + text])
      case None => Emitted(content, lines + [line], accumulated, deltas)
  {
    PiecesAppend(content, lines, line);
    match LineText(content, line)
    case Some(text) => ConcatAppend(Pieces(content, lines), text);
    case None =>
  }

  method Accumulate(chunks: seq<string>, aborted: nat -> bool, content: string -> Option<string>)
    returns (accumulated: string, deltas: seq<string>)
    ensures
      var text := Concat(chunks[..ReadsBeforeAbort(aborted, |chunks|, 0)]);
      && accumulated == Accumulated(content, text)
      && deltas == Deltas(Pieces(content, CompleteLines(text)))
  {
    var buffer := "";
    accumulated, deltas := "", [];
    var taken := 0;
    while true
      invariant taken <= |chunks|
      invariant ReadsBeforeAbort(aborted, |chunks|, taken) == ReadsBeforeAbort(aborted, |chunks|, 0)
      invariant Holds(content, Concat(chunks[..taken]), buffer, accumulated, deltas)
      decreases |chunks| - taken
    {
      if aborted(taken) {
        break;
      }
      if taken == |chunks| {
        break;
      }
      ghost var text := Concat(chunks[..taken]);
      TakeNext(chunks, taken);
      LinesContinue(text, chunks[taken]);
      buffer := buffer + chunks[taken];
      taken := taken + 1;
      var parts := Split(buffer, '\n');
      accumulated, deltas := ReadLines(content, CompleteLines(text), Init(parts), accumulated, deltas);
      buffer := Last(parts);
    }
  }

  lemma TakeNext(chunks: seq<string>, i: nat)
    requires i < |chunks|
    ensures Concat(chunks[..i + 1]) == Concat(chunks[..i]) + chunks[i]
  {
    assert chunks[..i] + [chunks[i]] == chunks[..i + 1];
    ConcatAppend(chunks[..i], chunks[i]);
  }

  /** The inner loop: append what each newly completed line holds. */
  method ReadLines(
      content: string -> Option<string>, ghost seen: seq<string>, lines: seq<string>, start: string,
      startDeltas: seq<string>)
    returns (accumulated: string, deltas: seq<string>)
    requires Emitted(content, seen, start, startDeltas)
    ensures Emitted(content, seen + lines, accumulated, deltas)
  {
    accumulated, deltas := start, startDeltas;
    ghost var done := seen;
    for i := 0 to |lines|
      invariant done == seen + lines[..i]
      invariant Emitted(content, done, accumulated, deltas)
    {
      accumulated, deltas := ReadLine(content, done, lines[i], accumulated, deltas);
      done := done + [lines[i]];
      assert done == seen + lines[..i + 1];
    }
    assert done == seen + lines;
  }

  /** The body of the loop. */
  method ReadLine(
      content: string -> Option<string>, ghost done: seq<string>, line: string, start: string,
      startDeltas: seq<string>)
    returns (accumulated: string, deltas: seq<string>)
    requires Emitted(content, done, start, startDeltas)
    ensures Emitted(content, done + [line], accumulated, deltas)
  {
    accumulated, deltas := start, startDeltas;
    EmitNext(content, done, line, accumulated, deltas);
    if IsBlank(line) || !StartsWith(line, DATA_PREFIX) {
      return;
    }
    var data := line[|DATA_PREFIX|..];
    if data == DONE {
      return;
    }
    var event := content(data);
    if event.Some? && event.value != "" {
      accumulated := accumulated + event.value;
      deltas := deltas + [accumulated];
    }
  }

  lemma {:induction false} ConcatSplits(a: seq<string>, b: seq<string>)
    ensures Concat(a + b) == Concat(a) + Concat(b)
  {
    if b == [] {
      assert a + b == a;
    } else {
      var init, last := b[..|b| - 1], b[|b| - 1];
      ConcatSplits(a, init);
      assert a + b == (a + init) + [last];
      ConcatAppend(a + init, last);
      Regroup(Concat(a), Concat(init), last);
    }
  }

  lemma MoreTextMoreOutput(content: string -> Option<string>, a: string, b: string)
    ensures Accumulated(content, a) <= Accumulated(content, a + b)
  {
    var rest := CompleteLines(Remainder(a) + b);
    LinesContinue(a, b);
    PiecesConcat(content, CompleteLines(a), rest);
    ConcatSplits(Pieces(content, CompleteLines(a)), Pieces(content, rest));
  }

  /** An aborted stream returns a prefix of what the whole stream returns. */
  lemma AbortedIsPrefix(content: string -> Option<string>, chunks: seq<string>, n: nat)
    requires n <= |chunks|
    ensures Accumulated(content, Concat(chunks[..n])) <= Accumulated(content, Concat(chunks))
  {
    ConcatCut(chunks, n);
    MoreTextMoreOutput(content, Concat(chunks[..n]), Concat(chunks[n..]));
  }

  lemma ConcatCut(chunks: seq<string>, n: nat)
    requires n <= |chunks|
    ensures Concat(chunks) == Concat(chunks[..n]) + Concat(chunks[n..])
  {
    ConcatSplits(chunks[..n], chunks[n..]);
    assert chunks[..n] + chunks[n..] == chunks;
  }

  /** A stream of whole lines yields the contents of its `data: ` lines; an unfinished tail yields nothing. */
  lemma {:induction false} WholeLines(lines: seq<string>, tail: string)
    requires '\n' !in tail && forall l :: l in lines ==> '\n' !in l
    ensures CompleteLines(Concat(Terminated(lines)) + tail) == lines
  {
    if lines == [] {
      SplitPiece(tail, "", '\n');
      assert "" + tail == tail;
    } else {
      var init, last := lines[..|lines| - 1], lines[|lines| - 1];
      assert lines == init + [last];
      var whole := Concat(Terminated(lines));
      assert Terminated(lines) == Terminated(init) + [last + "\n"];
      ConcatAppend(Terminated(init), last + "\n");
      WholeLines(init, "");
      var before := Concat(Terminated(init));
      assert before + "" == before;
      RemainderOfWhole(init);
      assert whole + tail == before + (last + ['\n'] + tail);
      LinesContinue(before, last + ['\n'] + tail);
      SplitPiece(last, tail, '\n');
      SplitPiece(tail, "", '\n');
      assert "" + (last + ['\n'] + tail) == last + ['\n'] + tail;
      assert Split(last + ['\n'] + tail, '\n') == [last] + [tail];
    }
  }

  function Terminated(lines: seq<string>): seq<string> {
    seq(|lines|, i requires 0 <= i < |lines| => lines[i] + "\n")
  }

  lemma RemainderOfWhole(lines: seq<string>)
    requires forall l :: l in lines ==> '\n' !in l
    ensures Remainder(Concat(Terminated(lines))) == ""
  {
    if lines != [] {
      var init, last := lines[..|lines| - 1], lines[|lines| - 1];
      assert lines == init + [last];
      assert Terminated(lines) == Terminated(init) + [last + "\n"];
      ConcatAppend(Terminated(init), last + "\n");
      var before := Concat(Terminated(init));
      LinesContinue(before, last + "\n");
      RemainderOfWhole(init);
      SplitPiece(last, "", '\n');
      assert "" + (last + "\n") == last + ['\n'] + "";
      assert Split("", '\n') == [""];
    }
  }

  // ---- What one line gives ----

  /** A `data: ` line gives the content of what follows, unless that is the end mark or empty. */
  lemma DataLineExact(content: string -> Option<string>, data: string)
    ensures
      LineText(content, "data: " + data)
        == if data == "[DONE]" || content(data) == Some("") then None else content(data)
  {
    var line := "data: " + data;
    assert line[..6] == "data: " && line[6..] == data;
    assert !IsJsSpace(line[0]);
  }

  /** Other lines give nothing. */
  lemma OtherLineExact(content: string -> Option<string>, line: string)
    requires |line| < 6 || line[..6] != "data: "
    ensures LineText(content, line) == None
  {}

  /** Pieces are read up to the first read before which the signal is aborted, or all of them. */
  lemma {:induction false} AbortExact(aborted: nat -> bool, count: nat, i: nat, n: nat)
    requires i <= count
    ensures
      n == ReadsBeforeAbort(aborted, count, i) <==>
        i <= n <= count && (n == count || aborted(n)) && forall k: nat :: i <= k < n ==> !aborted(k)
    decreases count - i
  {
    if !aborted(i) && i < count { AbortExact(aborted, count, i + 1, n); }
  }
}
