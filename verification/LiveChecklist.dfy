/**
 * The live checklist of an import: one row per schema, derived afresh from the growing event log.
 * Class names come already extracted from the messages.
 */
module LiveChecklist {
  import opened Prelude
  import opened Sorting

  datatype Code = CreatedCode | FailedCode | OtherCode

  datatype Event = Event(code: Code, name: Option<string>, warn: bool, about: Option<string>, message: string)

  datatype Status = Pending | Importing | Success | Warning | Error

  datatype Row = Row(index: nat, caption: string, status: Status, detail: Option<string>)

  /** What the job reports beside the log: whether it runs, and the class it is at. */
  datatype Progress = Progress(running: bool, creatingClasses: bool, currentItem: string)

  /** Does a message name the class in quotes? */
  type Quotes = (string, string) -> bool

  function Key(name: string): string {
    Lower(Trim(name))
  }

  predicate NamesMatch(a: string, b: string) {
    a == b || Key(a) == Key(b)
  }

  predicate Named(e: Event) {
    e.code != OtherCode && e.name.Some? && e.name.value != ""
  }

  // ---- The order of the rows ----

  /** Class names in order of first appearance. */
  function Appearance(events: seq<Event>): seq<string> {
    if events == [] then []
    else
      var before, e := Appearance(events[..|events| - 1]), events[|events| - 1];
      if Named(e) && e.name.value !in before then before + [e.name.value] else before
  }

  /** The names announced with one code, as an insertion-ordered set. */
  function NamesWith(code: Code, events: seq<Event>): seq<string> {
    if events == [] then []
    else
      var before, e := NamesWith(code, events[..|events| - 1]), events[|events| - 1];
      if Named(e) && e.code == code && e.name.value !in before then before + [e.name.value] else before
  }

  lemma {:induction false} NamesAppear(code: Code, events: seq<Event>)
    ensures forall n :: n in NamesWith(code, events) ==> n in Appearance(events)
  {
    if events != [] { NamesAppear(code, events[..|events| - 1]); }
  }

  method CollectNames(code: Code, events: seq<Event>) returns (names: seq<string>)
    ensures names == NamesWith(code, events)
  {
    names := [];
    var i := 0;
    while i < |events|
      invariant 0 <= i <= |events| && names == NamesWith(code, events[..i])
    {
      assert events[..i + 1][..i] == events[..i];
      var e := events[i];
      if e.code == code && Named(e) && e.name.value !in names { names := names + [e.name.value]; }
      i := i + 1;
    }
    assert events[..i] == events;
  }

  /** The log decides the order; the two passes over the collected names find nothing new. */
  method InferOrder(events: seq<Event>, created: seq<string>, failed: seq<string>) returns (order: seq<string>)
    requires created == NamesWith(CreatedCode, events) && failed == NamesWith(FailedCode, events)
    ensures order == Appearance(events)
  {
    var seen: set<string> := {};
    order := [];
    var i := 0;
    while i < |events|
      invariant 0 <= i <= |events|
      invariant order == Appearance(events[..i]) && seen == set n | n in order
    {
      assert events[..i + 1][..i] == events[..i];
      var e := events[i];
      if Named(e) && e.name.value !in seen {
        seen := seen + {e.name.value};
        order := order + [e.name.value];
      }
      i := i + 1;
    }
    assert events[..i] == events;
    NamesAppear(FailedCode, events);
    NamesAppear(CreatedCode, events);
    order := AppendUnseen(order, seen, failed);
    order := AppendUnseen(order, seen, created);
  }

  method AppendUnseen(order: seq<string>, seen: set<string>, names: seq<string>) returns (r: seq<string>)
    ensures (forall n :: n in names ==> n in seen) ==> r == order
    ensures order <= r
  {
    r := order;
    for i := 0 to |names|
      invariant (forall n :: n in names[..i] ==> n in seen) ==> r == order
      invariant order <= r
    {
      assert names[..i + 1] == names[..i] + [names[i]];
      if names[i] !in seen { r := r + [names[i]]; }
    }
    assert names[..|names|] == names;
  }

  /** As the log grows, rows are only ever added at the end. */
  lemma {:induction false} OrderGrows(events: seq<Event>, more: seq<Event>)
    ensures Appearance(events) <= Appearance(events + more)
  {
    if more == [] {
      assert events + more == events;
    } else {
      var all := events + more;
      assert all[..|all| - 1] == events + more[..|more| - 1];
      OrderGrows(events, more[..|more| - 1]);
    }
  }

  /** Each class that was created or failed has one row. */
  lemma {:induction false} AppearanceExact(events: seq<Event>)
    ensures Distinct(Appearance(events))
    ensures forall n :: n in Appearance(events) <==> exists e :: e in events && Named(e) && e.name.value == n
  {
    if events != [] {
      var init, last := events[..|events| - 1], events[|events| - 1];
      assert events == init + [last];
      AppearanceExact(init);
    }
  }

  // ---- The status of a row ----

  predicate Announced(code: Code, events: seq<Event>, caption: string) {
    exists e :: e in events && e.code == code && Named(e) && Key(e.name.value) == Key(caption)
  }

  predicate Warns(quotes: Quotes, e: Event, caption: string) {
    e.warn && ((e.about.Some? && e.about.value != "" && NamesMatch(e.about.value, caption))
      || quotes(e.message, caption))
  }

  /** The first warning about a class. */
  function FirstWarning(quotes: Quotes, events: seq<Event>, caption: string): Option<string> {
    if events == [] then None
    else if Warns(quotes, events[0], caption) then Some(events[0].message)
    else FirstWarning(quotes, events[1..], caption)
  }

  predicate IsImporting(p: Progress, caption: string) {
    p.running && p.creatingClasses && p.currentItem != "" && NamesMatch(p.currentItem, caption)
  }

  /** An empty warning text counts as none. */
  function StatusOf(quotes: Quotes, events: seq<Event>, p: Progress, caption: string): (Status, Option<string>) {
    if Announced(FailedCode, events, caption) then (Error, None)
    else if Announced(CreatedCode, events, caption) then
      var w := FirstWarning(quotes, events, caption);
      if w.Some? && w.value != "" then (Warning, w) else (Success, None)
    else if IsImporting(p, caption) then (Importing, None)
    else (Pending, None)
  }

  function RowOf(quotes: Quotes, events: seq<Event>, p: Progress, index: nat, caption: string): Row {
    var s := StatusOf(quotes, events, p, caption);
    Row(index, caption, s.0, s.1)
  }

  function OrderOf(selected: seq<string>, events: seq<Event>): seq<string> {
    if selected != [] then selected else Appearance(events)
  }

  function RowsFor(quotes: Quotes, order: seq<string>, events: seq<Event>, p: Progress): (rows: seq<Row>)
    ensures |rows| == |order|
    ensures forall i :: 0 <= i < |order| ==> rows[i] == RowOf(quotes, events, p, i, order[i])
  {
    seq(|order|, i requires 0 <= i < |order| => RowOf(quotes, events, p, i, order[i]))
  }

  function Checklist(quotes: Quotes, selected: seq<string>, events: seq<Event>, p: Progress): seq<Row> {
    RowsFor(quotes, OrderOf(selected, events), events, p)
  }

  lemma {:induction false} CollectedKeys(code: Code, events: seq<Event>, key: string)
    ensures
      (exists n :: n in NamesWith(code, events) && Key(n) == key)
      <==> exists e :: e in events && e.code == code && Named(e) && Key(e.name.value) == key
  {
    if events != [] {
      var init, last := events[..|events| - 1], events[|events| - 1];
      assert events == init + [last];
      CollectedKeys(code, init, key);
    }
  }

  method FindWarning(quotes: Quotes, events: seq<Event>, caption: string) returns (w: Option<string>)
    ensures w == FirstWarning(quotes, events, caption)
  {
    for i := 0 to |events|
      invariant FirstWarning(quotes, events[i..], caption) == FirstWarning(quotes, events, caption)
    {
      assert events[i..][1..] == events[i + 1..];
      if Warns(quotes, events[i], caption) { return Some(events[i].message); }
    }
    return None;
  }

  method BuildImportLiveChecklist(
      quotes: Quotes, selected: seq<string>, events: seq<Event>, p: Progress) returns (rows: seq<Row>)
    ensures rows == Checklist(quotes, selected, events, p)
  {
    var created := CollectNames(CreatedCode, events);
    var failed := CollectNames(FailedCode, events);
    var order := selected;
    if selected == [] { order := InferOrder(events, created, failed); }
    var createdKeys := set n | n in created :: Key(n);
    var failedKeys := set n | n in failed :: Key(n);
    rows := [];
    var i := 0;
    while i < |order|
      invariant 0 <= i <= |order| && |rows| == i
      invariant forall j :: 0 <= j < i ==> rows[j] == RowOf(quotes, events, p, j, order[j])
    {
      var row := BuildRow(quotes, events, p, createdKeys, failedKeys, i, order[i]);
      rows := rows + [row];
      i := i + 1;
    }
  }

  method BuildRow(
      quotes: Quotes, events: seq<Event>, p: Progress, createdKeys: set<string>, failedKeys: set<string>, index: nat,
      caption: string)
    returns (row: Row)
    requires createdKeys == set n | n in NamesWith(CreatedCode, events) :: Key(n)
    requires failedKeys == set n | n in NamesWith(FailedCode, events) :: Key(n)
    ensures row == RowOf(quotes, events, p, index, caption)
  {
    CollectedKeys(CreatedCode, events, Key(caption));
    CollectedKeys(FailedCode, events, Key(caption));
    if Key(caption) in failedKeys {
      return Row(index, caption, Error, None);
    }
    if Key(caption) in createdKeys {
      var w := FindWarning(quotes, events, caption);
      return if w.Some? && w.value != "" then Row(index, caption, Warning, w) else Row(index, caption, Success, None);
    }
    return Row(index, caption, if IsImporting(p, caption) then Importing else Pending, None);
  }

  // ---- Rows only move forward ----

  function Rank(s: Status): nat {
    match s
    case Pending => 0
    case Importing => 1
    case Success => 2
    case Warning => 3
    case Error => 4
  }

  lemma {:induction false} WarningStays(quotes: Quotes, events: seq<Event>, more: seq<Event>, caption: string)
    requires FirstWarning(quotes, events, caption).Some?
    ensures FirstWarning(quotes, events + more, caption) == FirstWarning(quotes, events, caption)
  {
    if !Warns(quotes, events[0], caption) {
      assert (events + more)[1..] == events[1..] + more;
      WarningStays(quotes, events[1..], more, caption);
    }
  }

  lemma AnnouncedStays(code: Code, events: seq<Event>, more: seq<Event>, caption: string)
    requires Announced(code, events, caption)
    ensures Announced(code, events + more, caption)
  {
    var e :| e in events && e.code == code && Named(e) && Key(e.name.value) == Key(caption);
    assert e in events + more;
  }

  /**
   * However the log grows, a row that was settled (created or failed) stays settled and its status
   * only moves forward, whatever the progress report says; before that it moves forward unless the
   * report has gone on to another class.
   */
  lemma StatusMovesForward(
      quotes: Quotes, events: seq<Event>, more: seq<Event>, p: Progress, q: Progress, caption: string)
    ensures
      var before, after := StatusOf(quotes, events, p, caption), StatusOf(quotes, events + more, q, caption);
      && (Rank(before.0) >= 2 ==> Rank(after.0) >= Rank(before.0))
      && (Rank(before.0) >= 2 && after.0 == before.0 ==> after.1 == before.1)
      && (Rank(after.0) < Rank(before.0) <==>
            before.0 == Importing && !IsImporting(q, caption)
            && !Announced(FailedCode, events + more, caption) && !Announced(CreatedCode, events + more, caption))
  {
    if Announced(FailedCode, events, caption) { AnnouncedStays(FailedCode, events, more, caption); }
    if Announced(CreatedCode, events, caption) { AnnouncedStays(CreatedCode, events, more, caption); }
    if FirstWarning(quotes, events, caption).Some? { WarningStays(quotes, events, more, caption); }
  }

  /** Rows keep their place and caption as the log grows. */
  lemma RowsStay(
      quotes: Quotes, selected: seq<string>, events: seq<Event>, more: seq<Event>, p: Progress, q: Progress, i: nat)
    requires i < |Checklist(quotes, selected, events, p)|
    ensures
      var before, after := Checklist(quotes, selected, events, p), Checklist(quotes, selected, events + more, q);
      i < |after| && after[i].index == before[i].index && after[i].caption == before[i].caption
  {
    OrderGrows(events, more);
    var a, b := OrderOf(selected, events), OrderOf(selected, events + more);
    assert a <= b && a == b[..|a|];
  }

  // ---- What a row says ----

  /** The log has an event of this code about a class of this name, case and outer spaces aside. */
  ghost predicate Logged(code: Code, events: seq<Event>, caption: string) {
    exists i :: 0 <= i < |events| && events[i].code == code && code != OtherCode
      && events[i].name.Some? && events[i].name.value != "" && Lower(Trim(events[i].name.value)) == Lower(Trim(caption))
  }

  /** A warning event that names the class, or whose text quotes it. */
  ghost predicate WarnsOf(quotes: Quotes, e: Event, caption: string) {
    e.warn &&
    (quotes(e.message, caption)
     || (e.about.Some? && e.about.value != ""
         && (e.about.value == caption || Lower(Trim(e.about.value)) == Lower(Trim(caption)))))
  }

  ghost predicate FirstWarns(quotes: Quotes, events: seq<Event>, caption: string, i: nat) {
    && i < |events| && WarnsOf(quotes, events[i], caption)
    && forall j :: 0 <= j < i ==> !WarnsOf(quotes, events[j], caption)
  }

  lemma {:induction false} FirstWarningExact(quotes: Quotes, events: seq<Event>, caption: string)
    ensures
      match FirstWarning(quotes, events, caption)
      case None => forall i :: 0 <= i < |events| ==> !WarnsOf(quotes, events[i], caption)
      case Some(text) => exists i: nat :: FirstWarns(quotes, events, caption, i) && events[i].message == text
  {
    if events != [] {
      var tail := events[1..];
      assert forall i :: 0 < i < |events| ==> events[i] == tail[i - 1];
      if Warns(quotes, events[0], caption) {
        assert FirstWarns(quotes, events, caption, 0);
      } else {
        FirstWarningExact(quotes, tail, caption);
        if FirstWarning(quotes, tail, caption).Some? {
          var i: nat :| FirstWarns(quotes, tail, caption, i)
                        && tail[i].message == FirstWarning(quotes, tail, caption).value;
          assert FirstWarns(quotes, events, caption, i + 1);
        }
      }
    }
  }

  lemma FirstIsOne(quotes: Quotes, events: seq<Event>, caption: string, i: nat, k: nat)
    requires FirstWarns(quotes, events, caption, i) && FirstWarns(quotes, events, caption, k)
    ensures i == k
  {}

  lemma LoggedExact(code: Code, events: seq<Event>, caption: string)
    ensures Logged(code, events, caption) <==> Announced(code, events, caption)
  {
    if e :| e in events && e.code == code && Named(e) && Key(e.name.value) == Key(caption) {
      var i :| 0 <= i < |events| && events[i] == e;
      assert events[i].code == code;
    }
  }

  /** The class the running job is at. */
  predicate IsCurrent(p: Progress, caption: string) {
    p.running && p.creatingClasses && p.currentItem != ""
    && (p.currentItem == caption || Lower(Trim(p.currentItem)) == Lower(Trim(caption)))
  }

  /**
   * A row is an error when its class failed; else, when it was created, a warning with the text of the first
   * event that warns of it, if that is not empty, or a success; else importing when the job is at it, or pending.
   */
  lemma StatusExact(quotes: Quotes, events: seq<Event>, p: Progress, caption: string)
    ensures
      var (status, detail) := StatusOf(quotes, events, p, caption);
      if Logged(FailedCode, events, caption) then status == Error && detail == None
      else if Logged(CreatedCode, events, caption) then
        (status == Warning && detail.Some? && detail.value != ""
         && exists i: nat :: FirstWarns(quotes, events, caption, i) && events[i].message == detail.value)
        || (status == Success && detail == None
            && forall i: nat :: FirstWarns(quotes, events, caption, i) ==> events[i].message == "")
      else detail == None && status == if IsCurrent(p, caption) then Importing else Pending
  {
    LoggedExact(FailedCode, events, caption);
    LoggedExact(CreatedCode, events, caption);
    FirstWarningExact(quotes, events, caption);
    var w := FirstWarning(quotes, events, caption);
    if w.Some? {
      var k: nat :| FirstWarns(quotes, events, caption, k) && events[k].message == w.value;
      forall i: nat | FirstWarns(quotes, events, caption, i) ensures i == k {
        FirstIsOne(quotes, events, caption, i, k);
      }
    }
  }

  /** One row per selected class, or else per class the log names, numbered in order. */
  lemma ChecklistExact(quotes: Quotes, selected: seq<string>, events: seq<Event>, p: Progress, i: nat)
    ensures
      var rows, order := Checklist(quotes, selected, events, p),
        if |selected| > 0 then selected else Appearance(events);
      |rows| == |order| &&
      (i < |rows| ==>
         rows[i].index == i && rows[i].caption == order[i]
         && (rows[i].status, rows[i].detail) == StatusOf(quotes, events, p, order[i]))
  {}
}
