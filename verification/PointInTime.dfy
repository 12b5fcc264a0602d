/**
 * Point-in-time recovery: replay an event log up to a cutoff, and restore the result into a sandbox.
 * Instants are integers; record identifiers have a fixed text order.
 */
module PointInTime {
  import opened Prelude
  import opened Json
  import opened Sorting
  import opened Filters

  type Document = map<string, Json>

  datatype Action = Created | Updated | Deleted | Restored

  datatype Event = Event(recordId: string, sequence: int, action: Action, data: Option<Document>, at: int)

  datatype Working = Working(data: Document, live: bool, lastSequence: int, lastEventAt: int)

  datatype LiveRecord = LiveRecord(recordId: string, data: Document, lastSequence: int, lastEventAt: int)

  datatype FoldResult = FoldResult(records: seq<LiveRecord>, deletedCount: nat, eventsApplied: nat,
    lastEventAt: Option<int>)

  // ---- What a replay means, record by record ----

  predicate InWindow(e: Event, cutoff: Option<int>) {
    cutoff.None? || e.at <= cutoff.value
  }

  function Window(events: seq<Event>, cutoff: Option<int>): seq<Event> {
    Filter((e: Event) => InWindow(e, cutoff), events)
  }

  function OfRecord(id: string, events: seq<Event>): seq<Event> {
    Filter((e: Event) => e.recordId == id, events)
  }

  predicate BySequence(a: Event, b: Event) {
    a.sequence < b.sequence
  }

  function DataOr(data: Option<Document>, otherwise: Document): Document {
    if data.Some? then data.value else otherwise
  }

  /** One event on one record; an event on a record that was never created does nothing. */
  function Apply(current: Option<Working>, e: Event): Option<Working> {
    match e.action
    case Created => Some(Working(DataOr(e.data, map[]), true, e.sequence, e.at))
    case Updated =>
      if current.None? then None
      else Some(Working(current.value.data + DataOr(e.data, map[]), true, e.sequence, e.at))
    case Deleted =>
      if current.None? then None else Some(Working(current.value.data, false, e.sequence, e.at))
    case Restored =>
      if current.None? then None else Some(Working(DataOr(e.data, current.value.data), true, e.sequence, e.at))
  }

  function Replay(current: Option<Working>, events: seq<Event>): Option<Working> {
    if events == [] then current
    else Apply(Replay(current, events[..|events| - 1]), events[|events| - 1])
  }

  /** The state of one record: its own events up to the cutoff, in sequence order. */
  function StateAt(events: seq<Event>, cutoff: Option<int>, id: string): Option<Working> {
    Replay(None, Sort(BySequence, OfRecord(id, Window(events, cutoff))))
  }

  /** The records created within the window. */
  function KnownIds(events: seq<Event>, cutoff: Option<int>): set<string> {
    set e | e in events && e.action.Created? && InWindow(e, cutoff) :: e.recordId
  }

  predicate LiveAs(state: Option<Working>, rec: LiveRecord) {
    state.Some? && state.value == Working(rec.data, true, rec.lastSequence, rec.lastEventAt)
  }

  ghost predicate Increasing(collate: TextOrder, records: seq<LiveRecord>) {
    forall i, j :: 0 <= i < j < |records| ==> collate(records[i].recordId, records[j].recordId)
  }

  ghost predicate IsNewest(newest: Option<int>, events: seq<Event>, cutoff: Option<int>) {
    match newest
    case None => KnownIds(events, cutoff) == {}
    case Some(t) =>
      && (exists id :: id in KnownIds(events, cutoff) && EndsAt(events, cutoff, id, t))
      && (forall id, u :: id in KnownIds(events, cutoff) && EndsAt(events, cutoff, id, u) ==> u <= t)
  }

  predicate EndsAt(events: seq<Event>, cutoff: Option<int>, id: string, t: int) {
    var state := StateAt(events, cutoff, id);
    state.Some? && state.value.lastEventAt == t
  }

  /** `r` is what the log says at the cutoff, each record replayed on its own. */
  ghost predicate IsFold(r: FoldResult, collate: TextOrder, events: seq<Event>, cutoff: Option<int>) {
    && Increasing(collate, r.records)
    && (forall rec :: rec in r.records <==> LiveAs(StateAt(events, cutoff, rec.recordId), rec))
    && |r.records| + r.deletedCount == |KnownIds(events, cutoff)|
    && r.eventsApplied == |Window(events, cutoff)|
    && IsNewest(r.lastEventAt, events, cutoff)
  }

  // ---- The replay of the whole log ----

  /** Application order: by record, then by sequence. */
  function EventOrder(collate: TextOrder): (Event, Event) -> bool {
    (a: Event, b: Event) => if a.recordId == b.recordId then a.sequence < b.sequence
      else collate(a.recordId, b.recordId)
  }

  function Find(working: map<string, Working>, id: string): Option<Working> {
    if id in working then Some(working[id]) else None
  }

  ghost predicate Holds(m: Memory) {
    Distinct(m.order) && forall id :: id in m.order <==> id in m.working
  }

  function LiveOf(working: map<string, Working>, order: seq<string>): seq<LiveRecord>
    requires forall id :: id in order ==> id in working
  {
    if order == [] then []
    else
      var id := order[|order| - 1];
      var rec := working[id];
      LiveOf(working, order[..|order| - 1]) +
      if rec.live then [LiveRecord(id, rec.data, rec.lastSequence, rec.lastEventAt)] else []
  }

  function NewestOf(working: map<string, Working>, order: seq<string>): Option<int>
    requires forall id :: id in order ==> id in working
  {
    if order == [] then None
    else
      var before, t := NewestOf(working, order[..|order| - 1]), working[order[|order| - 1]].lastEventAt;
      if before.None? || t > before.value then Some(t) else before
  }

  function RecordOrder(collate: TextOrder): (LiveRecord, LiveRecord) -> bool {
    (a: LiveRecord, b: LiveRecord) => collate(a.recordId, b.recordId)
  }

  method FoldEventsAsOf(collate: TextOrder, events: seq<Event>, cutoff: Option<int>) returns (r: FoldResult)
    requires TotalOrder(collate)
    ensures IsFold(r, collate, events, cutoff)
  {
    var inWindow := Sort(EventOrder(collate), Window(events, cutoff));
    var m := ApplyAll(inWindow);
    StepsHold(inWindow);
    var records, deletedCount, lastEventAt := Collect(m.working, m.order);
    r := FoldResult(Sort(RecordOrder(collate), records), deletedCount, |inWindow|, lastEventAt);
    FoldedIsFold(collate, events, cutoff, m, r);
  }

  /** The map of records, and its keys in order of insertion. */
  datatype Memory = Memory(working: map<string, Working>, order: seq<string>)

  function Step(m: Memory, e: Event): Memory {
    var next := Apply(Find(m.working, e.recordId), e);
    if next.None? then m
    else Memory(m.working[e.recordId := next.value],
      if e.recordId in m.working then m.order else m.order + [e.recordId])
  }

  function Steps(events: seq<Event>): Memory {
    if events == [] then Memory(map[], []) else Step(Steps(events[..|events| - 1]), events[|events| - 1])
  }

  /** The pass over the sorted log. */
  method ApplyAll(inWindow: seq<Event>) returns (m: Memory)
    ensures m == Steps(inWindow)
  {
    m := Memory(map[], []);
    var i := 0;
    while i < |inWindow|
      invariant 0 <= i <= |inWindow| && m == Steps(inWindow[..i])
    {
      m := ApplyOne(m, inWindow[i]);
      assert inWindow[..i + 1][..i] == inWindow[..i];
      i := i + 1;
    }
    assert inWindow[..i] == inWindow;
  }

  method ApplyOne(m: Memory, event: Event) returns (r: Memory)
    ensures r == Step(m, event)
  {
    var working, order, id := m.working, m.order, event.recordId;
    match event.action {
      case Created =>
        if id !in working { order := order + [id]; }
        working := working[id := Working(DataOr(event.data, map[]), true, event.sequence, event.at)];
      case Updated =>
        if id in working {
          var current := working[id];
          working := working[id := Working(current.data + DataOr(event.data, map[]), true, event.sequence, event.at)];
        }
      case Deleted =>
        if id in working {
          working := working[id := Working(working[id].data, false, event.sequence, event.at)];
        }
      case Restored =>
        if id in working {
          var current := working[id];
          working := working[id := Working(DataOr(event.data, current.data), true, event.sequence, event.at)];
        }
    }
    r := Memory(working, order);
  }

  /** The pass over the finished map, in insertion order. */
  method Collect(working: map<string, Working>, order: seq<string>)
    returns (records: seq<LiveRecord>, deletedCount: nat, lastEventAt: Option<int>)
    requires forall id :: id in order ==> id in working
    ensures records == LiveOf(working, order) && |records| + deletedCount == |order|
    ensures lastEventAt == NewestOf(working, order)
  {
    records, deletedCount, lastEventAt := [], 0, None;
    var k := 0;
    while k < |order|
      invariant 0 <= k <= |order|
      invariant records == LiveOf(working, order[..k]) && |records| + deletedCount == k
      invariant lastEventAt == NewestOf(working, order[..k])
    {
      var rec := working[order[k]];
      assert order[..k + 1][..k] == order[..k];
      if lastEventAt.None? || rec.lastEventAt > lastEventAt.value { lastEventAt := Some(rec.lastEventAt); }
      if rec.live {
        records := records + [LiveRecord(order[k], rec.data, rec.lastSequence, rec.lastEventAt)];
      } else {
        deletedCount := deletedCount + 1;
      }
      k := k + 1;
    }
    assert order[..k] == order;
  }

  lemma ReplayOwn(events: seq<Event>, e: Event, id: string)
    ensures
      Replay(None, OfRecord(id, events + [e])) ==
        if id == e.recordId then Apply(Replay(None, OfRecord(id, events)), e) else Replay(None, OfRecord(id, events))
  {
    FilterLast((x: Event) => x.recordId == id, events, e);
    ReplayLast(None, OfRecord(id, events), e);
  }

  /** A step changes its own record, as replay does; a deletion or an update of an unknown record changes none. */
  lemma StepFind(m: Memory, e: Event, id: string)
    ensures
      Find(Step(m, e).working, id) == if id == e.recordId then Apply(Find(m.working, id), e) else Find(m.working, id)
  {}

  lemma {:induction false} StepsTrack(events: seq<Event>, id: string)
    ensures Find(Steps(events).working, id) == Replay(None, OfRecord(id, events))
  {
    if events != [] {
      var init, last := events[..|events| - 1], events[|events| - 1];
      StepsTrack(init, id);
      ReplayOwn(init, last, id);
      StepFind(Steps(init), last, id);
      assert events == init + [last];
    }
  }

  lemma {:induction false} StepsHold(events: seq<Event>)
    ensures Holds(Steps(events))
  {
    if events != [] {
      StepsHold(events[..|events| - 1]);
    }
  }

  lemma ReplayLast(current: Option<Working>, events: seq<Event>, e: Event)
    ensures Replay(current, events + [e]) == Apply(Replay(current, events), e)
  {
    assert (events + [e])[..|events|] == events;
  }

  lemma EventOrderIsOrder(collate: TextOrder)
    requires TotalOrder(collate)
    ensures WeakOrder(EventOrder(collate)) && WeakOrder(RecordOrder(collate))
  {
    var before := EventOrder(collate);
    forall x: Event, y: Event, z: Event
      ensures !before(x, x) && (before(x, y) && before(y, z) ==> before(x, z))
      ensures !before(x, y) && !before(y, z) ==> !before(x, z)
    {
      TextFacts(collate, x.recordId, y.recordId, z.recordId);
    }
    forall x: LiveRecord, y: LiveRecord, z: LiveRecord
      ensures !collate(x.recordId, x.recordId)
      ensures collate(x.recordId, y.recordId) && collate(y.recordId, z.recordId) ==> collate(x.recordId, z.recordId)
      ensures !collate(x.recordId, y.recordId) && !collate(y.recordId, z.recordId) ==> !collate(x.recordId, z.recordId)
    {
      TextFacts(collate, x.recordId, y.recordId, z.recordId);
    }
  }

  lemma TextFacts(collate: TextOrder, a: string, b: string, c: string)
    requires TotalOrder(collate)
    ensures !collate(a, a) && !(collate(a, b) && collate(b, a))
    ensures collate(a, b) && collate(b, c) ==> collate(a, c)
    ensures !collate(a, b) && !collate(b, c) ==> !collate(a, c)
    ensures a == b || collate(a, b) || collate(b, a)
    ensures b == c || collate(b, c) || collate(c, b)
  {
    assert collate(a, b) && collate(b, a) ==> collate(a, a);
  }

  /** Sorting the whole log keeps each record's events together, in sequence order. */
  lemma RecordKeepsSequence(collate: TextOrder, events: seq<Event>, id: string)
    requires TotalOrder(collate)
    ensures OfRecord(id, Sort(EventOrder(collate), events)) == Sort(BySequence, OfRecord(id, events))
  {
    var mine := (e: Event) => e.recordId == id;
    EventOrderIsOrder(collate);
    FilterSort(EventOrder(collate), mine, events);
    FilterMembers(mine, events);
    SortAgrees(EventOrder(collate), BySequence, OfRecord(id, events));
  }

  lemma {:induction false} ReplayStarts(events: seq<Event>)
    ensures Replay(None, events).Some? <==> exists e :: e in events && e.action.Created?
  {
    if events != [] {
      var init, last := events[..|events| - 1], events[|events| - 1];
      assert events == init + [last];
      ReplayStarts(init);
    }
  }

  /** A record has a state exactly when it was created within the window. */
  lemma KnownExact(events: seq<Event>, cutoff: Option<int>, id: string)
    ensures StateAt(events, cutoff, id).Some? <==> id in KnownIds(events, cutoff)
  {
    HistoryMembers(events, cutoff, id);
    ReplayStarts(Sort(BySequence, OfRecord(id, Window(events, cutoff))));
  }

  lemma {:induction false} LiveOfMembers(working: map<string, Working>, order: seq<string>, rec: LiveRecord)
    requires forall id :: id in order ==> id in working
    ensures rec in LiveOf(working, order) <==> rec.recordId in order && LiveAs(Find(working, rec.recordId), rec)
  {
    if order != [] {
      var init, last := order[..|order| - 1], order[|order| - 1];
      assert order == init + [last];
      LiveOfMembers(working, init, rec);
    }
  }

  lemma {:induction false} LiveOfDistinct(working: map<string, Working>, order: seq<string>)
    requires Distinct(order) && forall id :: id in order ==> id in working
    ensures Distinct(LiveOf(working, order))
  {
    if order != [] {
      var init, last := order[..|order| - 1], order[|order| - 1];
      LiveOfDistinct(working, init);
      forall i | 0 <= i < |LiveOf(working, init)|
        ensures LiveOf(working, init)[i].recordId != last
      {
        LiveOfMembers(working, init, LiveOf(working, init)[i]);
      }
    }
  }

  ghost predicate NewestIn(newest: Option<int>, working: map<string, Working>, order: seq<string>)
    requires forall id :: id in order ==> id in working
  {
    match newest
    case None => order == []
    case Some(t) =>
      && (exists id :: id in order && working[id].lastEventAt == t)
      && (forall id :: id in order ==> working[id].lastEventAt <= t)
  }

  lemma {:induction false} NewestExact(working: map<string, Working>, order: seq<string>)
    requires forall id :: id in order ==> id in working
    ensures NewestIn(NewestOf(working, order), working, order)
  {
    if order != [] {
      var init, last := order[..|order| - 1], order[|order| - 1];
      assert order == init + [last];
      NewestExact(working, init);
      NewestNext(NewestOf(working, init), working, init, last);
    }
  }

  lemma NewestNext(newest: Option<int>, working: map<string, Working>, order: seq<string>, id: string)
    requires id in working && forall x :: x in order ==> x in working
    requires NewestIn(newest, working, order)
    ensures
      var at := working[id].lastEventAt;
      NewestIn(if newest.None? || at > newest.value then Some(at) else newest, working, order + [id])
  {
    if newest.Some? {
      var x :| x in order && working[x].lastEventAt == newest.value;
      assert x in order + [id];
    }
    assert id in order + [id];
  }

  lemma {:induction false} DistinctSize(order: seq<string>, ids: set<string>)
    requires Distinct(order) && forall id :: id in order <==> id in ids
    ensures |order| == |ids|
  {
    if order != [] {
      var init, last := order[..|order| - 1], order[|order| - 1];
      assert order == init + [last];
      DistinctSize(init, ids - {last});
    } else {
      assert ids == {};
    }
  }

  lemma FoldedState(collate: TextOrder, events: seq<Event>, cutoff: Option<int>, id: string)
    requires TotalOrder(collate)
    ensures
      var m := Steps(Sort(EventOrder(collate), Window(events, cutoff)));
      && Find(m.working, id) == StateAt(events, cutoff, id)
      && (id in m.order <==> id in KnownIds(events, cutoff))
  {
    StepsTrack(Sort(EventOrder(collate), Window(events, cutoff)), id);
    StepsHold(Sort(EventOrder(collate), Window(events, cutoff)));
    RecordKeepsSequence(collate, Window(events, cutoff), id);
    KnownExact(events, cutoff, id);
  }

  lemma SortedRecords(collate: TextOrder, working: map<string, Working>, order: seq<string>)
    requires TotalOrder(collate) && Distinct(order) && forall id :: id in order ==> id in working
    ensures
      var records := Sort(RecordOrder(collate), LiveOf(working, order));
      && Increasing(collate, records)
      && forall rec :: rec in records <==> rec.recordId in order && LiveAs(Find(working, rec.recordId), rec)
  {
    var records := Sort(RecordOrder(collate), LiveOf(working, order));
    EventOrderIsOrder(collate);
    SortSorts(RecordOrder(collate), LiveOf(working, order));
    SortMembers(RecordOrder(collate), LiveOf(working, order));
    LiveOfDistinct(working, order);
    SortDistinct(RecordOrder(collate), LiveOf(working, order));
    forall rec ensures rec in records <==> rec.recordId in order && LiveAs(Find(working, rec.recordId), rec) {
      LiveOfMembers(working, order, rec);
    }
    forall i, j | 0 <= i < j < |records|
      ensures collate(records[i].recordId, records[j].recordId)
    {
      assert records[i] in records && records[j] in records;
      assert !RecordOrder(collate)(records[j], records[i]);
      TextFacts(collate, records[i].recordId, records[j].recordId, records[i].recordId);
    }
  }

  lemma FoldedIsFold(collate: TextOrder, events: seq<Event>, cutoff: Option<int>, m: Memory, r: FoldResult)
    requires TotalOrder(collate) && m == Steps(Sort(EventOrder(collate), Window(events, cutoff))) && Holds(m)
    requires r.records == Sort(RecordOrder(collate), LiveOf(m.working, m.order))
    requires |LiveOf(m.working, m.order)| + r.deletedCount == |m.order|
    requires r.eventsApplied == |Sort(EventOrder(collate), Window(events, cutoff))|
    requires r.lastEventAt == NewestOf(m.working, m.order)
    ensures IsFold(r, collate, events, cutoff)
  {
    forall id
      ensures Find(m.working, id) == StateAt(events, cutoff, id)
      ensures id in m.order <==> id in KnownIds(events, cutoff)
    {
      FoldedState(collate, events, cutoff, id);
    }
    SortedRecords(collate, m.working, m.order);
    SortMembers(RecordOrder(collate), LiveOf(m.working, m.order));
    SortMembers(EventOrder(collate), Window(events, cutoff));
    DistinctSize(m.order, KnownIds(events, cutoff));
    NewestIsNewest(events, cutoff, m.working, m.order);
  }

  lemma NewestIsNewest(events: seq<Event>, cutoff: Option<int>, working: map<string, Working>, order: seq<string>)
    requires forall id :: Find(working, id) == StateAt(events, cutoff, id)
    requires forall id :: id in order <==> id in KnownIds(events, cutoff)
    requires forall id :: id in order ==> id in working
    ensures IsNewest(NewestOf(working, order), events, cutoff)
  {
    NewestExact(working, order);
    forall id | id in order
      ensures EndsAt(events, cutoff, id, working[id].lastEventAt)
    {
      assert Find(working, id) == StateAt(events, cutoff, id);
    }
    if order == [] {
      assert KnownIds(events, cutoff) == {};
    }
  }

  // ---- Laws of the replay ----

  /** The fold is determined: two results that satisfy the specification are the same. */
  lemma FoldIsUnique(r: FoldResult, s: FoldResult, collate: TextOrder, events: seq<Event>, cutoff: Option<int>)
    requires TotalOrder(collate) && IsFold(r, collate, events, cutoff) && IsFold(s, collate, events, cutoff)
    ensures r == s
  {
    forall rec ensures rec in r.records <==> rec in s.records {}
    SameRecords(collate, r.records, s.records);
    if r.lastEventAt.Some? && s.lastEventAt.Some? {
      var a :| a in KnownIds(events, cutoff) && EndsAt(events, cutoff, a, r.lastEventAt.value);
      var b :| b in KnownIds(events, cutoff) && EndsAt(events, cutoff, b, s.lastEventAt.value);
    }
  }

  lemma SameRecords(collate: TextOrder, a: seq<LiveRecord>, b: seq<LiveRecord>)
    requires
      TotalOrder(collate) && Increasing(collate, a) && Increasing(collate, b) && forall rec :: rec in a <==> rec in b
    ensures a == b
  {
    DistinctMultiset(a, b);
    SortedIsUnique(RecordOrder(collate), a, b);
  }

  ghost predicate UniqueEvents(events: seq<Event>) {
    forall a, b :: a in events && b in events && a != b && a.recordId == b.recordId ==> a.sequence != b.sequence
  }

  /** With one event per record and sequence number, the order of the log leaves no trace. */
  lemma StateForgetsOrder(a: seq<Event>, b: seq<Event>, cutoff: Option<int>, id: string)
    requires multiset(a) == multiset(b) && UniqueEvents(a)
    ensures StateAt(a, cutoff, id) == StateAt(b, cutoff, id)
  {
    var inWindow, mine := (e: Event) => InWindow(e, cutoff), (e: Event) => e.recordId == id;
    FilterPermutes(inWindow, a, b);
    FilterPermutes(mine, Window(a, cutoff), Window(b, cutoff));
    FilterMembers(inWindow, a);
    FilterMembers(mine, Window(a, cutoff));
    SortForgetsOrder(BySequence, OfRecord(id, Window(a, cutoff)), OfRecord(id, Window(b, cutoff)));
  }

  lemma WindowForgetsOrder(a: seq<Event>, b: seq<Event>, cutoff: Option<int>)
    requires multiset(a) == multiset(b)
    ensures KnownIds(a, cutoff) == KnownIds(b, cutoff) && |Window(a, cutoff)| == |Window(b, cutoff)|
  {
    forall e ensures e in a <==> e in b {
      assert e in multiset(a) <==> e in multiset(b);
    }
    FilterPermutes((e: Event) => InWindow(e, cutoff), a, b);
    assert |multiset(Window(a, cutoff))| == |multiset(Window(b, cutoff))|;
  }

  lemma FoldForgetsOrder(r: FoldResult, collate: TextOrder, a: seq<Event>, b: seq<Event>, cutoff: Option<int>)
    requires multiset(a) == multiset(b) && UniqueEvents(a) && IsFold(r, collate, a, cutoff)
    ensures IsFold(r, collate, b, cutoff)
  {
    forall id ensures StateAt(a, cutoff, id) == StateAt(b, cutoff, id) {
      StateForgetsOrder(a, b, cutoff, id);
    }
    WindowForgetsOrder(a, b, cutoff);
    FoldAgrees(r, collate, a, cutoff, b, cutoff);
  }

  /** The specification reads only the states, the known records and the size of the window. */
  lemma FoldAgrees(r: FoldResult, collate: TextOrder, a: seq<Event>, ca: Option<int>, b: seq<Event>, cb: Option<int>)
    requires IsFold(r, collate, a, ca) && KnownIds(a, ca) == KnownIds(b, cb) && |Window(a, ca)| == |Window(b, cb)|
    requires forall id :: StateAt(a, ca, id) == StateAt(b, cb, id)
    ensures IsFold(r, collate, b, cb)
  {
    forall rec: LiveRecord ensures LiveAs(StateAt(a, ca, rec.recordId), rec)
      <==> LiveAs(StateAt(b, cb, rec.recordId), rec) {
      assert StateAt(a, ca, rec.recordId) == StateAt(b, cb, rec.recordId);
    }
    forall id, t ensures EndsAt(a, ca, id, t) <==> EndsAt(b, cb, id, t) {
      assert StateAt(a, ca, id) == StateAt(b, cb, id);
    }
  }

  /** No cutoff is the same as a cutoff at or after the last event. */
  lemma NullCutoff(r: FoldResult, collate: TextOrder, events: seq<Event>, t: int)
    requires forall e :: e in events ==> e.at <= t
    ensures IsFold(r, collate, events, None) <==> IsFold(r, collate, events, Some(t))
  {
    FilterAgree((e: Event) => InWindow(e, None), (e: Event) => InWindow(e, Some(t)), events);
    assert Window(events, None) == Window(events, Some(t));
    assert KnownIds(events, None) == KnownIds(events, Some(t));
    if IsFold(r, collate, events, None) { FoldAgrees(r, collate, events, None, events, Some(t)); }
    if IsFold(r, collate, events, Some(t)) { FoldAgrees(r, collate, events, Some(t), events, None); }
  }

  /** Within a record, time does not run against the sequence. */
  ghost predicate TimesFollow(events: seq<Event>) {
    forall a, b :: a in events && b in events && a.recordId == b.recordId && a.sequence <= b.sequence ==> a.at <= b.at
  }

  /** The events after `from` up to `to`. */
  function Between(events: seq<Event>, from: int, to: Option<int>): seq<Event> {
    Filter((e: Event) => from < e.at && InWindow(e, to), events)
  }

  lemma {:induction false} ReplayAppends(current: Option<Working>, a: seq<Event>, b: seq<Event>)
    ensures Replay(current, a + b) == Replay(Replay(current, a), b)
  {
    if b == [] {
      assert a + b == a;
    } else {
      var init, last := b[..|b| - 1], b[|b| - 1];
      ReplayAppends(current, a, init);
      assert a + b == (a + init) + [last];
      ReplayLast(current, a + init, last);
    }
  }

  ghost predicate InTime(xs: seq<Event>) {
    forall i, j :: 0 <= i < j < |xs| ==> xs[i].at <= xs[j].at
  }

  /** No event after the instant stands before one at or before it. */
  ghost predicate CutsCleanly(xs: seq<Event>, from: int) {
    forall i, j :: 0 <= i < j < |xs| && from < xs[i].at ==> from < xs[j].at
  }

  /** A list that the instant cuts cleanly is its early part followed by its late part. */
  lemma {:induction false} SplitByTime(xs: seq<Event>, from: int)
    requires CutsCleanly(xs, from)
    ensures xs == Filter((e: Event) => e.at <= from, xs) + Filter((e: Event) => from < e.at, xs)
  {
    var early, late := (e: Event) => e.at <= from, (e: Event) => from < e.at;
    if xs != [] {
      var init, last := xs[..|xs| - 1], xs[|xs| - 1];
      assert xs == init + [last];
      SplitByTime(init, from);
      FilterLast(early, init, last);
      FilterLast(late, init, last);
      if last.at <= from {
        NoneLate(init, from);
        NothingAdded(Filter(early, init));
        NothingAdded(Filter(early, init) + [last]);
      } else {
        Regroup(Filter(early, init), Filter(late, init), [last]);
      }
    }
  }

  lemma NoneLate(xs: seq<Event>, from: int)
    requires forall i :: 0 <= i < |xs| ==> xs[i].at <= from
    ensures Filter((e: Event) => from < e.at, xs) == []
  {
    FilterSuffix((e: Event) => from < e.at, xs, |xs|);
  }

  lemma HistoryInTime(events: seq<Event>, cutoff: Option<int>, id: string)
    requires TimesFollow(events)
    ensures InTime(Sort(BySequence, OfRecord(id, Window(events, cutoff))))
  {
    var history := Sort(BySequence, OfRecord(id, Window(events, cutoff)));
    HistoryMembers(events, cutoff, id);
    SortSorts(BySequence, OfRecord(id, Window(events, cutoff)));
    forall i, j | 0 <= i < j < |history| ensures history[i].at <= history[j].at {
      assert history[i] in history && history[j] in history;
      assert !BySequence(history[j], history[i]);
    }
  }

  lemma EarlyPart(events: seq<Event>, from: int, to: Option<int>, id: string)
    requires to.None? || from <= to.value
    ensures
      Filter((e: Event) => e.at <= from, OfRecord(id, Window(events, to))) == OfRecord(id, Window(events, Some(from)))
  {
    var early, mine := (e: Event) => e.at <= from, (e: Event) => e.recordId == id;
    var both := (e: Event) => e.at <= from && e.recordId == id;
    FilterMembers((e: Event) => InWindow(e, to), events);
    FilterTwice(mine, early, both, Window(events, to));
    FilterTwice((e: Event) => InWindow(e, to), both, both, events);
    FilterTwice((e: Event) => InWindow(e, Some(from)), mine, both, events);
  }

  lemma LatePart(events: seq<Event>, from: int, to: Option<int>, id: string)
    ensures
      Filter((e: Event) => from < e.at, OfRecord(id, Window(events, to))) == OfRecord(id, Between(events, from, to))
  {
    var late, mine := (e: Event) => from < e.at, (e: Event) => e.recordId == id;
    var both := (e: Event) => from < e.at && e.recordId == id;
    var all := (e: Event) => from < e.at && InWindow(e, to) && e.recordId == id;
    FilterTwice(mine, late, both, Window(events, to));
    FilterTwice((e: Event) => InWindow(e, to), both, all, events);
    FilterTwice((e: Event) => from < e.at && InWindow(e, to), mine, all, events);
  }

  /** The record's events up to the cutoff, in the order in which they are replayed. */
  function HistoryOf(events: seq<Event>, cutoff: Option<int>, id: string): seq<Event> {
    Sort(BySequence, OfRecord(id, Window(events, cutoff)))
  }

  /** The record's events after `from`, in the order in which they are replayed. */
  function LaterOf(events: seq<Event>, from: int, to: Option<int>, id: string): seq<Event> {
    Sort(BySequence, OfRecord(id, Between(events, from, to)))
  }

  /**
   * Replay composes: go on from the state at `from` with the events after it, when none of them stands
   * before an event of the record at or before `from`.
   */
  lemma ReplayComposes(events: seq<Event>, from: int, to: Option<int>, id: string)
    requires CutsCleanly(HistoryOf(events, to, id), from) && (to.None? || from <= to.value)
    ensures
      StateAt(events, to, id) == Replay(StateAt(events, Some(from), id), LaterOf(events, from, to, id))
  {
    var history := HistoryOf(events, to, id);
    SplitByTime(history, from);
    PartsOfHistory(events, from, to, id);
    ReplayAppends(None, Filter((e: Event) => e.at <= from, history), Filter((e: Event) => from < e.at, history));
  }

  lemma PartsOfHistory(events: seq<Event>, from: int, to: Option<int>, id: string)
    requires to.None? || from <= to.value
    ensures Filter((e: Event) => e.at <= from, HistoryOf(events, to, id)) == HistoryOf(events, Some(from), id)
    ensures Filter((e: Event) => from < e.at, HistoryOf(events, to, id)) == LaterOf(events, from, to, id)
  {
    var mine := OfRecord(id, Window(events, to));
    FilterSort(BySequence, (e: Event) => e.at <= from, mine);
    FilterSort(BySequence, (e: Event) => from < e.at, mine);
    EarlyPart(events, from, to, id);
    LatePart(events, from, to, id);
  }

  /** Everything but the data. */
  predicate SameStamp(a: Option<Working>, b: Option<Working>) {
    a.Some? && b.Some? && a.value.(data := b.value.data) == b.value
  }

  /** An event that leaves a state stamps it. */
  lemma AppliedStamp(a: Option<Working>, b: Option<Working>, e: Event)
    requires Apply(a, e).Some? && Apply(b, e).Some?
    ensures SameStamp(Apply(a, e), Apply(b, e)) && Apply(a, e).value.lastEventAt == e.at
  {}

  lemma {:induction false} KnownStays(current: Option<Working>, events: seq<Event>)
    requires current.Some?
    ensures Replay(current, events).Some?
  {
    if events != [] { KnownStays(current, events[..|events| - 1]); }
  }

  /** What is known from a part of a history is known from the whole. */
  lemma KnownFromPart(p: Event -> bool, history: seq<Event>)
    requires Replay(None, Filter(p, history)).Some?
    ensures Replay(None, history).Some?
  {
    ReplayStarts(Filter(p, history));
    ReplayStarts(history);
    FilterMembers(p, history);
  }

  lemma StampsOfParts(history: seq<Event>, from: int)
    requires Replay(None, Filter((e: Event) => e.at <= from, history)).Some?
    ensures
      var early, late := Filter((e: Event) => e.at <= from, history), Filter((e: Event) => from < e.at, history);
      history != [] &&
      (SameStamp(Replay(None, history), Replay(Replay(None, early), late))
       <==> late == [] || from < history[|history| - 1].at)
  {
    var before, after := (e: Event) => e.at <= from, (e: Event) => from < e.at;
    var early, late := Filter(before, history), Filter(after, history);
    var init, last := history[..|history| - 1], history[|history| - 1];
    assert history == init + [last];
    KnownFromPart(before, history);
    KnownStays(Replay(None, early), late);
    FilterLast(after, init, last);
    if from < last.at {
      ReplayLast(Replay(None, early), Filter(after, init), last);
      AppliedStamp(Replay(None, init), Replay(Replay(None, early), Filter(after, init)), last);
    } else if late == [] {
      AllEarly(history, from);
    } else {
      LastIsLate(history, from);
      AppliedStamp(Replay(None, init), Replay(None, init), last);
      var k := |late| - 1;
      AppliedStamp(Replay(Replay(None, early), late[..k]), Replay(Replay(None, early), late[..k]), late[k]);
    }
  }

  lemma AllEarly(history: seq<Event>, from: int)
    requires Filter((e: Event) => from < e.at, history) == []
    ensures Filter((e: Event) => e.at <= from, history) == history
  {
    FilterMembers((e: Event) => from < e.at, history);
    forall i | 0 <= i < |history| ensures history[i].at <= from {
      assert history[i] !in Filter((e: Event) => from < e.at, history);
    }
    FilterSuffix((e: Event) => e.at <= from, history, 0);
    assert history[0..] == history;
  }

  lemma LastIsLate(history: seq<Event>, from: int)
    ensures
      var late := Filter((e: Event) => from < e.at, history);
      late != [] ==> from < late[|late| - 1].at
  {
    var late := Filter((e: Event) => from < e.at, history);
    FilterMembers((e: Event) => from < e.at, history);
    if late != [] { assert late[|late| - 1] in late; }
  }

  /**
   * For a record known at `from`: going on from its state there gives, but for the data, its state at the
   * end exactly when it has no later event or its last one in sequence is a later one.
   */
  lemma StampsComposeExact(events: seq<Event>, from: int, to: Option<int>, id: string)
    requires (to.None? || from <= to.value) && StateAt(events, Some(from), id).Some?
    ensures
      var history, later := HistoryOf(events, to, id), LaterOf(events, from, to, id);
      history != [] &&
      (SameStamp(StateAt(events, to, id), Replay(StateAt(events, Some(from), id), later))
       <==> later == [] || from < history[|history| - 1].at)
  {
    PartsOfHistory(events, from, to, id);
    StampsOfParts(HistoryOf(events, to, id), from);
  }

  /** Times that follow the sequence are cut cleanly at every instant. */
  lemma TimesFollowCutsCleanly(events: seq<Event>, from: int, cutoff: Option<int>, id: string)
    requires TimesFollow(events)
    ensures CutsCleanly(HistoryOf(events, cutoff, id), from)
  {
    HistoryInTime(events, cutoff, id);
  }

  /** Otherwise it need not: a late stamp on an early event is replayed too late. */
  lemma BackwardTimesDoNotCompose(x: Document, y: Document, z: Document)
    ensures
      var a, b, c := Event("r", 1, Created, Some(x), 0), Event("r", 2, Updated, Some(y), 5),
        Event("r", 3, Updated, Some(z), 3);
      && StateAt([a, b, c], Some(5), "r") == Some(Working(x + y + z, true, 3, 3))
      && Replay(StateAt([a, b, c], Some(3), "r"), Sort(BySequence, OfRecord("r", Between([a, b, c], 3, Some(5)))))
         == Some(Working(x + z + y, true, 2, 5))
  {
    var a, b, c := Event("r", 1, Created, Some(x), 0), Event("r", 2, Updated, Some(y), 5),
      Event("r", 3, Updated, Some(z), 3);
    AllInWindow([a, b, c], 5);
    OwnHistory([a, b, c], "r");
    ReplayThree(a, b, c);
    ThreeEarly(a, b, c);
    OwnHistory([a, c], "r");
    OwnHistory([b], "r");
    ReplayTwo(a, c);
    ReplayLast(StateAt([a, b, c], Some(3), "r"), [], b);
    assert [] + [b] == [b];
  }

  lemma AllInWindow(events: seq<Event>, t: int)
    requires forall i :: 0 <= i < |events| ==> events[i].at <= t
    ensures Window(events, Some(t)) == events
  {
    FilterSuffix((e: Event) => InWindow(e, Some(t)), events, 0);
    assert events[0..] == events;
  }

  lemma OwnHistory(events: seq<Event>, id: string)
    requires forall i :: 0 <= i < |events| ==> events[i].recordId == id
    requires Sorted(BySequence, events)
    ensures Sort(BySequence, OfRecord(id, events)) == events
  {
    FilterSuffix((e: Event) => e.recordId == id, events, 0);
    assert events[0..] == events;
    SortOfSorted(BySequence, events);
  }

  lemma ReplayTwo(a: Event, b: Event)
    ensures Replay(None, [a, b]) == Apply(Apply(None, a), b)
  {
    ReplayLast(None, [a], b);
    ReplayLast(None, [], a);
    assert [] + [a] == [a] && [a] + [b] == [a, b];
  }

  lemma ReplayThree(a: Event, b: Event, c: Event)
    ensures Replay(None, [a, b, c]) == Apply(Apply(Apply(None, a), b), c)
  {
    ReplayLast(None, [a, b], c);
    ReplayTwo(a, b);
    assert [a, b] + [c] == [a, b, c];
  }

  lemma ThreeEarly(a: Event, b: Event, c: Event)
    requires a.at <= 3 && c.at <= 3 && 3 < b.at <= 5
    ensures Window([a, b, c], Some(3)) == [a, c] && Between([a, b, c], 3, Some(5)) == [b]
  {
    ThreeFiltered((e: Event) => InWindow(e, Some(3)), a, b, c);
    ThreeFiltered((e: Event) => 3 < e.at && InWindow(e, Some(5)), a, b, c);
  }

  lemma ThreeFiltered(p: Event -> bool, a: Event, b: Event, c: Event)
    ensures Filter(p, [a, b, c]) == (if p(a) then [a] else []) + (if p(b) then [b] else []) + (if p(c) then [c] else [])
  {
    assert [a, b, c][1..] == [b, c] && [b, c][1..] == [c] && [c][1..] == [];
    FilterHead(p, c, []);
    FilterHead(p, b, [c]);
    FilterHead(p, a, [b, c]);
    assert [a] + [b, c] == [a, b, c] && [b] + [c] == [b, c] && [c] + [] == [c];
  }

  // ---- The last time ----

  /** A known record's last time is that of the last event of its history. */
  lemma {:induction false} ReplayEndsAtLast(events: seq<Event>)
    requires Replay(None, events).Some?
    ensures events != [] && Replay(None, events).value.lastEventAt == events[|events| - 1].at
  {
    if events != [] && Replay(None, events[..|events| - 1]).Some? {
      ReplayEndsAtLast(events[..|events| - 1]);
    }
  }

  /** The record's last event in sequence order, the last in the log on ties, is at `t`. */
  predicate EndsHistory(events: seq<Event>, cutoff: Option<int>, id: string, t: int) {
    var history := HistoryOf(events, cutoff, id);
    history != [] && history[|history| - 1].at == t
  }

  lemma EndsAtExact(events: seq<Event>, cutoff: Option<int>, id: string, t: int)
    requires id in KnownIds(events, cutoff)
    ensures EndsAt(events, cutoff, id, t) <==> EndsHistory(events, cutoff, id, t)
  {
    KnownExact(events, cutoff, id);
    ReplayEndsAtLast(HistoryOf(events, cutoff, id));
  }

  /** No event in the window on a known record is later than `m`. */
  ghost predicate NoneLater(events: seq<Event>, cutoff: Option<int>, m: int) {
    forall e :: e in events && InWindow(e, cutoff) && e.recordId in KnownIds(events, cutoff) ==> e.at <= m
  }

  /**
   * The time reported as that of the newest event is that time exactly when some known record's last
   * event in sequence order has it. In particular with `m` the time of the newest event.
   */
  lemma LastEventExact(r: FoldResult, collate: TextOrder, events: seq<Event>, cutoff: Option<int>, m: int)
    requires IsFold(r, collate, events, cutoff) && NoneLater(events, cutoff, m)
    ensures
      r.lastEventAt == Some(m) <==> exists id :: id in KnownIds(events, cutoff) && EndsHistory(events, cutoff, id, m)
  {
    forall id, t | id in KnownIds(events, cutoff)
      ensures EndsAt(events, cutoff, id, t) <==> EndsHistory(events, cutoff, id, t)
      ensures EndsAt(events, cutoff, id, t) ==> t <= m
    {
      EndsAtExact(events, cutoff, id, t);
      if EndsHistory(events, cutoff, id, t) { EndIsInWindow(events, cutoff, id, t); }
    }
  }

  lemma EndIsInWindow(events: seq<Event>, cutoff: Option<int>, id: string, t: int)
    requires EndsHistory(events, cutoff, id, t)
    ensures exists e :: e in events && InWindow(e, cutoff) && e.recordId == id && e.at == t
  {
    var history := HistoryOf(events, cutoff, id);
    HistoryMembers(events, cutoff, id);
    assert history[|history| - 1] in history;
  }

  /** A later event with an earlier time hides the newest one. */
  lemma LastEventIsNotNewest(r: FoldResult, collate: TextOrder, x: Document, y: Document, cutoff: Option<int>)
    requires cutoff.None? || cutoff.value >= 5
    requires IsFold(r, collate, [Event("r", 1, Created, Some(x), 5), Event("r", 2, Updated, Some(y), 3)], cutoff)
    ensures r.lastEventAt == Some(3)
  {
    var a, b := Event("r", 1, Created, Some(x), 5), Event("r", 2, Updated, Some(y), 3);
    var events := [a, b];
    FilterSuffix((e: Event) => InWindow(e, cutoff), events, 0);
    assert events[0..] == events;
    OwnHistory(events, "r");
    assert a in events && b in events && a.recordId in KnownIds(events, cutoff);
    forall id, t | id in KnownIds(events, cutoff) && EndsAt(events, cutoff, id, t)
      ensures t == 3
    {
      EndsAtExact(events, cutoff, id, t);
    }
  }

  /** When times follow the sequence, the reported time is that of the newest event. */
  lemma LastEventIsNewest(r: FoldResult, collate: TextOrder, events: seq<Event>, cutoff: Option<int>)
    requires IsFold(r, collate, events, cutoff) && TimesFollow(events) && r.lastEventAt.Some?
    ensures NoneLater(events, cutoff, r.lastEventAt.value)
    ensures
      exists e :: e in events && InWindow(e, cutoff) && e.recordId in KnownIds(events, cutoff)
        && e.at == r.lastEventAt.value
  {
    forall e | e in events && InWindow(e, cutoff) && e.recordId in KnownIds(events, cutoff)
      ensures e.at <= r.lastEventAt.value
    {
      RecordEnds(events, cutoff, e.recordId);
      assert EndsAt(events, cutoff, e.recordId, StateAt(events, cutoff, e.recordId).value.lastEventAt);
    }
    var id :| id in KnownIds(events, cutoff) && EndsAt(events, cutoff, id, r.lastEventAt.value);
    RecordEnds(events, cutoff, id);
  }

  lemma HistoryMembers(events: seq<Event>, cutoff: Option<int>, id: string)
    ensures
      forall e ::
        e in Sort(BySequence, OfRecord(id, Window(events, cutoff)))
        <==> e in events && InWindow(e, cutoff) && e.recordId == id
  {
    FilterMembers((e: Event) => InWindow(e, cutoff), events);
    FilterMembers((e: Event) => e.recordId == id, Window(events, cutoff));
    SortMembers(BySequence, OfRecord(id, Window(events, cutoff)));
  }

  lemma LastIsLatest(xs: seq<Event>)
    requires InTime(xs) && xs != []
    ensures xs[|xs| - 1] in xs && forall e :: e in xs ==> e.at <= xs[|xs| - 1].at
  {}

  lemma RecordEnds(events: seq<Event>, cutoff: Option<int>, id: string)
    requires TimesFollow(events) && id in KnownIds(events, cutoff)
    ensures StateAt(events, cutoff, id).Some?
    ensures
      forall e ::
        e in events && InWindow(e, cutoff) && e.recordId == id
        ==> e.at <= StateAt(events, cutoff, id).value.lastEventAt
    ensures
      exists e ::
        e in events && InWindow(e, cutoff) && e.recordId == id
        && e.at == StateAt(events, cutoff, id).value.lastEventAt
  {
    KnownExact(events, cutoff, id);
    var history := Sort(BySequence, OfRecord(id, Window(events, cutoff)));
    HistoryInTime(events, cutoff, id);
    LastIsLatest(history);
    HistoryMembers(events, cutoff, id);
  }

  // ---- The state of a record, read off its history ----

  /** An event that sets the data anew. */
  predicate SetsData(e: Event) {
    e.action.Created? || (e.action.Restored? && e.data.Some?)
  }

  ghost predicate IsBase(history: seq<Event>, b: nat) {
    b < |history| && SetsData(history[b]) && forall j :: b < j < |history| ==> !SetsData(history[j])
  }

  predicate Writes(e: Event, key: string) {
    e.action.Updated? && e.data.Some? && key in e.data.value
  }

  predicate Given(e: Event, key: string, value: Json) {
    e.data.Some? && key in e.data.value && e.data.value[key] == value
  }

  ghost predicate LastWriter(history: seq<Event>, b: nat, key: string, j: nat) {
    b < j < |history| && Writes(history[j], key) && forall m :: j < m < |history| ==> !Writes(history[m], key)
  }

  ghost predicate NoWriter(history: seq<Event>, b: nat, key: string) {
    forall j :: b < j < |history| ==> !Writes(history[j], key)
  }

  predicate Shown(data: Document, key: string, value: Json) {
    key in data && data[key] == value
  }

  /** A key has what the last update that names it after event `b` gave it, else what `b` gave it. */
  ghost predicate KeyFrom(history: seq<Event>, b: nat, data: Document, key: string)
    requires b < |history|
  {
    && (NoWriter(history, b, key) ==> forall v :: Shown(data, key, v) <==> Given(history[b], key, v))
    && forall j: nat :: LastWriter(history, b, key, j) ==>
         forall v :: Shown(data, key, v) <==> Given(history[j], key, v)
  }

  ghost predicate DataFrom(history: seq<Event>, b: nat, data: Document)
    requires b < |history|
  {
    forall key :: KeyFrom(history, b, data, key)
  }

  lemma SetAnew(history: seq<Event>, e: Event, data: Document)
    requires data == if e.data.Some? then e.data.value else map[]
    ensures DataFrom(history + [e], |history|, data)
  {
    forall key ensures KeyFrom(history + [e], |history|, data, key) {}
  }

  lemma LastWriterBefore(history: seq<Event>, e: Event, b: nat, key: string, j: nat)
    requires b < |history| && !Writes(e, key)
    ensures LastWriter(history + [e], b, key, j) <==> LastWriter(history, b, key, j)
    ensures NoWriter(history + [e], b, key) <==> NoWriter(history, b, key)
  {
    var more := history + [e];
    assert forall m :: 0 <= m < |history| ==> more[m] == history[m];
  }

  lemma KeyUntouched(history: seq<Event>, e: Event, b: nat, was: Document, now: Document, key: string)
    requires b < |history| && !Writes(e, key) && KeyFrom(history, b, was, key)
    requires key in was <==> key in now
    requires key in was ==> was[key] == now[key]
    ensures KeyFrom(history + [e], b, now, key)
  {
    var more := history + [e];
    forall v ensures Shown(now, key, v) <==> Shown(was, key, v) {}
    LastWriterBefore(history, e, b, key, 0);
    forall j: nat | LastWriter(more, b, key, j)
      ensures forall v :: Shown(now, key, v) <==> Given(more[j], key, v)
    {
      LastWriterBefore(history, e, b, key, j);
    }
  }

  lemma KeyWritten(history: seq<Event>, e: Event, b: nat, data: Document, key: string)
    requires b < |history| && Writes(e, key) && Shown(data, key, e.data.value[key])
    ensures KeyFrom(history + [e], b, data, key)
  {
    var more := history + [e];
    assert more[|history|] == e;
    forall j: nat | LastWriter(more, b, key, j) ensures j == |history| {}
  }

  lemma OneMoreUpdate(history: seq<Event>, e: Event, b: nat, was: Document, now: Document)
    requires b < |history| && DataFrom(history, b, was) && e.action.Updated?
    requires now == was + if e.data.Some? then e.data.value else map[]
    ensures DataFrom(history + [e], b, now)
  {
    forall key ensures KeyFrom(history + [e], b, now, key) {
      assert KeyFrom(history, b, was, key);
      if Writes(e, key) { KeyWritten(history, e, b, now, key); } else { KeyUntouched(history, e, b, was, now, key); }
    }
  }

  lemma OneMoreOther(history: seq<Event>, e: Event, b: nat, data: Document)
    requires b < |history| && DataFrom(history, b, data) && !e.action.Updated?
    ensures DataFrom(history + [e], b, data)
  {
    forall key ensures KeyFrom(history + [e], b, data, key) {
      assert KeyFrom(history, b, data, key);
      KeyUntouched(history, e, b, data, data, key);
    }
  }

  lemma BaseStays(history: seq<Event>, e: Event, b: nat)
    requires IsBase(history, b) && !SetsData(e)
    ensures IsBase(history + [e], b)
  {
    var more := history + [e];
    assert forall m :: 0 <= m < |history| ==> more[m] == history[m];
  }

  /** What the history says: base, data, and the last event's mark. */
  ghost predicate ReadsAs(history: seq<Event>, b: nat, w: Working) {
    && IsBase(history, b) && DataFrom(history, b, w.data)
    && var last := history[|history| - 1];
       w.live == (last.action != Deleted) && w.lastSequence == last.sequence && w.lastEventAt == last.at
  }

  lemma {:induction false} ReplayReads(history: seq<Event>) returns (b: nat)
    requires Replay(None, history).Some?
    ensures ReadsAs(history, b, Replay(None, history).value)
  {
    var init, last := history[..|history| - 1], history[|history| - 1];
    assert history == init + [last];
    ReplayLast(None, init, last);
    if SetsData(last) {
      b := |init|;
      SetAnew(init, last, Replay(None, history).value.data);
    } else {
      b := ReplayReads(init);
      BaseStays(init, last, b);
      var was, now := Replay(None, init).value.data, Replay(None, history).value.data;
      if last.action.Updated? { OneMoreUpdate(init, last, b, was, now); } else { OneMoreOther(init, last, b, was); }
    }
  }

  lemma DataIsOne(history: seq<Event>, b: nat, d: Document, e: Document)
    requires b < |history| && DataFrom(history, b, d) && DataFrom(history, b, e)
    ensures d == e
  {
    forall key ensures (key in d <==> key in e) && (key in d ==> d[key] == e[key]) {
      assert KeyFrom(history, b, d, key) && KeyFrom(history, b, e, key);
      KeyIsOne(history, b, d, e, key);
    }
  }

  lemma KeyIsOne(history: seq<Event>, b: nat, d: Document, e: Document, key: string)
    requires b < |history| && KeyFrom(history, b, d, key) && KeyFrom(history, b, e, key)
    ensures (key in d <==> key in e) && (key in d ==> d[key] == e[key])
  {
    var source := WriterOf(history, b, key);
    assert forall v :: Shown(d, key, v) <==> Given(history[source], key, v);
    assert forall v :: Shown(e, key, v) <==> Given(history[source], key, v);
    if key in d { assert Shown(d, key, d[key]); assert Shown(e, key, d[key]); }
    if key in e { assert Shown(e, key, e[key]); assert Shown(d, key, e[key]); }
  }

  /** The event a key's value comes from. */
  lemma WriterOf(history: seq<Event>, b: nat, key: string) returns (j: nat)
    requires b < |history|
    ensures b <= j < |history|
    ensures if j == b then NoWriter(history, b, key) else LastWriter(history, b, key, j)
    decreases |history|
  {
    j := |history| - 1;
    while j > b && !Writes(history[j], key)
      invariant b <= j < |history| && forall m :: j < m < |history| ==> !Writes(history[m], key)
    {
      j := j - 1;
    }
  }

  /**
   * The folded log holds a record exactly when its history has a creation and does not end in a deletion;
   * its data is what the last creation or data-carrying restoration gave, overlaid by the updates after it.
   */
  lemma RecordsExact(r: FoldResult, collate: TextOrder, events: seq<Event>, cutoff: Option<int>, rec: LiveRecord)
    requires IsFold(r, collate, events, cutoff)
    ensures
      var history := HistoryOf(events, cutoff, rec.recordId);
      rec in r.records <==>
        && (exists e :: e in history && e.action.Created?) && history[|history| - 1].action != Deleted
        && rec.lastSequence == history[|history| - 1].sequence && rec.lastEventAt == history[|history| - 1].at
        && exists b :: IsBase(history, b) && DataFrom(history, b, rec.data)
  {
    var history := HistoryOf(events, cutoff, rec.recordId);
    ReplayStarts(history);
    if Replay(None, history).Some? {
      var b := ReplayReads(history);
      var w := Replay(None, history).value;
      forall c: nat | IsBase(history, c) && DataFrom(history, c, rec.data) ensures rec.data == w.data {
        assert b == c;
        DataIsOne(history, b, rec.data, w.data);
      }
      assert LiveAs(StateAt(events, cutoff, rec.recordId), rec) <==>
        w.live && rec.data == w.data && rec.lastSequence == w.lastSequence && rec.lastEventAt == w.lastEventAt;
    } else {
      assert !LiveAs(StateAt(events, cutoff, rec.recordId), rec);
    }
  }

  /** Some record of this name is held exactly when its history has a creation and does not end in a deletion. */
  lemma HeldExact(r: FoldResult, collate: TextOrder, events: seq<Event>, cutoff: Option<int>, id: string)
    requires IsFold(r, collate, events, cutoff)
    ensures
      var history := HistoryOf(events, cutoff, id);
      (exists rec :: rec in r.records && rec.recordId == id)
      <==> (exists e :: e in history && e.action.Created?) && history[|history| - 1].action != Deleted
  {
    var history := HistoryOf(events, cutoff, id);
    ReplayStarts(history);
    if Replay(None, history).Some? {
      var b := ReplayReads(history);
      var w := Replay(None, history).value;
      var rec := LiveRecord(id, w.data, w.lastSequence, w.lastEventAt);
      assert LiveAs(StateAt(events, cutoff, id), rec) <==> w.live;
    }
    if rec :| rec in r.records && rec.recordId == id {
      assert LiveAs(StateAt(events, cutoff, rec.recordId), rec);
    }
  }

  // ---- Restoring ----

  /** A database of named schemas, each with one table keyed by record. */
  class Sandbox {
    var schemas: map<string, map<string, LiveRecord>>

    constructor ()
      ensures schemas == map[]
    {
      schemas := map[];
    }

    /**
     * Drop the schema, create it anew and insert every live record; a key that is already there
     * would roll everything back. There never is one: the restore always succeeds and leaves exactly the live
     * records, and no other schema changes.
     */
    method RestoreToSandbox(collate: TextOrder, schema: string, events: seq<Event>, cutoff: Option<int>)
      returns (ok: bool, restored: nat, folded: FoldResult)
      requires TotalOrder(collate)
      modifies this
      ensures ok && IsFold(folded, collate, events, cutoff) && restored == |folded.records|
      ensures schema in schemas && schemas == old(schemas)[schema := schemas[schema]]
      ensures |schemas[schema]| == restored && HoldsLive(schemas[schema], events, cutoff)
    {
      folded := FoldEventsAsOf(collate, events, cutoff);
      var table;
      ok, table := InsertAll(collate, folded.records);
      TableHasLive(collate, folded, events, cutoff, table);
      if ok { schemas := schemas[schema := table]; }
      restored := |folded.records|;
    }
  }

  /** One INSERT per record, in order; it fails on a key that is already there. */
  method InsertAll(collate: TextOrder, records: seq<LiveRecord>) returns (ok: bool, table: map<string, LiveRecord>)
    requires TotalOrder(collate) && Increasing(collate, records)
    ensures ok && Loaded(table, records)
  {
    table := map[];
    ok := true;
    var i := 0;
    while i < |records|
      invariant 0 <= i <= |records|
      invariant ok && Loaded(table, records[..i])
    {
      var rec := records[i];
      IncreasingIsFresh(collate, records, i, table);
      LoadedNext(table, records[..i], rec);
      ok := ok && rec.recordId !in table;
      table := table[rec.recordId := rec];
      assert records[..i + 1] == records[..i] + [rec];
      i := i + 1;
    }
    assert records[..i] == records;
  }

  predicate LiveAt(events: seq<Event>, cutoff: Option<int>, id: string) {
    var state := StateAt(events, cutoff, id);
    state.Some? && state.value.live
  }

  /** Each record sits under its own key, and every record so far is there. */
  ghost predicate Loaded(table: map<string, LiveRecord>, records: seq<LiveRecord>) {
    && |table| == |records|
    && (forall id :: id in table ==> table[id].recordId == id && table[id] in records)
    && (forall rec :: rec in records ==> rec.recordId in table)
  }

  lemma IncreasingIsFresh(collate: TextOrder, records: seq<LiveRecord>, i: nat, table: map<string, LiveRecord>)
    requires TotalOrder(collate) && Increasing(collate, records) && i < |records| && Loaded(table, records[..i])
    ensures records[i].recordId !in table
  {
    forall j | 0 <= j < i ensures records[j].recordId != records[i].recordId {
      TextFacts(collate, records[j].recordId, records[i].recordId, records[j].recordId);
    }
  }

  lemma LoadedNext(table: map<string, LiveRecord>, records: seq<LiveRecord>, rec: LiveRecord)
    requires Loaded(table, records) && rec.recordId !in table
    ensures Loaded(table[rec.recordId := rec], records + [rec])
  {}

  /** The table holds exactly the live records, each in its state at the cutoff. */
  ghost predicate HoldsLive(table: map<string, LiveRecord>, events: seq<Event>, cutoff: Option<int>) {
    && (forall id :: id in table <==> LiveAt(events, cutoff, id))
    && (forall id :: id in table ==> table[id].recordId == id && LiveAs(StateAt(events, cutoff, id), table[id]))
  }

  /** A record is restored exactly when its history has a creation and does not end in a deletion. */
  lemma LiveExact(events: seq<Event>, cutoff: Option<int>, id: string)
    ensures
      var history := HistoryOf(events, cutoff, id);
      LiveAt(events, cutoff, id) <==>
        (exists e :: e in history && e.action.Created?) && history[|history| - 1].action != Deleted
  {
    var history := HistoryOf(events, cutoff, id);
    ReplayStarts(history);
    if Replay(None, history).Some? { var b := ReplayReads(history); }
  }

  lemma TableHasLive(
      collate: TextOrder, r: FoldResult, events: seq<Event>, cutoff: Option<int>, table: map<string, LiveRecord>)
    requires IsFold(r, collate, events, cutoff) && Loaded(table, r.records)
    ensures HoldsLive(table, events, cutoff)
  {
    forall id ensures id in table <==> LiveAt(events, cutoff, id) {
      if LiveAt(events, cutoff, id) {
        var state := StateAt(events, cutoff, id).value;
        var rec := LiveRecord(id, state.data, state.lastSequence, state.lastEventAt);
        assert LiveAs(StateAt(events, cutoff, rec.recordId), rec);
      }
    }
  }
}
