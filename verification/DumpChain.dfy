/**
 * Daily dumps kept as a chain: a full dump, then one patch per day against the day before. Days are
 * integers; `diff` and `patch` are functions related by one law.
 */
module DumpChain {
  import opened Prelude
  import opened Sorting
  import opened Filters

  datatype Kind = Full | Patch

  datatype File<T> = File(date: int, kind: Kind, content: T)

  datatype Tools<!T> = Tools(diff: (T, T) -> T, apply: (T, T) -> T)

  /** A patch made from two texts turns the first into the second. */
  ghost predicate Exact<T(!new)>(tools: Tools<T>) {
    forall o, n :: tools.apply(o, tools.diff(o, n)) == n
  }

  datatype PlanError = OutOfRange | NoFullBackup

  datatype DumpError = DumpFailed | DiffFailed | PriorLost(error: PlanError)

  datatype Plan = Plan(baseIndex: nat, patchIndices: seq<nat>)

  datatype Written = Written(date: int, kind: Kind, priorDate: Option<int>)

  predicate ByDate<T>(a: File<T>, b: File<T>) {
    a.date < b.date
  }

  function DateOrder<T>(): (File<T>, File<T>) -> bool {
    (a: File<T>, b: File<T>) => ByDate(a, b)
  }

  /** The entries of a directory, oldest first. */
  function Listing<T>(files: seq<File<T>>): seq<File<T>> {
    Sort(DateOrder(), files)
  }

  // ---- Reconstruction ----

  function Upwards(from: nat, to: nat): seq<nat>
    requires from <= to
  {
    seq(to - from, i requires 0 <= i < to - from => from + i)
  }

  ghost predicate LatestFull<T>(entries: seq<File<T>>, base: nat, target: nat) {
    && base <= target < |entries| && entries[base].kind == Full
    && forall i :: base < i <= target ==> entries[i].kind == Patch
  }

  method PlanReconstruction<T>(entries: seq<File<T>>, target: int) returns (r: Result<Plan, PlanError>)
    ensures r == Err(OutOfRange) <==> !(0 <= target < |entries|)
    ensures
      r == Err(NoFullBackup) <==> 0 <= target < |entries| && forall i :: 0 <= i <= target ==> entries[i].kind == Patch
    ensures r.Ok? ==>
      LatestFull(entries, r.value.baseIndex, target)
        && r.value.patchIndices == Upwards(r.value.baseIndex + 1, target + 1)
  {
    if target < 0 || target >= |entries| {
      return Err(OutOfRange);
    }
    var baseIndex := -1;
    var i := target;
    while i >= 0 && baseIndex == -1
      invariant -1 <= i <= target
      invariant if baseIndex == -1 then forall j :: i < j <= target ==> entries[j].kind == Patch
                else baseIndex >= 0 && LatestFull(entries, baseIndex, target)
      decreases i + 1
    {
      if entries[i].kind == Full { baseIndex := i; }
      i := i - 1;
    }
    if baseIndex == -1 {
      return Err(NoFullBackup);
    }
    var patchIndices: seq<nat> := [];
    var k := baseIndex + 1;
    while k <= target
      invariant baseIndex + 1 <= k <= target + 1
      invariant patchIndices == Upwards(baseIndex + 1, k)
    {
      patchIndices := patchIndices + [k];
      k := k + 1;
    }
    return Ok(Plan(baseIndex, patchIndices));
  }

  /** What an entry stands for: its own text if it is full, else its patch applied to the entry before. */
  function TextOf<T>(tools: Tools<T>, entries: seq<File<T>>, i: nat): Option<T>
    requires i < |entries|
  {
    if entries[i].kind == Full then Some(entries[i].content)
    else if i == 0 then None
    else
      match TextOf(tools, entries, i - 1)
      case None => None
      case Some(before) => Some(tools.apply(before, entries[i].content))
  }

  method ReconstructContent<T>(tools: Tools<T>, entries: seq<File<T>>, target: int) returns (r: Result<T, PlanError>)
    ensures !(0 <= target < |entries|) ==> r == Err(OutOfRange)
    ensures 0 <= target < |entries| ==>
      match TextOf(tools, entries, target)
      case None => r == Err(NoFullBackup)
      case Some(text) => r == Ok(text)
  {
    var plan := PlanReconstruction(entries, target);
    if plan.Err? {
      if plan.error == NoFullBackup { NoFullNoText(tools, entries, target); }
      return Err(plan.error);
    }
    var base := plan.value.baseIndex;
    var content := entries[base].content;
    var k := 0;
    while k < |plan.value.patchIndices|
      invariant 0 <= k <= |plan.value.patchIndices|
      invariant TextOf(tools, entries, base + k) == Some(content)
    {
      var idx := plan.value.patchIndices[k];
      content := tools.apply(content, entries[idx].content);
      k := k + 1;
    }
    return Ok(content);
  }

  lemma {:induction false} NoFullNoText<T>(tools: Tools<T>, entries: seq<File<T>>, target: nat)
    requires target < |entries| && forall i :: 0 <= i <= target ==> entries[i].kind == Patch
    ensures TextOf(tools, entries, target) == None
  {
    if target > 0 { NoFullNoText(tools, entries, target - 1); }
  }

  // ---- One run ----

  /** A run: the day, the dump it took if that worked, whether the diff works, and `--full`. */
  datatype Run<T> = Run(day: int, dump: Option<T>, diffWorks: bool, force: bool)

  function Others<T>(files: seq<File<T>>, day: int): seq<File<T>> {
    Filter((f: File<T>) => f.date != day, files)
  }

  /** The file a run writes, given the other days' files. */
  function NewFile<T>(tools: Tools<T>, others: seq<File<T>>, run: Run<T>): Result<File<T>, DumpError> {
    var entries := Listing(others);
    if run.dump.None? then Err(DumpFailed)
    else if entries == [] || run.force then Ok(File(run.day, Full, run.dump.value))
    else
      match TextOf(tools, entries, |entries| - 1)
      case None => Err(PriorLost(NoFullBackup))
      case Some(prior) =>
        if run.diffWorks then Ok(File(run.day, Patch, tools.diff(prior, run.dump.value))) else Err(DiffFailed)
  }

  function AfterRun<T>(tools: Tools<T>, files: seq<File<T>>, run: Run<T>): seq<File<T>> {
    var others := Others(files, run.day);
    match NewFile(tools, others, run)
    case Err(_) => others
    case Ok(f) => others + [f]
  }

  class Directory<T(==)> {
    var files: seq<File<T>>

    constructor ()
      ensures files == []
    {
      files := [];
    }

    /** Today's file goes first, then the dump is taken, then the new file is written. */
    method CreateDumpBackup(tools: Tools<T>, run: Run<T>) returns (r: Result<Written, DumpError>)
      modifies this
      ensures files == AfterRun(tools, old(files), run)
      ensures match NewFile(tools, Others(old(files), run.day), run)
              case Err(e) => r == Err(e)
              case Ok(f) =>
                var entries := Listing(Others(old(files), run.day));
                r == Ok(Written(run.day, f.kind, if f.kind == Full then None else Some(entries[|entries| - 1].date)))
    {
      var existing := files;
      files := Others(existing, run.day);
      var entries := Listing(files);
      if run.dump.None? {
        return Err(DumpFailed);
      }
      if entries == [] || run.force {
        files := files + [File(run.day, Full, run.dump.value)];
        return Ok(Written(run.day, Full, None));
      }
      var prior := ReconstructContent(tools, entries, |entries| - 1);
      if prior.Err? {
        return Err(PriorLost(prior.error));
      }
      if !run.diffWorks {
        return Err(DiffFailed);
      }
      files := files + [File(run.day, Patch, tools.diff(prior.value, run.dump.value))];
      return Ok(Written(run.day, Patch, Some(entries[|entries| - 1].date)));
    }
  }

  // ---- Whole runs ----

  /** The dump that the file of each day stands for: that of the day's last run, if it worked. */
  function Recorded<T>(tools: Tools<T>, files: seq<File<T>>, recorded: map<int, T>, run: Run<T>): map<int, T> {
    if NewFile(tools, Others(files, run.day), run).Ok? then recorded[run.day := run.dump.value]
    else recorded - {run.day}
  }

  datatype History<T> = History(files: seq<File<T>>, recorded: map<int, T>)

  function AfterRuns<T>(tools: Tools<T>, runs: seq<Run<T>>): History<T> {
    if runs == [] then History([], map[])
    else
      var before, run := AfterRuns(tools, runs[..|runs| - 1]), runs[|runs| - 1];
      History(AfterRun(tools, before.files, run), Recorded(tools, before.files, before.recorded, run))
  }

  ghost predicate OnePerDay<T>(entries: seq<File<T>>) {
    forall i, j :: 0 <= i < j < |entries| ==> entries[i].date < entries[j].date
  }

  /** Every entry stands for the dump recorded for its day. */
  ghost predicate Faithful<T>(tools: Tools<T>, entries: seq<File<T>>, recorded: map<int, T>) {
    forall i :: 0 <= i < |entries| ==>
      entries[i].date in recorded && TextOf(tools, entries, i) == Some(recorded[entries[i].date])
  }

  ghost function Dates<T>(entries: seq<File<T>>): set<int> {
    set f | f in entries :: f.date
  }

  /** One entry for each recorded day, and each stands for the dump recorded for it. */
  ghost predicate Good<T>(tools: Tools<T>, files: seq<File<T>>, recorded: map<int, T>) {
    var entries := Listing(files);
    OnePerDay(entries) && Faithful(tools, entries, recorded) && recorded.Keys == Dates(entries)
  }

  // ---- Texts carried along the chain ----

  /** The text after one more entry. */
  function Carry<T>(tools: Tools<T>, before: Option<T>, f: File<T>): Option<T> {
    if f.kind == Full then Some(f.content)
    else if before.None? then None
    else Some(tools.apply(before.value, f.content))
  }

  function TextAfter<T>(tools: Tools<T>, before: Option<T>, entries: seq<File<T>>): Option<T>
    decreases |entries|
  {
    if entries == [] then before else TextAfter(tools, Carry(tools, before, entries[0]), entries[1..])
  }

  lemma {:induction false} TextAfterAppend<T>(tools: Tools<T>, before: Option<T>, a: seq<File<T>>, b: seq<File<T>>)
    ensures TextAfter(tools, before, a + b) == TextAfter(tools, TextAfter(tools, before, a), b)
    decreases |a|
  {
    if a == [] {
      assert a + b == b;
    } else {
      assert (a + b)[1..] == a[1..] + b;
      TextAfterAppend(tools, Carry(tools, before, a[0]), a[1..], b);
    }
  }

  lemma {:induction false} TextOfIsCarried<T>(tools: Tools<T>, entries: seq<File<T>>, i: nat)
    requires i < |entries|
    ensures TextOf(tools, entries, i) == TextAfter(tools, None, entries[..i + 1])
  {
    var last := entries[i];
    assert entries[..i + 1] == entries[..i] + [last];
    TextAfterAppend(tools, None, entries[..i], [last]);
    assert TextAfter(tools, TextAfter(tools, None, entries[..i]), [last])
      == Carry(tools, TextAfter(tools, None, entries[..i]), last);
    if i > 0 {
      TextOfIsCarried(tools, entries, i - 1);
      assert entries[..i - 1 + 1] == entries[..i];
    }
  }

  /** From a text on, every entry stands for the dump recorded for its day. */
  ghost predicate FaithfulFrom<T>(tools: Tools<T>, before: Option<T>, entries: seq<File<T>>, recorded: map<int, T>)
    decreases |entries|
  {
    entries == [] ||
    (&& entries[0].date in recorded
     && Carry(tools, before, entries[0]) == Some(recorded[entries[0].date])
     && FaithfulFrom(tools, Carry(tools, before, entries[0]), entries[1..], recorded))
  }

  lemma {:induction false} FaithfulAppend<T>(
      tools: Tools<T>, before: Option<T>, a: seq<File<T>>, b: seq<File<T>>, recorded: map<int, T>)
    ensures
      FaithfulFrom(tools, before, a + b, recorded)
      <==> FaithfulFrom(tools, before, a, recorded) && FaithfulFrom(tools, TextAfter(tools, before, a), b, recorded)
    decreases |a|
  {
    if a == [] {
      assert a + b == b;
    } else {
      assert (a + b)[1..] == a[1..] + b;
      FaithfulAppend(tools, Carry(tools, before, a[0]), a[1..], b, recorded);
    }
  }

  /** Faithfulness from the start, entry by entry. */
  lemma {:induction false} FaithfulExact<T>(tools: Tools<T>, entries: seq<File<T>>, recorded: map<int, T>)
    ensures Faithful(tools, entries, recorded) <==> FaithfulFrom(tools, None, entries, recorded)
    decreases |entries|
  {
    if entries != [] {
      var init, last := entries[..|entries| - 1], entries[|entries| - 1];
      assert entries == init + [last];
      FaithfulExact(tools, init, recorded);
      FaithfulAppend(tools, None, init, [last], recorded);
      TextOfIsCarried(tools, entries, |init|);
      TextAfterAppend(tools, None, init, [last]);
      assert entries[..|init| + 1] == entries;
      forall i | 0 <= i < |init| ensures TextOf(tools, entries, i) == TextOf(tools, init, i) {
        TextOfIsCarried(tools, entries, i);
        TextOfIsCarried(tools, init, i);
        assert entries[..i + 1] == init[..i + 1];
      }
    }
  }

  lemma {:induction false} FaithfulAgrees<T>(
      tools: Tools<T>, before: Option<T>, entries: seq<File<T>>, r: map<int, T>, s: map<int, T>)
    requires forall f :: f in entries ==> (f.date in r <==> f.date in s) && (f.date in r ==> r[f.date] == s[f.date])
    ensures FaithfulFrom(tools, before, entries, r) <==> FaithfulFrom(tools, before, entries, s)
    decreases |entries|
  {
    if entries != [] {
      assert entries[0] in entries && forall f :: f in entries[1..] ==> f in entries;
      FaithfulAgrees(tools, Carry(tools, before, entries[0]), entries[1..], r, s);
    }
  }

  lemma {:induction false} FaithfulText<T>(
      tools: Tools<T>, before: Option<T>, entries: seq<File<T>>, recorded: map<int, T>)
    requires FaithfulFrom(tools, before, entries, recorded) && (before.Some? || entries != [])
    ensures TextAfter(tools, before, entries).Some?
    decreases |entries|
  {
    if entries != [] { FaithfulText(tools, Carry(tools, before, entries[0]), entries[1..], recorded); }
  }

  predicate StartsWithPatch<T>(entries: seq<File<T>>) {
    entries != [] && entries[0].kind == Patch
  }

  /** Different texts stay different under one patch. */
  ghost predicate Injective<T(!new)>(tools: Tools<T>) {
    forall a, b, p :: tools.apply(a, p) == tools.apply(b, p) ==> a == b
  }

  /** Entries that were faithful after one text are so after another, if they start whole or it is the same. */
  lemma FaithfulAfter<T>(tools: Tools<T>, was: Option<T>, now: Option<T>, entries: seq<File<T>>, recorded: map<int, T>)
    requires FaithfulFrom(tools, was, entries, recorded) && (StartsWithPatch(entries) ==> was == now)
    ensures FaithfulFrom(tools, now, entries, recorded)
  {}

  lemma FaithfulNeeds<T(!new)>(
      tools: Tools<T>, was: Option<T>, now: Option<T>, entries: seq<File<T>>, recorded: map<int, T>)
    requires Injective(tools)
    requires FaithfulFrom(tools, was, entries, recorded) && FaithfulFrom(tools, now, entries, recorded)
    ensures StartsWithPatch(entries) ==> was == now
  {}

  // ---- One run, on any day ----

  function Earlier<T>(entries: seq<File<T>>, day: int): seq<File<T>> {
    Filter((f: File<T>) => f.date < day, entries)
  }

  function OnDay<T>(entries: seq<File<T>>, day: int): seq<File<T>> {
    Filter((f: File<T>) => f.date == day, entries)
  }

  function Later<T>(entries: seq<File<T>>, day: int): seq<File<T>> {
    Filter((f: File<T>) => f.date > day, entries)
  }

  lemma AllEarlier<T>(entries: seq<File<T>>, day: int)
    requires forall i :: 0 <= i < |entries| ==> entries[i].date < day
    ensures Earlier(entries, day) == entries && OnDay(entries, day) == [] && Later(entries, day) == []
    ensures Filter((f: File<T>) => f.date != day, entries) == entries
  {
    FilterSuffix((f: File<T>) => f.date < day, entries, 0);
    FilterSuffix((f: File<T>) => f.date == day, entries, |entries|);
    FilterSuffix((f: File<T>) => f.date > day, entries, |entries|);
    FilterSuffix((f: File<T>) => f.date != day, entries, 0);
    assert entries[0..] == entries;
  }

  lemma FilterOneMore<T>(init: seq<File<T>>, last: File<T>, day: int)
    ensures Earlier(init + [last], day) == Earlier(init, day) + if last.date < day then [last] else []
    ensures OnDay(init + [last], day) == OnDay(init, day) + if last.date == day then [last] else []
    ensures Later(init + [last], day) == Later(init, day) + if last.date > day then [last] else []
    ensures Others(init + [last], day) == Others(init, day) + if last.date != day then [last] else []
  {
    FilterLast((f: File<T>) => f.date < day, init, last);
    FilterLast((f: File<T>) => f.date == day, init, last);
    FilterLast((f: File<T>) => f.date > day, init, last);
    FilterLast((f: File<T>) => f.date != day, init, last);
  }

  lemma BeforeLast<T>(entries: seq<File<T>>)
    requires OnePerDay(entries) && entries != []
    ensures forall i :: 0 <= i < |entries| - 1 ==> entries[i].date < entries[|entries| - 1].date
  {}

  ghost predicate SplitInto<T>(
      entries: seq<File<T>>, others: seq<File<T>>, a: seq<File<T>>, day: seq<File<T>>, b: seq<File<T>>)
  {
    entries == a + day + b && others == a + b && |day| <= 1
  }

  lemma SplitLast<T>(
      entries: seq<File<T>>, others: seq<File<T>>, a: seq<File<T>>, day: seq<File<T>>, b: seq<File<T>>, last: File<T>)
    requires SplitInto(entries, others, a, day, b)
    ensures SplitInto(entries + [last], others + [last], a, day, b + [last])
    ensures b == [] && day == [] ==> SplitInto(entries + [last], others + [last], a + [last], [], [])
    ensures b == [] && day == [] ==> SplitInto(entries + [last], others, a, [last], [])
  {
    Regroup(a + day, b, [last]);
    Regroup(a, b, [last]);
  }

  /** A listing is what comes before the day, the entry of the day if there is one, and what comes after. */
  lemma {:induction false} SplitAtDay<T>(entries: seq<File<T>>, day: int)
    requires OnePerDay(entries)
    ensures SplitInto(entries, Others(entries, day), Earlier(entries, day), OnDay(entries, day), Later(entries, day))
  {
    if entries != [] {
      var init, last := entries[..|entries| - 1], entries[|entries| - 1];
      assert entries == init + [last];
      BeforeLast(entries);
      FilterOneMore(init, last, day);
      SplitAtDay(init, day);
      if last.date <= day { AllEarlier(init, day); }
      SplitLast(init, Others(init, day), Earlier(init, day), OnDay(init, day), Later(init, day), last);
      NothingAdded(Earlier(init, day));
      NothingAdded(OnDay(init, day));
      NothingAdded(Later(init, day));
      NothingAdded(Others(init, day));
    }
  }

  lemma DateOrderIsOrder<T(!new)>()
    ensures WeakOrder(DateOrder<T>())
  {}

  lemma OthersListing<T(!new)>(files: seq<File<T>>, day: int)
    requires OnePerDay(Listing(files))
    ensures Listing(Others(files, day)) == Earlier(Listing(files), day) + Later(Listing(files), day)
  {
    DateOrderIsOrder<T>();
    FilterSort(DateOrder(), (f: File<T>) => f.date != day, files);
    SplitAtDay(Listing(files), day);
  }

  ghost predicate Around<T>(a: seq<File<T>>, day: int, b: seq<File<T>>) {
    (forall i :: 0 <= i < |a| ==> a[i].date < day) && (forall i :: 0 <= i < |b| ==> day < b[i].date)
  }

  lemma {:induction false} InsertBetween<T>(f: File<T>, a: seq<File<T>>, b: seq<File<T>>)
    requires Around(a, f.date, b)
    ensures Insert(DateOrder(), f, a + b) == a + [f] + b
    decreases |a|
  {
    if a == [] {
      assert a + b == b && a + [f] + b == [f] + b;
    } else {
      assert (a + b)[1..] == a[1..] + b;
      InsertBetween(f, a[1..], b);
      assert [a[0]] + (a[1..] + [f] + b) == a + [f] + b;
    }
  }

  lemma PartsAround<T>(entries: seq<File<T>>, day: int)
    ensures Around(Earlier(entries, day), day, Later(entries, day))
    ensures forall i :: 0 <= i < |OnDay(entries, day)| ==> OnDay(entries, day)[i].date == day
  {
    AllPass((f: File<T>) => f.date < day, entries);
    AllPass((f: File<T>) => f.date == day, entries);
    AllPass((f: File<T>) => f.date > day, entries);
  }

  lemma AllPass<T>(p: File<T> -> bool, entries: seq<File<T>>)
    ensures forall i :: 0 <= i < |Filter(p, entries)| ==> p(Filter(p, entries)[i])
  {
    forall i | 0 <= i < |Filter(p, entries)| ensures p(Filter(p, entries)[i]) {
      FilterMembers(p, entries);
      assert Filter(p, entries)[i] in Filter(p, entries);
    }
  }

  /** What a run writes, if anything. */
  function Wrote<T>(tools: Tools<T>, files: seq<File<T>>, run: Run<T>): seq<File<T>> {
    match NewFile(tools, Others(files, run.day), run)
    case Err(_) => []
    case Ok(f) => [f]
  }

  lemma ListingAfter<T(!new)>(tools: Tools<T>, files: seq<File<T>>, run: Run<T>)
    requires OnePerDay(Listing(files))
    ensures
      Listing(AfterRun(tools, files, run))
      == Earlier(Listing(files), run.day) + Wrote(tools, files, run) + Later(Listing(files), run.day)
  {
    var others, a, b := Others(files, run.day), Earlier(Listing(files), run.day), Later(Listing(files), run.day);
    OthersListing(files, run.day);
    PartsAround(Listing(files), run.day);
    if NewFile(tools, others, run).Ok? {
      var f := NewFile(tools, others, run).value;
      SortLast(DateOrder(), others, f);
      InsertBetween(f, a, b);
    } else {
      assert a + [] == a;
    }
  }

  lemma OnePerDayAround<T>(a: seq<File<T>>, was: seq<File<T>>, now: seq<File<T>>, b: seq<File<T>>, day: int)
    requires OnePerDay(a + was + b) && Around(a, day, b) && |now| <= 1
    requires forall i :: 0 <= i < |now| ==> now[i].date == day
    ensures OnePerDay(a + now + b)
  {
    var entries, after, k, n := a + was + b, a + now + b, |a| + |was|, |a| + |now|;
    forall i, j | 0 <= i < j < |after| ensures after[i].date < after[j].date {
      if j < |a| {
        assert entries[i].date < entries[j].date;
      } else if i >= n {
        assert entries[i - n + k].date < entries[j - n + k].date;
      }
    }
  }

  lemma DatesAround<T>(a: seq<File<T>>, was: seq<File<T>>, now: seq<File<T>>, b: seq<File<T>>, day: int)
    requires Around(a, day, b)
    requires forall i :: 0 <= i < |was| ==> was[i].date == day
    requires forall i :: 0 <= i < |now| ==> now[i].date == day
    ensures Dates(a + now + b) == (Dates(a + was + b) - {day}) + if now == [] then {} else {day}
  {
    forall d ensures d in Dates(a + now + b) <==> d in (Dates(a + was + b) - {day}) + if now == [] then {} else {day} {
      if d == day && now != [] { assert now[0] in a + now + b; }
      if d != day {
        assert forall f :: f in a + now + b && f.date == d ==> f in a + was + b;
        assert forall f :: f in a + was + b && f.date == d ==> f in a + now + b;
      }
    }
  }

  /**
   * The text that stands right before the day, that of the last other entry, and that which a later entry
   * builds on.
   */
  function BeforeDay<T>(tools: Tools<T>, entries: seq<File<T>>, day: int): Option<T> {
    TextAfter(tools, None, Earlier(entries, day))
  }

  function PriorText<T>(tools: Tools<T>, entries: seq<File<T>>, day: int): Option<T> {
    TextAfter(tools, None, Earlier(entries, day) + Later(entries, day))
  }

  function UpToDay<T>(tools: Tools<T>, entries: seq<File<T>>, day: int): Option<T> {
    TextAfter(tools, BeforeDay(tools, entries, day), OnDay(entries, day))
  }

  /**
   * A run fits the directory when the patch it writes, if any, is made against the text that stands right
   * before its day, and the patch of the next entry, if it is one, finds the text it was made against.
   */
  ghost predicate Fits<T>(tools: Tools<T>, files: seq<File<T>>, run: Run<T>) {
    var entries, f := Listing(files), NewFile(tools, Others(files, run.day), run);
    && (f.Ok? && f.value.kind == Patch ==> BeforeDay(tools, entries, run.day) == PriorText(tools, entries, run.day))
    && (StartsWithPatch(Later(entries, run.day)) ==>
          UpToDay(tools, entries, run.day) == if f.Ok? then run.dump else BeforeDay(tools, entries, run.day))
  }

  /** What the new file stands for, read after the text before its day. */
  lemma NewFileCarries<T(!new)>(tools: Tools<T>, files: seq<File<T>>, run: Run<T>)
    requires Exact(tools) && OnePerDay(Listing(files)) && NewFile(tools, Others(files, run.day), run).Ok?
    ensures
      var f, before := NewFile(tools, Others(files, run.day), run).value, BeforeDay(tools, Listing(files), run.day);
      && f.date == run.day && run.dump.Some?
      && (f.kind == Full || before == PriorText(tools, Listing(files), run.day) ==> Carry(tools, before, f) == run.dump)
      && (Injective(tools) && Carry(tools, before, f) == run.dump ==>
            f.kind == Full || before == PriorText(tools, Listing(files), run.day))
  {
    var others := Listing(Others(files, run.day));
    OthersListing(files, run.day);
    if others != [] {
      TextOfIsCarried(tools, others, |others| - 1);
      assert others[..|others| - 1 + 1] == others;
    }
  }

  lemma GoodParts<T>(tools: Tools<T>, files: seq<File<T>>, recorded: map<int, T>, day: int)
    requires Good(tools, files, recorded)
    ensures
      var entries := Listing(files);
      && FaithfulFrom(tools, None, Earlier(entries, day), recorded)
      && FaithfulFrom(tools, BeforeDay(tools, entries, day), OnDay(entries, day), recorded)
      && FaithfulFrom(tools, UpToDay(tools, entries, day), Later(entries, day), recorded)
  {
    var entries := Listing(files);
    SplitAtDay(entries, day);
    FaithfulExact(tools, entries, recorded);
    FaithfulAppend(tools, None, Earlier(entries, day) + OnDay(entries, day), Later(entries, day), recorded);
    FaithfulAppend(tools, None, Earlier(entries, day), OnDay(entries, day), recorded);
    TextAfterAppend(tools, None, Earlier(entries, day), OnDay(entries, day));
  }

  lemma WroteOnDay<T(!new)>(tools: Tools<T>, files: seq<File<T>>, run: Run<T>)
    ensures |Wrote(tools, files, run)| <= 1
    ensures forall i :: 0 <= i < |Wrote(tools, files, run)| ==> Wrote(tools, files, run)[i].date == run.day
  {}

  /** After the run, what it wrote stands in the place of the day. */
  lemma PlacesAfter<T(!new)>(tools: Tools<T>, files: seq<File<T>>, recorded: map<int, T>, run: Run<T>)
    requires Exact(tools) && Good(tools, files, recorded)
    ensures OnePerDay(Listing(AfterRun(tools, files, run)))
    ensures Recorded(tools, files, recorded, run).Keys == Dates(Listing(AfterRun(tools, files, run)))
  {
    var entries, wrote := Listing(files), Wrote(tools, files, run);
    var a, b := Earlier(entries, run.day), Later(entries, run.day);
    ListingAfter(tools, files, run);
    SplitAtDay(entries, run.day);
    PartsAround(entries, run.day);
    WroteOnDay(tools, files, run);
    OnePerDayAround(a, OnDay(entries, run.day), wrote, b, run.day);
    DatesAround(a, OnDay(entries, run.day), wrote, b, run.day);
  }

  lemma OthersUntouched<T>(tools: Tools<T>, files: seq<File<T>>, recorded: map<int, T>, run: Run<T>, before: Option<T>)
    ensures
      var a, b := Earlier(Listing(files), run.day), Later(Listing(files), run.day);
      var after := Recorded(tools, files, recorded, run);
      && (FaithfulFrom(tools, before, a, recorded) <==> FaithfulFrom(tools, before, a, after))
      && (FaithfulFrom(tools, before, b, recorded) <==> FaithfulFrom(tools, before, b, after))
  {
    var a, b := Earlier(Listing(files), run.day), Later(Listing(files), run.day);
    var after := Recorded(tools, files, recorded, run);
    PartsAround(Listing(files), run.day);
    assert forall f :: f in a ==> f.date < run.day;
    assert forall f :: f in b ==> run.day < f.date;
    FaithfulAgrees(tools, before, a, recorded, after);
    FaithfulAgrees(tools, before, b, recorded, after);
  }

  lemma FaithfulAround<T>(
      tools: Tools<T>, a: seq<File<T>>, wrote: seq<File<T>>, b: seq<File<T>>, recorded: map<int, T>)
    ensures
      var before := TextAfter(tools, None, a);
      Faithful(tools, a + wrote + b, recorded)
      <==> && FaithfulFrom(tools, None, a, recorded) && FaithfulFrom(tools, before, wrote, recorded)
           && FaithfulFrom(tools, TextAfter(tools, before, wrote), b, recorded)
  {
    FaithfulExact(tools, a + wrote + b, recorded);
    FaithfulAppend(tools, None, a + wrote, b, recorded);
    FaithfulAppend(tools, None, a, wrote, recorded);
    TextAfterAppend(tools, None, a, wrote);
  }

  lemma GoodAfterParts<T(!new)>(tools: Tools<T>, files: seq<File<T>>, recorded: map<int, T>, run: Run<T>)
    requires Exact(tools) && Good(tools, files, recorded)
    ensures
      var entries, wrote := Listing(files), Wrote(tools, files, run);
      var before, after := BeforeDay(tools, entries, run.day), Recorded(tools, files, recorded, run);
      Good(tools, AfterRun(tools, files, run), after) <==>
        && FaithfulFrom(tools, before, wrote, after)
        && FaithfulFrom(tools, TextAfter(tools, before, wrote), Later(entries, run.day), recorded)
  {
    var entries, wrote := Listing(files), Wrote(tools, files, run);
    var before, after := BeforeDay(tools, entries, run.day), Recorded(tools, files, recorded, run);
    PlacesAfter(tools, files, recorded, run);
    ListingAfter(tools, files, run);
    GoodParts(tools, files, recorded, run.day);
    FaithfulAround(tools, Earlier(entries, run.day), wrote, Later(entries, run.day), after);
    OthersUntouched(tools, files, recorded, run, None);
    OthersUntouched(tools, files, recorded, run, TextAfter(tools, before, wrote));
  }

  /** What the run wrote, and what later entries build on after it. */
  lemma WroteParts<T(!new)>(tools: Tools<T>, files: seq<File<T>>, recorded: map<int, T>, run: Run<T>)
    requires Exact(tools) && OnePerDay(Listing(files))
    ensures
      var wrote, before := Wrote(tools, files, run), BeforeDay(tools, Listing(files), run.day);
      var f, after := NewFile(tools, Others(files, run.day), run), Recorded(tools, files, recorded, run);
      && (FaithfulFrom(tools, before, wrote, after) <==> f.Ok? ==> Carry(tools, before, f.value) == run.dump)
      && TextAfter(tools, before, wrote) == if f.Ok? then Carry(tools, before, f.value) else before
  {
    if NewFile(tools, Others(files, run.day), run).Ok? { NewFileCarries(tools, files, run); }
  }

  lemma FitsKeepsGood<T(!new)>(tools: Tools<T>, files: seq<File<T>>, recorded: map<int, T>, run: Run<T>)
    requires Exact(tools) && Good(tools, files, recorded) && Fits(tools, files, run)
    ensures Good(tools, AfterRun(tools, files, run), Recorded(tools, files, recorded, run))
  {
    var entries := Listing(files);
    GoodAfterParts(tools, files, recorded, run);
    WroteParts(tools, files, recorded, run);
    if NewFile(tools, Others(files, run.day), run).Ok? { NewFileCarries(tools, files, run); }
    GoodParts(tools, files, recorded, run.day);
    var now := TextAfter(tools, BeforeDay(tools, entries, run.day), Wrote(tools, files, run));
    FaithfulAfter(tools, UpToDay(tools, entries, run.day), now, Later(entries, run.day), recorded);
  }

  lemma GoodNeedsFits<T(!new)>(tools: Tools<T>, files: seq<File<T>>, recorded: map<int, T>, run: Run<T>)
    requires Exact(tools) && Injective(tools) && Good(tools, files, recorded)
    requires Good(tools, AfterRun(tools, files, run), Recorded(tools, files, recorded, run))
    ensures Fits(tools, files, run)
  {
    var entries := Listing(files);
    GoodAfterParts(tools, files, recorded, run);
    WroteParts(tools, files, recorded, run);
    if NewFile(tools, Others(files, run.day), run).Ok? { NewFileCarries(tools, files, run); }
    GoodParts(tools, files, recorded, run.day);
    var now := TextAfter(tools, BeforeDay(tools, entries, run.day), Wrote(tools, files, run));
    FaithfulNeeds(tools, UpToDay(tools, entries, run.day), now, Later(entries, run.day), recorded);
  }

  /**
   * On any day, with any failures: a run keeps the directory good exactly when it fits. For tools whose
   * patches keep different texts apart.
   */
  lemma RunKeepsGoodExact<T(!new)>(tools: Tools<T>, files: seq<File<T>>, recorded: map<int, T>, run: Run<T>)
    requires Exact(tools) && Injective(tools) && Good(tools, files, recorded)
    ensures Good(tools, AfterRun(tools, files, run), Recorded(tools, files, recorded, run)) <==> Fits(tools, files, run)
  {
    if Fits(tools, files, run) {
      FitsKeepsGood(tools, files, recorded, run);
    } else if Good(tools, AfterRun(tools, files, run), Recorded(tools, files, recorded, run)) {
      GoodNeedsFits(tools, files, recorded, run);
    }
  }

  /**
   * Seen from the files alone: the next entry after the day is full or absent, and the run writes nothing,
   * is forced, finds no other entry, or none after its day.
   */
  ghost predicate Clear<T>(tools: Tools<T>, files: seq<File<T>>, run: Run<T>) {
    var later := Later(Listing(files), run.day);
    && !StartsWithPatch(later)
    && (NewFile(tools, Others(files, run.day), run).Err? || run.force || Listing(Others(files, run.day)) == []
      || later == [])
  }

  lemma ClearFits<T(!new)>(tools: Tools<T>, files: seq<File<T>>, run: Run<T>)
    requires Clear(tools, files, run)
    ensures Fits(tools, files, run)
  {
    NothingAdded(Earlier(Listing(files), run.day));
  }

  /**
   * The files alone decide whenever the texts in question differ: what stands before the day and what the
   * last other entry stands for, and what a later entry was made against and what it would find.
   */
  lemma FitsIsClear<T(!new)>(tools: Tools<T>, files: seq<File<T>>, run: Run<T>)
    requires
      var entries := Listing(files);
      && (Later(entries, run.day) != [] ==> BeforeDay(tools, entries, run.day) != PriorText(tools, entries, run.day))
      && UpToDay(tools, entries, run.day) != run.dump
      && UpToDay(tools, entries, run.day) != BeforeDay(tools, entries, run.day)
    ensures Fits(tools, files, run) <==> Clear(tools, files, run)
  {
    if Clear(tools, files, run) { ClearFits(tools, files, run); }
  }

  /** No entry is younger than the run. */
  ghost predicate NotYounger<T>(entries: seq<File<T>>, day: int) {
    forall i :: 0 <= i < |entries| ==> entries[i].date <= day
  }

  lemma NoneLater<T>(entries: seq<File<T>>, day: int)
    ensures NotYounger(entries, day) <==> Later(entries, day) == []
  {
    NonePass((f: File<T>) => f.date > day, entries);
  }

  lemma NonePass<T>(p: File<T> -> bool, entries: seq<File<T>>)
    ensures Filter(p, entries) == [] <==> forall i :: 0 <= i < |entries| ==> !p(entries[i])
  {
    FilterMembers(p, entries);
    if Filter(p, entries) != [] {
      assert Filter(p, entries)[0] in Filter(p, entries);
    }
  }

  lemma LaterStays<T(!new)>(tools: Tools<T>, files: seq<File<T>>, run: Run<T>)
    requires OnePerDay(Listing(files)) && NotYounger(Listing(files), run.day)
    ensures NotYounger(Listing(AfterRun(tools, files, run)), run.day)
  {
    ListingAfter(tools, files, run);
    NoneLater(Listing(files), run.day);
    PartsAround(Listing(files), run.day);
    WroteOnDay(tools, files, run);
  }

  /** One run on the day of the last file or later, whatever fails in it, keeps the directory good. */
  lemma RunKeepsGood<T(!new)>(tools: Tools<T>, files: seq<File<T>>, recorded: map<int, T>, run: Run<T>)
    requires Exact(tools) && Good(tools, files, recorded) && NotYounger(Listing(files), run.day)
    ensures Good(tools, AfterRun(tools, files, run), Recorded(tools, files, recorded, run))
    ensures NotYounger(Listing(AfterRun(tools, files, run)), run.day)
  {
    NoneLater(Listing(files), run.day);
    ClearFits(tools, files, run);
    FitsKeepsGood(tools, files, recorded, run);
    LaterStays(tools, files, run);
  }

  /** The entry a patch is made against is of an earlier day exactly when no file is of a later one. */
  lemma PriorIsEarlierExact<T(!new)>(files: seq<File<T>>, day: int)
    requires OnePerDay(Listing(files)) && Others(files, day) != []
    ensures
      var others := Listing(Others(files, day));
      others != [] && (others[|others| - 1].date < day <==> NotYounger(Listing(files), day))
  {
    SortMembers(DateOrder(), Others(files, day));
    OthersListing(files, day);
    PartsAround(Listing(files), day);
    NoneLater(Listing(files), day);
  }

  /** On any directory, a run writes its file exactly when nothing it needs is missing or fails. */
  lemma RunWorksExact<T>(tools: Tools<T>, files: seq<File<T>>, run: Run<T>)
    ensures
      var others := Listing(Others(files, run.day));
      NewFile(tools, Others(files, run.day), run).Ok?
      <==> run.dump.Some? && (run.force || others == [] || (run.diffWorks && SomeFull(others)))
  {
    var others := Listing(Others(files, run.day));
    if others != [] { FullGivesText(tools, others, |others| - 1); }
  }

  ghost predicate SomeFull<T>(entries: seq<File<T>>) {
    exists i :: 0 <= i < |entries| && entries[i].kind == Full
  }

  lemma {:induction false} FullGivesText<T>(tools: Tools<T>, entries: seq<File<T>>, i: nat)
    requires i < |entries|
    ensures TextOf(tools, entries, i).Some? <==> exists k :: 0 <= k <= i && entries[k].kind == Full
  {
    if i > 0 { FullGivesText(tools, entries, i - 1); }
  }

  ghost predicate NonDecreasing<T>(runs: seq<Run<T>>) {
    forall i, j :: 0 <= i < j < |runs| ==> runs[i].day <= runs[j].day
  }

  /**
   * After any runs on non-decreasing days, with same-day reruns, forced full dumps and failing dumps
   * or diffs among them, there is exactly one file for each day whose last run worked, and each file
   * reconstructs the dump of that run.
   */
  lemma {:induction false} ChainIsGood<T(!new)>(tools: Tools<T>, runs: seq<Run<T>>)
    requires Exact(tools) && NonDecreasing(runs)
    ensures
      var h := AfterRuns(tools, runs);
      && Good(tools, h.files, h.recorded)
      && (runs != [] ==> NotYounger(Listing(h.files), runs[|runs| - 1].day))
  {
    if runs != [] {
      var init, run := runs[..|runs| - 1], runs[|runs| - 1];
      ChainIsGood(tools, init);
      var before := AfterRuns(tools, init);
      if init != [] {
        assert init[|init| - 1].day <= run.day;
      }
      RunKeepsGood(tools, before.files, before.recorded, run);
    }
  }

  ghost predicate AllFit<T>(tools: Tools<T>, runs: seq<Run<T>>) {
    forall i :: 0 <= i < |runs| ==> Fits(tools, AfterRuns(tools, runs[..i]).files, runs[i])
  }

  ghost predicate GoodAt<T>(tools: Tools<T>, runs: seq<Run<T>>) {
    Good(tools, AfterRuns(tools, runs).files, AfterRuns(tools, runs).recorded)
  }

  ghost predicate GoodThroughout<T>(tools: Tools<T>, runs: seq<Run<T>>) {
    forall i :: 0 <= i <= |runs| ==> GoodAt(tools, runs[..i])
  }

  lemma OneMoreGood<T>(tools: Tools<T>, init: seq<Run<T>>, run: Run<T>)
    ensures GoodThroughout(tools, init + [run]) <==> GoodThroughout(tools, init) && GoodAt(tools, init + [run])
  {
    PrefixesOf((rs: seq<Run<T>>) => GoodAt(tools, rs), init, run);
  }

  lemma PrefixesOf<R>(p: seq<R> -> bool, init: seq<R>, last: R)
    ensures
      var xs := init + [last];
      (forall i :: 0 <= i <= |xs| ==> p(xs[..i])) <==> (forall i :: 0 <= i <= |init| ==> p(init[..i])) && p(xs)
  {
    var xs := init + [last];
    assert xs[..|xs|] == xs;
    assert forall i :: 0 <= i <= |init| ==> xs[..i] == init[..i];
  }

  lemma OneMoreFits<T>(tools: Tools<T>, init: seq<Run<T>>, run: Run<T>)
    ensures AllFit(tools, init + [run]) <==> AllFit(tools, init) && Fits(tools, AfterRuns(tools, init).files, run)
  {
    var runs := init + [run];
    assert runs[..|init|] == init && runs[|init|] == run;
    assert forall i :: 0 <= i < |init| ==> runs[..i] == init[..i] && runs[i] == init[i];
  }

  lemma GoodSoFar<T>(tools: Tools<T>, runs: seq<Run<T>>)
    requires GoodThroughout(tools, runs)
    ensures GoodAt(tools, runs)
  {
    assert runs[..|runs|] == runs;
  }

  lemma OneMoreRun<T(!new)>(tools: Tools<T>, init: seq<Run<T>>, run: Run<T>)
    requires Exact(tools) && Injective(tools) && GoodAt(tools, init)
    ensures GoodAt(tools, init + [run]) <==> Fits(tools, AfterRuns(tools, init).files, run)
  {
    assert (init + [run])[..|init|] == init;
    var before := AfterRuns(tools, init);
    RunKeepsGoodExact(tools, before.files, before.recorded, run);
  }

  lemma NoRunsGood<T>(tools: Tools<T>)
    ensures GoodThroughout(tools, []) && AllFit(tools, [])
  {
    assert Listing<T>([]) == [];
    assert GoodAt(tools, []);
  }

  /** On days in any order: the directory is good after each run of a series exactly when each run fits. */
  lemma {:induction false} ChainIsGoodExact<T(!new)>(tools: Tools<T>, runs: seq<Run<T>>)
    requires Exact(tools) && Injective(tools)
    ensures GoodThroughout(tools, runs) <==> AllFit(tools, runs)
    decreases |runs|
  {
    if runs == [] {
      NoRunsGood(tools);
    } else {
      var init, last := runs[..|runs| - 1], runs[|runs| - 1];
      assert runs == init + [last];
      ChainIsGoodExact(tools, init);
      OneMoreGood(tools, init, last);
      OneMoreFits(tools, init, last);
      if GoodThroughout(tools, init) {
        GoodSoFar(tools, init);
        OneMoreRun(tools, init, last);
      }
    }
  }

  /** What is recorded for a day is the dump of the day's last run, if that run worked. */
  lemma {:induction false} RecordedIsLast<T>(tools: Tools<T>, runs: seq<Run<T>>, i: nat)
    requires i < |runs| && forall j :: i < j < |runs| ==> runs[j].day != runs[i].day
    ensures
      var h := AfterRuns(tools, runs);
      var worked := NewFile(tools, Others(AfterRuns(tools, runs[..i]).files, runs[i].day), runs[i]).Ok?;
      && (runs[i].day in h.recorded <==> worked)
      && (worked ==> h.recorded[runs[i].day] == runs[i].dump.value)
  {
    var init := runs[..|runs| - 1];
    if i < |init| {
      assert init[..i] == runs[..i] && init[i] == runs[i];
      RecordedIsLast(tools, init, i);
    }
  }

  /** On the day of the last file or later, a run over a good directory fails only when its dump or its diff does. */
  lemma GoodRunsWork<T(!new)>(tools: Tools<T>, files: seq<File<T>>, recorded: map<int, T>, run: Run<T>)
    requires Good(tools, files, recorded) && NotYounger(Listing(files), run.day)
    requires run.dump.Some? && (run.force || run.diffWorks)
    ensures NewFile(tools, Others(files, run.day), run).Ok?
  {
    var entries := Listing(files);
    OthersListing(files, run.day);
    NoneLater(entries, run.day);
    NothingAdded(Earlier(entries, run.day));
    GoodParts(tools, files, recorded, run.day);
    var others := Listing(Others(files, run.day));
    if others != [] {
      FaithfulText(tools, None, others, recorded);
      TextOfIsCarried(tools, others, |others| - 1);
      assert others[..|others| - 1 + 1] == others;
    }
  }

  // ---- Where the last other entry is not the day before ----

  function Difference(): Tools<int> {
    Tools((o: int, n: int) => n - o, (o: int, p: int) => o + p)
  }

  lemma Parts2<T>(f: File<T>, g: File<T>, day: int)
    ensures Earlier([f, g], day) == (if f.date < day then [f] else []) + if g.date < day then [g] else []
    ensures OnDay([f, g], day) == (if f.date == day then [f] else []) + if g.date == day then [g] else []
    ensures Later([f, g], day) == (if f.date > day then [f] else []) + if g.date > day then [g] else []
    ensures Others([f, g], day) == (if f.date != day then [f] else []) + if g.date != day then [g] else []
  {
    assert [f] + [g] == [f, g] && [] + [f] == [f];
    FilterOneMore([], f, day);
    FilterOneMore([f], g, day);
  }

  lemma TextAfterTwo<T>(tools: Tools<T>, before: Option<T>, f: File<T>, g: File<T>)
    ensures TextAfter(tools, before, [f]) == Carry(tools, before, f)
    ensures TextAfter(tools, before, [f, g]) == Carry(tools, Carry(tools, before, f), g)
  {
    assert [f, g][1..] == [g];
    assert TextAfter(tools, Carry(tools, before, f), [g]) == Carry(tools, Carry(tools, before, f), g);
  }

  /** A directory of two days. */
  lemma TwoDays<T>(tools: Tools<T>, f: File<T>, g: File<T>, s: T, t: T)
    requires f.date < g.date && f == File(f.date, Full, s) && Carry(tools, Some(s), g) == Some(t)
    ensures Listing([f, g]) == [f, g] && Good(tools, [f, g], map[f.date := s, g.date := t])
  {
    SortOfSorted(DateOrder(), [f, g]);
    assert TextOf(tools, [f, g], 1) == Some(t) by { assert TextOf(tools, [f, g], 0) == Some(s); }
    assert f in [f, g] && g in [f, g];
  }

  lemma FitsBetween<T(!new)>(tools: Tools<T>, f: File<T>, g: File<T>, run: Run<T>)
    requires f.date < run.day < g.date && f.kind == Full && g.kind == Full
    requires run.dump.Some? && run.diffWorks && !run.force
    ensures Listing(Others([f, g], run.day)) == [f, g]
    ensures
      NewFile(tools, Others([f, g], run.day), run) == Ok(File(run.day, Patch, tools.diff(g.content, run.dump.value)))
    ensures Fits(tools, [f, g], run) <==> f.content == g.content
  {
    SortOfSorted(DateOrder(), [f, g]);
    Parts2(f, g, run.day);
    assert [f] + [g] == [f, g] && [f] + [] == [f] && [] + [g] == [g];
    TextAfterTwo(tools, None, f, g);
  }

  /**
   * An unforced run for a day between two full dumps patches the later one: the reported prior is of a day
   * to come, and the file reconstructs its dump only if the two full dumps hold one text.
   */
  lemma RunBetweenFulls(p: int, day: int, q: int, s: int, t: int, n: int)
    requires p < day < q
    ensures
      var files, run := [File(p, Full, s), File(q, Full, t)], Run(day, Some(n), true, false);
      var recorded := map[p := s, q := t];
      && Exact(Difference()) && Good(Difference(), files, recorded)
      && NewFile(Difference(), Others(files, day), run) == Ok(File(day, Patch, n - t))
      && Listing(Others(files, day)) == files
      && (Good(Difference(), AfterRun(Difference(), files, run), Recorded(Difference(), files, recorded, run))
        <==> s == t)
  {
    var f, g, run := File(p, Full, s), File(q, Full, t), Run(day, Some(n), true, false);
    TwoDays(Difference(), f, g, s, t);
    FitsBetween(Difference(), f, g, run);
    RunKeepsGoodExact(Difference(), [f, g], map[p := s, q := t], run);
  }

  /**
   * A forced rerun for an earlier day replaces the text that the next day's patch was made against: the
   * directory stays good only if the text is the same.
   */
  lemma BackwardDayBreaksChain(p: int, q: int, s: int, t: int, n: int)
    requires p < q
    ensures
      var files, run := [File(p, Full, s), File(q, Patch, t - s)], Run(p, Some(n), true, true);
      var recorded := map[p := s, q := t];
      && Exact(Difference()) && Good(Difference(), files, recorded)
      && (Good(Difference(), AfterRun(Difference(), files, run), Recorded(Difference(), files, recorded, run))
        <==> s == n)
  {
    var f, g, run := File(p, Full, s), File(q, Patch, t - s), Run(p, Some(n), true, true);
    TwoDays(Difference(), f, g, s, t);
    Parts2(f, g, p);
    assert [] + [g] == [g] && [f] + [] == [f];
    TextAfterTwo(Difference(), None, f, g);
    RunKeepsGoodExact(Difference(), [f, g], map[p := s, q := t], run);
  }
}
