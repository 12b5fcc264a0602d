/** What migration runs read and record, row by row, stated on the rows themselves. */
module MigrationRecords {
  import opened Prelude
  import opened Filters
  import opened Checksum
  import opened ScriptText
  import opened Migration
  import opened MigrationRuns

  // ---- Status ----

  predicate Succeeded<C>(row: Row<C>, version: string) {
    row.success && row.version == Some(version)
  }

  /** The last successful row of a version. */
  ghost predicate LastSuccess<C>(history: seq<Row<C>>, version: string, i: nat) {
    i < |history| && Succeeded(history[i], version) && forall j :: i < j < |history| ==> !Succeeded(history[j], version)
  }

  ghost predicate EverSucceeded<C>(history: seq<Row<C>>, version: string) {
    exists i :: 0 <= i < |history| && Succeeded(history[i], version)
  }

  lemma {:induction false} AppliedRowExact<C>(history: seq<Row<C>>, version: string)
    ensures
      match AppliedRow(history, version)
      case None => !EverSucceeded(history, version)
      case Some(row) => exists i: nat :: LastSuccess(history, version, i) && history[i] == row
  {
    if history != [] {
      var init, last := history[..|history| - 1], history[|history| - 1];
      AppliedRowExact(init, version);
      if Succeeded(last, version) {
        assert LastSuccess(history, version, |init|);
      } else if AppliedRow(init, version).Some? {
        var i: nat :| LastSuccess(init, version, i) && init[i] == AppliedRow(init, version).value;
        assert LastSuccess(history, version, i);
      }
    }
  }

  lemma LastSuccessIsOne<C>(history: seq<Row<C>>, version: string, i: nat)
    requires LastSuccess(history, version, i)
    ensures AppliedRow(history, version) == Some(history[i])
  {
    AppliedRowExact(history, version);
    assert EverSucceeded(history, version);
    var j: nat :| LastSuccess(history, version, j) && history[j] == AppliedRow(history, version).value;
  }

  /** The recorded checksum of the file's version is there and is another. */
  ghost predicate Changed<C>(sum: string -> C, history: seq<Row<C>>, file: ScriptFile) {
    exists i: nat ::
      LastSuccess(history, file.version, i) && history[i].checksum.Some? && history[i].checksum.value != sum(file.sql)
  }

  lemma EditedIsChanged<C>(sum: string -> C, history: seq<Row<C>>, file: ScriptFile)
    ensures Edited(sum, history, file) <==> Changed(sum, history, file)
    ensures IsApplied(history, file) <==> EverSucceeded(history, file.version)
  {
    AppliedRowExact(history, file.version);
    if i: nat :| LastSuccess(history, file.version, i) && history[i].checksum.Some?
                 && history[i].checksum.value != sum(file.sql) {
      LastSuccessIsOne(history, file.version, i);
    }
  }

  lemma {:induction false} SplitByApplied<C>(files: seq<ScriptFile>, history: seq<Row<C>>)
    ensures Applied(files, history) == Filter((f: ScriptFile) => IsApplied(history, f), files)
    ensures Pending(files, history) == Filter((f: ScriptFile) => !IsApplied(history, f), files)
  {
    if files != [] { SplitByApplied(files[1..], history); }
  }

  lemma {:induction false} FirstEditedExact<C>(sum: string -> C, files: seq<ScriptFile>, history: seq<Row<C>>)
    ensures
      match FirstEdited(sum, files, history)
      case None => forall k :: 0 <= k < |files| ==> !Edited(sum, history, files[k])
      case Some(file) =>
        exists k: nat :: k < |files| && files[k] == file && Edited(sum, history, file)
                         && forall j :: 0 <= j < k ==> !Edited(sum, history, files[j])
  {
    if files != [] && !Edited(sum, history, files[0]) {
      FirstEditedExact(sum, files[1..], history);
      if FirstEdited(sum, files[1..], history).Some? {
        var k: nat :| k < |files[1..]| && files[1..][k] == FirstEdited(sum, files[1..], history).value
                      && Edited(sum, history, files[1..][k])
                      && forall j :: 0 <= j < k ==> !Edited(sum, history, files[1..][j]);
        assert files[k + 1] == files[1..][k];
        assert forall j :: 0 < j < k + 1 ==> files[j] == files[1..][j - 1];
      }
    }
  }

  /**
   * The status, row by row: the check fails exactly when some file's version has a last successful row with
   * another checksum, a row without one passing; and it parts the files by whether a row of theirs succeeded.
   */
  lemma StatusExact<C>(sum: string -> C, files: seq<ScriptFile>, history: seq<Row<C>>)
    ensures StatusOf(sum, files, history).Ok? <==> forall k :: 0 <= k < |files| ==> !Changed(sum, history, files[k])
    ensures
      StatusOf(sum, files, history).Ok? ==>
        var status := StatusOf(sum, files, history).value;
        && status.applied == Filter((f: ScriptFile) => EverSucceeded(history, f.version), files)
        && status.pending == Filter((f: ScriptFile) => !EverSucceeded(history, f.version), files)
  {
    FirstEditedExact(sum, files, history);
    forall f: ScriptFile
      ensures Edited(sum, history, f) <==> Changed(sum, history, f)
      ensures IsApplied(history, f) <==> EverSucceeded(history, f.version)
    {
      EditedIsChanged(sum, history, f);
    }
    SplitByApplied(files, history);
    FilterAgree((f: ScriptFile) => IsApplied(history, f), (f: ScriptFile) => EverSucceeded(history, f.version), files);
    FilterAgree((f: ScriptFile) => !IsApplied(history, f), (f: ScriptFile) => !EverSucceeded(history, f.version),
      files);
  }

  /** The file reported is the first in order that changed, with what was recorded and what it is now. */
  lemma MismatchExact<C>(sum: string -> C, files: seq<ScriptFile>, history: seq<Row<C>>)
    requires StatusOf(sum, files, history).Err?
    ensures
      var m := StatusOf(sum, files, history).error;
      && m.current == sum(m.file.sql) && m.recorded != m.current
      && (exists i: nat :: LastSuccess(history, m.file.version, i) && history[i].checksum == Some(m.recorded))
      && exists k: nat ::
           k < |files| && files[k] == m.file && forall j :: 0 <= j < k ==> !Changed(sum, history, files[j])
  {
    FirstEditedExact(sum, files, history);
    var file := FirstEdited(sum, files, history).value;
    AppliedRowExact(history, file.version);
    forall f: ScriptFile ensures Edited(sum, history, f) <==> Changed(sum, history, f) {
      EditedIsChanged(sum, history, f);
    }
  }

  // ---- Apply ----

  /** The row of a file that was applied. */
  predicate Records<C(==)>(sum: string -> C, row: Row<C>, file: ScriptFile) {
    && row.success && row.version == Some(file.version) && row.description == file.description
    && row.script == file.name && row.checksum == Some(sum(file.sql))
  }

  function EffectsOf<S>(effect: (S, string) -> S, state: S, files: seq<ScriptFile>): S {
    if files == [] then state else effect(EffectsOf(effect, state, files[..|files| - 1]), files[|files| - 1].sql)
  }

  lemma {:induction false} EffectsOfMore<S>(
      effect: (S, string) -> S, state: S, file: ScriptFile, files: seq<ScriptFile>)
    ensures EffectsOf(effect, state, [file] + files) == EffectsOf(effect, effect(state, file.sql), files)
  {
    if files == [] {
      assert [file] + files == [file] && [file][..0] == [];
      assert EffectsOf(effect, state, [file][..0]) == state;
    } else {
      var more := [file] + files;
      assert more[..|more| - 1] == [file] + files[..|files| - 1];
      EffectsOfMore(effect, state, file, files[..|files| - 1]);
    }
  }

  ghost predicate RowsFor<C>(sum: string -> C, rows: seq<Row<C>>, files: seq<ScriptFile>) {
    |rows| == |files| && forall k :: 0 <= k < |files| ==> Records(sum, rows[k], files[k])
  }

  /** Ranks go on from the last one, or from 1. */
  ghost predicate RanksGoOn<C>(history: seq<Row<C>>, from: nat) {
    forall k :: from <= k < |history| ==> history[k].rank == if k == 0 then 1 else history[k - 1].rank + 1
  }

  /**
   * A run applies a prefix of the pending files, executing each text once and in order, and appends one
   * row for each, with its own version, description, name and checksum.
   */
  lemma {:induction false} RunRecords<S, C>(
      sum: string -> C, pending: seq<ScriptFile>, session: Session<S, C>, world: World<S, C>)
    ensures
      var run := ApplyAll(sum, pending, session, world);
      && run.applied <= pending && world.history <= run.world.history
      && RowsFor(sum, run.world.history[|world.history|..], run.applied)
      && (run.failed.None? ==> run.applied == pending)
      && (run.failed.Some? ==> |run.applied| < |pending| && run.failed.value == pending[|run.applied|])
    decreases |pending|
  {
    if pending != [] && Committed(sum, session, world, pending[0]).Some? {
      var next, rest := Committed(sum, session, world, pending[0]).value, pending[1..];
      RunRecords(sum, rest, session, next);
      RestOfRun(sum, pending, session, world);
      var after := ApplyAll(sum, rest, session, next);
      OneMoreRow(sum, world.history, NewRow(sum, world.history, pending[0]), after.world.history, pending[0],
        after.applied);
      assert pending == [pending[0]] + rest;
    } else {
      assert world.history[|world.history|..] == [];
    }
  }

  /** One file committed, then the rest of the run. */
  lemma RestOfRun<S, C>(sum: string -> C, pending: seq<ScriptFile>, session: Session<S, C>, world: World<S, C>)
    requires pending != [] && Committed(sum, session, world, pending[0]).Some?
    ensures
      var next := Committed(sum, session, world, pending[0]).value;
      var run, rest := ApplyAll(sum, pending, session, world), ApplyAll(sum, pending[1..], session, next);
      && next.history == world.history + [NewRow(sum, world.history, pending[0])]
      && run.world == rest.world && run.applied == [pending[0]] + rest.applied && run.failed == rest.failed
  {}

  lemma OneMoreRow<C>(
      sum: string -> C, history: seq<Row<C>>, row: Row<C>, after: seq<Row<C>>, file: ScriptFile,
      files: seq<ScriptFile>)
    requires history + [row] <= after && Records(sum, row, file) && RowsFor(sum, after[|history| + 1..], files)
    ensures history <= after && RowsFor(sum, after[|history|..], [file] + files)
  {
    var n := |history|;
    assert (history + [row])[n] == after[n];
    assert after[n..] == [row] + after[n + 1..];
    assert after[..n] == (history + [row])[..n] == history;
  }

  lemma {:induction false} RunExecutes<S(!new), C>(
      sum: string -> C, pending: seq<ScriptFile>, session: Session<S, C>, effect: (S, string) -> S, world: World<S, C>)
    requires Deterministic(session, effect)
    ensures
      var run := ApplyAll(sum, pending, session, world);
      run.world.state == EffectsOf(effect, world.state, run.applied)
    decreases |pending|
  {
    if pending != [] && Committed(sum, session, world, pending[0]).Some? {
      var next := Committed(sum, session, world, pending[0]).value;
      RunExecutes(sum, pending[1..], session, effect, next);
      EffectsOfMore(effect, world.state, pending[0], ApplyAll(sum, pending[1..], session, next).applied);
    }
  }

  lemma {:induction false} MaxIsLast<C>(history: seq<Row<C>>)
    requires RanksIncrease(history)
    ensures MaxRank(history) == if history == [] then 0 else history[|history| - 1].rank
  {
    if |history| > 1 { MaxIsLast(history[..|history| - 1]); }
  }

  lemma {:induction false} RunRanks<S, C>(
      sum: string -> C, pending: seq<ScriptFile>, session: Session<S, C>, world: World<S, C>)
    requires RanksIncrease(world.history)
    ensures RanksGoOn(ApplyAll(sum, pending, session, world).world.history, |world.history|)
    decreases |pending|
  {
    if pending != [] && Committed(sum, session, world, pending[0]).Some? {
      var next := Committed(sum, session, world, pending[0]).value;
      RestOfRun(sum, pending, session, world);
      NewRank(sum, world.history, pending[0]);
      RunRanks(sum, pending[1..], session, next);
      ApplyKeepsRanks(sum, pending[1..], session, next);
      var after := ApplyAll(sum, pending[1..], session, next).world.history;
      OneMoreRank(world.history, NewRow(sum, world.history, pending[0]), after);
    }
  }

  lemma NewRank<C>(sum: string -> C, history: seq<Row<C>>, file: ScriptFile)
    requires RanksIncrease(history)
    ensures NewRow(sum, history, file).rank == if history == [] then 1 else history[|history| - 1].rank + 1
    ensures RanksIncrease(history + [NewRow(sum, history, file)])
  {
    MaxIsLast(history);
    RankIsNew(history);
    RanksAppend(history, NewRow(sum, history, file));
  }

  lemma OneMoreRank<C>(history: seq<Row<C>>, row: Row<C>, after: seq<Row<C>>)
    requires history + [row] <= after && RanksGoOn(after, |history| + 1)
    requires row.rank == if history == [] then 1 else history[|history| - 1].rank + 1
    ensures RanksGoOn(after, |history|)
  {
    var n := |history|;
    assert after[n] == (history + [row])[n] && (n > 0 ==> after[n - 1] == (history + [row])[n - 1]);
  }

  /** After a run each applied file's version has its own checksum on record. */
  lemma AppliedIsRecorded<S, C>(
      sum: string -> C, files: seq<ScriptFile>, session: Session<S, C>, world: World<S, C>, file: ScriptFile)
    requires UniqueVersions(files)
    requires file in ApplyAll(sum, Pending(files, world.history), session, world).applied
    ensures
      var history := ApplyAll(sum, Pending(files, world.history), session, world).world.history;
      exists i: nat :: LastSuccess(history, file.version, i) && Records(sum, history[i], file)
  {
    var pending := Pending(files, world.history);
    var run := ApplyAll(sum, pending, session, world);
    RunRecords(sum, pending, session, world);
    PendingVersions(files, world.history);
    var k :| 0 <= k < |run.applied| && run.applied[k] == file;
    LastOfRows(sum, run.world.history, |world.history|, run.applied, k);
  }

  lemma LastOfRows<C>(sum: string -> C, history: seq<Row<C>>, n: nat, applied: seq<ScriptFile>, k: nat)
    requires n <= |history| && RowsFor(sum, history[n..], applied) && UniqueVersions(applied) && k < |applied|
    ensures LastSuccess(history, applied[k].version, n + k) && Records(sum, history[n + k], applied[k])
  {
    assert history[n..][k] == history[n + k];
    forall j | n + k < j < |history| ensures !Succeeded(history[j], applied[k].version) {
      assert history[n..][j - n] == history[j];
      assert Records(sum, history[j], applied[j - n]);
    }
  }

  lemma {:induction false} PendingVersions<C>(files: seq<ScriptFile>, history: seq<Row<C>>)
    requires UniqueVersions(files)
    ensures UniqueVersions(Pending(files, history))
  {
    if files != [] {
      var tail := files[1..];
      assert forall i :: 0 <= i < |tail| ==> tail[i] == files[i + 1];
      PendingVersions(tail, history);
      PendingOnly(tail, history);
      forall f | f in Pending(tail, history) ensures f.version != files[0].version {
        var i :| 0 <= i < |tail| && tail[i] == f;
        assert files[i + 1].version != files[0].version;
      }
    }
  }

  /**
   * After any run that applied a script, an edit of it within four consecutive bytes of its normalized text
   * fails the next status check.
   */
  lemma EditAfterRunIsReported<S>(
      files: seq<ScriptFile>, session: Session<S, Word>, world: World<S, Word>, i: nat, sql: string,
      prefix: seq<Octet>, was: seq<Octet>, now: seq<Octet>, suffix: seq<Octet>)
    requires UniqueVersions(files) && i < |files|
    requires files[i] in ApplyAll(ScriptChecksum, Pending(files, world.history), session, world).applied
    requires |was| == |now| <= 4 && was != now
    requires ScriptBytes(files[i].sql) == prefix + was + suffix && ScriptBytes(sql) == prefix + now + suffix
    ensures
      var after := ApplyAll(ScriptChecksum, Pending(files, world.history), session, world).world.history;
      StatusOf(ScriptChecksum, files[i := files[i].(sql := sql)], after).Err?
  {
    var after := ApplyAll(ScriptChecksum, Pending(files, world.history), session, world).world.history;
    var edited := files[i := files[i].(sql := sql)];
    AppliedIsRecorded(ScriptChecksum, files, session, world, files[i]);
    BurstIsDetected(prefix, was, now, suffix);
    var k: nat :| LastSuccess(after, files[i].version, k) && Records(ScriptChecksum, after[k], files[i]);
    assert Changed(ScriptChecksum, after, edited[i]);
    StatusExact(ScriptChecksum, edited, after);
  }

  // ---- Repair ----

  ghost predicate LastListed(files: seq<ScriptFile>, version: string, k: nat) {
    k < |files| && files[k].version == version && forall j :: k < j < |files| ==> files[j].version != version
  }

  lemma {:induction false} FileForExact(files: seq<ScriptFile>, version: string)
    ensures
      match FileFor(files, version)
      case None => forall k :: 0 <= k < |files| ==> files[k].version != version
      case Some(file) => exists k: nat :: LastListed(files, version, k) && files[k] == file
  {
    if files != [] {
      var init, last := files[..|files| - 1], files[|files| - 1];
      FileForExact(init, version);
      if last.version == version {
        assert LastListed(files, version, |init|);
      } else if FileFor(init, version).Some? {
        var k: nat :| LastListed(init, version, k) && init[k] == FileFor(init, version).value;
        assert LastListed(files, version, k);
      }
    }
  }

  /** A row as repair leaves it: the same but for its checksum, which is that of the last listed file of its version. */
  ghost predicate RepairedAs<C>(sum: string -> C, files: seq<ScriptFile>, row: Row<C>, out: Row<C>) {
    && row.success && out.(checksum := row.checksum) == row
    && (forall k: nat :: row.version.Some? && LastListed(files, row.version.value, k) ==>
          out.checksum == Some(sum(files[k].sql)))
    && ((row.version.None? || forall k :: 0 <= k < |files| ==> files[k].version != row.version.value) ==>
          out.checksum == row.checksum)
  }

  lemma FixedIsRepaired<C>(sum: string -> C, files: seq<ScriptFile>, row: Row<C>, out: Row<C>)
    requires row.success
    ensures RepairedAs(sum, files, row, out) <==> out == FixedRow(sum, files, row)
  {
    if row.version.Some? {
      FileForExact(files, row.version.value);
      if FileFor(files, row.version.value).Some? {
        var k: nat :| LastListed(files, row.version.value, k) && files[k] == FileFor(files, row.version.value).value;
        forall m: nat | LastListed(files, row.version.value, m) ensures m == k {}
      }
    }
  }

  /** Repair leaves exactly the successful rows, each as above, in the order of their ranks. */
  lemma {:induction false} RepairedExact<C>(sum: string -> C, files: seq<ScriptFile>, history: seq<Row<C>>, out: Row<C>)
    ensures out in Repaired(sum, files, history) <==> exists row :: row in history && RepairedAs(sum, files, row, out)
    ensures RanksIncrease(history) ==> RanksIncrease(Repaired(sum, files, history))
  {
    if history != [] {
      var init, last := history[..|history| - 1], history[|history| - 1];
      assert history == init + [last];
      RepairedExact(sum, files, init, out);
      if last.success { FixedIsRepaired(sum, files, last, out); }
    }
    if RanksIncrease(history) { RepairedRanks(sum, files, history); }
  }

  function RanksOf<C>(rows: seq<Row<C>>): seq<int> {
    seq(|rows|, i requires 0 <= i < |rows| => rows[i].rank)
  }

  /** The report names the ranks of the failed rows, in order. */
  lemma {:induction false} FailedRanksExact<C>(history: seq<Row<C>>)
    ensures FailedRanks(history) == RanksOf(Filter((r: Row<C>) => !r.success, history))
  {
    if history != [] {
      var init, last := history[..|history| - 1], history[|history| - 1];
      assert history == init + [last];
      FailedRanksExact(init);
      FilterLast((r: Row<C>) => !r.success, init, last);
      RanksOfMore(Filter((r: Row<C>) => !r.success, init), last);
      NothingAdded(FailedRanks(init));
      NothingAdded(Filter((r: Row<C>) => !r.success, init));
    }
  }

  lemma RanksOfMore<C>(rows: seq<Row<C>>, row: Row<C>)
    ensures RanksOf(rows + [row]) == RanksOf(rows) + [row.rank]
  {}

  /** A row that makes repair report the file. */
  ghost predicate Realigns<C>(sum: string -> C, files: seq<ScriptFile>, row: Row<C>, file: ScriptFile) {
    && row.success && row.version.Some? && row.checksum != Some(sum(file.sql))
    && exists k: nat :: LastListed(files, row.version.value, k) && files[k] == file
  }

  /** And the files whose checksum some successful row did not have. */
  lemma {:induction false} RealignedExact<C>(
      sum: string -> C, files: seq<ScriptFile>, history: seq<Row<C>>, file: ScriptFile)
    ensures file in Realigned(sum, files, history) <==> exists row :: row in history && Realigns(sum, files, row, file)
  {
    if history != [] {
      var init, last := history[..|history| - 1], history[|history| - 1];
      assert history == init + [last];
      RealignedExact(sum, files, init, file);
      ReportedRow(sum, files, last, file);
    }
  }

  lemma ReportedRow<C>(sum: string -> C, files: seq<ScriptFile>, row: Row<C>, file: ScriptFile)
    ensures file in RealignedRow(sum, files, row) <==> Realigns(sum, files, row, file)
  {
    if row.version.Some? {
      FileForExact(files, row.version.value);
      if FileFor(files, row.version.value).Some? {
        var k: nat :| LastListed(files, row.version.value, k) && files[k] == FileFor(files, row.version.value).value;
        forall m: nat | LastListed(files, row.version.value, m) ensures m == k {}
      }
    }
  }
}
