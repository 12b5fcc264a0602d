/**
 * Flyway-style migrations: status, apply (one transaction a file) and repair, over a history
 * table ordered by its primary key. Script execution and the checksum are parameters.
 */
module Migration {
  import opened Prelude

  /** A migration file with its parsed name, in the order `listMigrationFiles` gives. */
  datatype ScriptFile = ScriptFile(name: string, version: string, description: string, sql: string)

  datatype Row<C> = Row(
    rank: int, version: Option<string>, description: string, script: string,
    checksum: Option<C>, success: bool)

  datatype Status = Status(applied: seq<ScriptFile>, pending: seq<ScriptFile>)

  datatype Mismatch<C> = Mismatch(file: ScriptFile, recorded: C, current: C)

  // ---- Status ----

  /** The row that counts for a version: the last successful one. */
  function AppliedRow<C>(history: seq<Row<C>>, version: string): Option<Row<C>> {
    if history == [] then None
    else
      var row := history[|history| - 1];
      if row.success && row.version == Some(version) then Some(row)
      else AppliedRow(history[..|history| - 1], version)
  }

  predicate IsApplied<C>(history: seq<Row<C>>, file: ScriptFile) {
    AppliedRow(history, file.version).Some?
  }

  /** The recorded checksum of an applied file, where there is one, is not that of its text. */
  predicate Edited<C(==)>(sum: string -> C, history: seq<Row<C>>, file: ScriptFile) {
    var row := AppliedRow(history, file.version);
    row.Some? && row.value.checksum.Some? && row.value.checksum.value != sum(file.sql)
  }

  function Pending<C>(files: seq<ScriptFile>, history: seq<Row<C>>): seq<ScriptFile> {
    if files == [] then []
    else (if IsApplied(history, files[0]) then [] else [files[0]]) + Pending(files[1..], history)
  }

  function Applied<C>(files: seq<ScriptFile>, history: seq<Row<C>>): seq<ScriptFile> {
    if files == [] then []
    else (if IsApplied(history, files[0]) then [files[0]] else []) + Applied(files[1..], history)
  }

  function FirstEdited<C(==)>(sum: string -> C, files: seq<ScriptFile>, history: seq<Row<C>>): Option<ScriptFile> {
    if files == [] then None
    else if Edited(sum, history, files[0]) then Some(files[0])
    else FirstEdited(sum, files[1..], history)
  }

  function StatusOf<C(==)>(
      sum: string -> C, files: seq<ScriptFile>, history: seq<Row<C>>): Result<Status, Mismatch<C>>
  {
    match FirstEdited(sum, files, history)
    case None => Ok(Status(Applied(files, history), Pending(files, history)))
    case Some(file) =>
      FirstEditedIsEdited(sum, files, history);
      Err(Mismatch(file, AppliedRow(history, file.version).value.checksum.value, sum(file.sql)))
  }

  lemma {:induction false} FirstEditedIsEdited<C>(sum: string -> C, files: seq<ScriptFile>, history: seq<Row<C>>)
    ensures
      match FirstEdited(sum, files, history)
      case Some(file) => file in files && Edited(sum, history, file)
      case None => forall f :: f in files ==> !Edited(sum, history, f)
  {
    if files != [] && !Edited(sum, history, files[0]) {
      FirstEditedIsEdited(sum, files[1..], history);
      assert files == [files[0]] + files[1..];
    }
  }

  lemma StatusNext<C>(
      sum: string -> C, files: seq<ScriptFile>, history: seq<Row<C>>, i: nat, applied: seq<ScriptFile>,
      pending: seq<ScriptFile>)
    requires i < |files|
    ensures
      var file := files[i];
      && FirstEdited(sum, files[i..], history)
        == (if Edited(sum, history, file) then Some(file) else FirstEdited(sum, files[i + 1..], history))
      && applied + Applied(files[i..], history)
         == (if IsApplied(history, file) then applied + [file] else applied) + Applied(files[i + 1..], history)
      && pending + Pending(files[i..], history)
         == (if IsApplied(history, file) then pending else pending + [file]) + Pending(files[i + 1..], history)
  {
    assert files[i..][1..] == files[i + 1..];
    Regroup(applied, [files[i]], Applied(files[i + 1..], history));
    Regroup(pending, [files[i]], Pending(files[i + 1..], history));
    NothingAdded(Applied(files[i + 1..], history));
    NothingAdded(Pending(files[i + 1..], history));
  }

  // ---- Apply ----

  function MaxRank<C>(history: seq<Row<C>>): int {
    if history == [] then 0
    else if |history| == 1 then history[0].rank
    else
      var m := MaxRank(history[..|history| - 1]);
      if m < history[|history| - 1].rank then history[|history| - 1].rank else m
  }

  function NewRow<C>(sum: string -> C, history: seq<Row<C>>, file: ScriptFile): Row<C> {
    Row(MaxRank(history) + 1, Some(file.version), file.description, file.name, Some(sum(file.sql)), true)
  }

  /** The history table and the rest of the database. */
  datatype World<S, C> = World(history: seq<Row<C>>, state: S)

  /** What a script leaves in an open transaction, and whether it got through. */
  datatype Attempt<S> = Attempt(state: S, ok: bool)

  /**
   * One run's dealings with the database: the script, the query for the next rank, the history insert and
   * the commit. Each can fail, a script halfway through.
   */
  datatype Session<!S, !C> = Session(
    run: (S, string) -> Attempt<S>,
    ranks: seq<Row<C>> -> bool,
    inserts: (seq<Row<C>>, Row<C>) -> bool,
    commits: World<S, C> -> bool)

  /** What stands after one file's transaction, if it commits: script effect and history row together. */
  function Committed<S, C>(
      sum: string -> C, session: Session<S, C>, world: World<S, C>, file: ScriptFile): Option<World<S, C>>
  {
    var attempt, row := session.run(world.state, file.sql), NewRow(sum, world.history, file);
    var next := World(world.history + [row], attempt.state);
    if attempt.ok && session.ranks(world.history) && session.inserts(world.history, row) && session.commits(next)
    then Some(next)
    else None
  }

  datatype Run<S, C> = Run(world: World<S, C>, applied: seq<ScriptFile>, failed: Option<ScriptFile>)

  function ApplyAll<S, C>(
      sum: string -> C, pending: seq<ScriptFile>, session: Session<S, C>, world: World<S, C>): Run<S, C>
    decreases |pending|
  {
    if pending == [] then Run(world, [], None)
    else
      match Committed(sum, session, world, pending[0])
      case None => Run(world, [], Some(pending[0]))
      case Some(next) =>
        var rest := ApplyAll(sum, pending[1..], session, next);
        Run(rest.world, [pending[0]] + rest.applied, rest.failed)
  }

  lemma ApplyNext<S, C>(
      sum: string -> C, pending: seq<ScriptFile>, i: nat, session: Session<S, C>, world: World<S, C>)
    requires i < |pending|
    ensures
      var run := ApplyAll(sum, pending[i..], session, world);
      match Committed(sum, session, world, pending[i])
      case None => run.world == world && run.failed == Some(pending[i])
      case Some(next) =>
        var rest := ApplyAll(sum, pending[i + 1..], session, next);
        run.world == rest.world && run.failed == rest.failed
  {
    assert pending[i..][1..] == pending[i + 1..];
  }

  /** One `migrate` run; an edited file stops it before anything is applied. */
  function Migrate<S, C(==)>(
      sum: string -> C, files: seq<ScriptFile>, session: Session<S, C>, world: World<S, C>): World<S, C>
  {
    match StatusOf(sum, files, world.history)
    case Err(_) => world
    case Ok(status) => ApplyAll(sum, status.pending, session, world).world
  }

  // ---- Repair ----

  /** The file that speaks for a version: the last one listed. */
  function FileFor(files: seq<ScriptFile>, version: string): Option<ScriptFile> {
    if files == [] then None
    else if files[|files| - 1].version == version then Some(files[|files| - 1])
    else FileFor(files[..|files| - 1], version)
  }

  /** A successful row with a version and a file takes that file's checksum. */
  function FixedRow<C>(sum: string -> C, files: seq<ScriptFile>, row: Row<C>): Row<C> {
    if row.version.Some? && FileFor(files, row.version.value).Some? then
      row.(checksum := Some(sum(FileFor(files, row.version.value).value.sql)))
    else row
  }

  /** A failed row goes. */
  function RepairRow<C>(sum: string -> C, files: seq<ScriptFile>, row: Row<C>): seq<Row<C>> {
    if row.success then [FixedRow(sum, files, row)] else []
  }

  function Repaired<C>(sum: string -> C, files: seq<ScriptFile>, history: seq<Row<C>>): seq<Row<C>> {
    if history == [] then []
    else Repaired(sum, files, history[..|history| - 1]) + RepairRow(sum, files, history[|history| - 1])
  }

  /** Repair's dealings with the files and the table, row by row, and its commit. */
  datatype RepairSession<!C> = RepairSession(handles: (seq<Row<C>>, Row<C>) -> bool, commits: seq<Row<C>> -> bool)

  /** Repair does something for failed rows and for rows with a file; the others it passes over. */
  predicate Touched<C>(files: seq<ScriptFile>, row: Row<C>) {
    !row.success || (row.version.Some? && FileFor(files, row.version.value).Some?)
  }

  predicate Handled<C>(files: seq<ScriptFile>, session: RepairSession<C>, table: seq<Row<C>>, row: Row<C>) {
    Touched(files, row) ==> session.handles(table, row)
  }

  /** Row by row over the table as repaired so far, no read or statement fails. */
  predicate RowsHandled<C>(sum: string -> C, files: seq<ScriptFile>, session: RepairSession<C>, rows: seq<Row<C>>) {
    forall i :: 0 <= i < |rows| ==> Handled(files, session, Repaired(sum, files, rows[..i]) + rows[i..], rows[i])
  }

  predicate RepairWorks<C>(sum: string -> C, files: seq<ScriptFile>, session: RepairSession<C>, rows: seq<Row<C>>) {
    RowsHandled(sum, files, session, rows) && session.commits(Repaired(sum, files, rows))
  }

  datatype Report = Report(realigned: seq<ScriptFile>, removedFailed: seq<int>)

  // ---- The database object ----

  ghost predicate RanksIncrease<C>(history: seq<Row<C>>) {
    forall i, j :: 0 <= i < j < |history| ==> history[i].rank < history[j].rank
  }

  /** The file for each version; a later file replaces an earlier one. */
  method FilesByVersion(files: seq<ScriptFile>) returns (byVersion: map<string, ScriptFile>)
    ensures forall v :: v in byVersion <==> FileFor(files, v).Some?
    ensures forall v :: v in byVersion ==> FileFor(files, v) == Some(byVersion[v])
  {
    byVersion := map[];
    for i := 0 to |files|
      invariant forall v :: (v in byVersion <==> FileFor(files[..i], v).Some?)
      invariant forall v :: v in byVersion ==> FileFor(files[..i], v) == Some(byVersion[v])
    {
      assert files[..i + 1][..i] == files[..i];
      byVersion := byVersion[files[i].version := files[i]];
    }
    assert files[..|files|] == files;
  }

  datatype Outcome<C> =
    | Done(applied: seq<ScriptFile>, skipped: seq<ScriptFile>, dryRun: bool)
    | Failed(file: ScriptFile)
    | Refused(mismatch: Mismatch<C>)

  class Database<S, C(==)> {
    var history: seq<Row<C>>
    var state: S
    var saved: Option<World<S, C>>
    const sum: string -> C

    /** Between transactions. */
    ghost predicate Valid()
      reads this
    {
      RanksIncrease(history) && saved.None?
    }

    ghost function Contents(): World<S, C>
      reads this
    {
      World(history, state)
    }

    constructor (state: S, sum: string -> C)
      ensures Valid() && Contents() == World([], state) && this.sum == sum
    {
      history := [];
      this.state := state;
      saved := None;
      this.sum := sum;
    }

    method Begin()
      requires saved.None?
      modifies this`saved
      ensures saved == Some(Contents())
    {
      saved := Some(World(history, state));
    }

    method Commit()
      requires saved.Some?
      modifies this`saved
      ensures saved.None?
    {
      saved := None;
    }

    method Rollback()
      requires saved.Some?
      modifies this
      ensures saved.None? && Contents() == old(saved.value)
    {
      history, state, saved := saved.value.history, saved.value.state, None;
    }

    /** The row that counts for each version; a later successful row replaces an earlier one. */
    method IndexByVersion() returns (byVersion: map<string, Row<C>>)
      ensures forall v :: v in byVersion <==> AppliedRow(history, v).Some?
      ensures forall v :: v in byVersion ==> AppliedRow(history, v) == Some(byVersion[v])
    {
      byVersion := map[];
      for i := 0 to |history|
        invariant forall v :: (v in byVersion <==> AppliedRow(history[..i], v).Some?)
        invariant forall v :: v in byVersion ==> AppliedRow(history[..i], v) == Some(byVersion[v])
      {
        assert history[..i + 1][..i] == history[..i];
        var row := history[i];
        if row.version.Some? && row.success {
          byVersion := byVersion[row.version.value := row];
        }
      }
      assert history[..|history|] == history;
    }

    method GetMigrationStatus(files: seq<ScriptFile>) returns (status: Result<Status, Mismatch<C>>)
      requires Valid()
      ensures status == StatusOf(sum, files, history)
    {
      var byVersion := IndexByVersion();
      var applied: seq<ScriptFile>, pending: seq<ScriptFile> := [], [];
      for i := 0 to |files|
        invariant applied + Applied(files[i..], history) == Applied(files, history)
        invariant pending + Pending(files[i..], history) == Pending(files, history)
        invariant FirstEdited(sum, files[i..], history) == FirstEdited(sum, files, history)
      {
        var file := files[i];
        StatusNext(sum, files, history, i, applied, pending);
        if file.version !in byVersion {
          pending := pending + [file];
          continue;
        }
        var row := byVersion[file.version];
        applied := applied + [file];
        var checksum := sum(file.sql);
        if row.checksum.Some? && row.checksum.value != checksum {
          return Err(Mismatch(file, row.checksum.value, checksum));
        }
      }
      assert applied + [] == applied && pending + [] == pending;
      status := Ok(Status(applied, pending));
    }

    method ApplyOneFile(file: ScriptFile, session: Session<S, C>) returns (ok: bool)
      requires Valid()
      modifies this
      ensures Valid()
      ensures ok == Committed(sum, session, old(Contents()), file).Some?
      ensures Contents() == if ok then Committed(sum, session, old(Contents()), file).value else old(Contents())
    {
      var checksum := sum(file.sql);
      Begin();
      var attempt := session.run(state, file.sql);
      state := attempt.state;
      if attempt.ok && session.ranks(history) {
        var rank := MaxRank(history) + 1;
        var row := Row(rank, Some(file.version), file.description, file.name, Some(checksum), true);
        if session.inserts(history, row) {
          RankIsNew(history);
          history := history + [row];
          if session.commits(World(history, state)) {
            Commit();
            return true;
          }
        }
      }
      Rollback();
      return false;
    }

    method ApplyPendingMigrations(
        files: seq<ScriptFile>, session: Session<S, C>, dryRun: bool) returns (outcome: Outcome<C>)
      requires Valid()
      modifies this
      ensures Valid()
      ensures Contents() == if dryRun then old(Contents()) else Migrate(sum, files, session, old(Contents()))
      ensures
        match StatusOf(sum, files, old(history))
        case Err(mismatch) => outcome == Refused(mismatch)
        case Ok(status) =>
          var run := ApplyAll(sum, status.pending, session, old(Contents()));
          outcome ==
            if dryRun then Done(status.pending, status.applied, true)
            else if run.failed.Some? then Failed(run.failed.value)
            else Done(status.pending, status.applied, false)
    {
      var checked := GetMigrationStatus(files);
      if checked.Err? {
        return Refused(checked.error);
      }
      var status := checked.value;
      if |status.pending| == 0 {
        return Done([], status.applied, dryRun);
      }
      if dryRun {
        return Done(status.pending, status.applied, true);
      }
      var applied: seq<ScriptFile> := [];
      ghost var whole := ApplyAll(sum, status.pending, session, Contents());
      for i := 0 to |status.pending|
        invariant Valid() && applied == status.pending[..i]
        invariant
          var rest := ApplyAll(sum, status.pending[i..], session, Contents());
          rest.world == whole.world && rest.failed == whole.failed
      {
        ApplyNext(sum, status.pending, i, session, Contents());
        var ok := ApplyOneFile(status.pending[i], session);
        if !ok {
          return Failed(status.pending[i]);
        }
        applied := applied + [status.pending[i]];
      }
      return Done(applied, status.applied, dryRun);
    }

    /** The statement issued for one row, if any. */
    method RepairOne(row: Row<C>, file: Option<ScriptFile>) returns (removed: bool, changed: bool)
      modifies this`history
      ensures removed == !row.success
      ensures changed == (row.success && file.Some? && row.checksum != Some(sum(file.value.sql)))
      ensures history ==
        if removed then DeleteByRank(old(history), row.rank)
        else if changed then SetChecksum(old(history), row.rank, sum(file.value.sql))
        else old(history)
    {
      if !row.success {
        history := DeleteByRank(history, row.rank);
        return true, false;
      }
      if file.None? {
        return false, false;
      }
      var checksum := sum(file.value.sql);
      if row.checksum != Some(checksum) {
        history := SetChecksum(history, row.rank, checksum);
        return false, true;
      }
      return false, false;
    }

    /** One transaction over the whole table. */
    method RepairHistory(files: seq<ScriptFile>, session: RepairSession<C>) returns (report: Option<Report>)
      requires Valid()
      modifies this
      ensures Valid() && state == old(state)
      ensures report.Some? <==> RepairWorks(sum, files, session, old(history))
      ensures history == if report.Some? then Repaired(sum, files, old(history)) else old(history)
      ensures report.Some? ==> report.value == Report(Realigned(sum, files, old(history)), FailedRanks(old(history)))
    {
      var rows := history;
      var byVersion := FilesByVersion(files);
      var realigned: seq<ScriptFile>, removedFailed: seq<int> := [], [];
      Begin();
      RepairStart(sum, files, rows);
      for i := 0 to |rows|
        invariant saved == Some(World(rows, state)) && state == old(state)
        invariant Repairing(sum, files, rows, i, history, realigned, removedFailed)
        invariant
          forall k :: 0 <= k < i ==> Handled(files, session, Repaired(sum, files, rows[..k]) + rows[k..], rows[k])
      {
        var row := rows[i];
        var file := if row.version.Some? && row.version.value in byVersion then Some(byVersion[row.version.value])
          else None;
        if (!row.success || file.Some?) && !session.handles(history, row) {
          Rollback();
          return None;
        }
        ghost var was, done, gone := history, realigned, removedFailed;
        var removed, changed := RepairOne(row, file);
        if removed {
          removedFailed := removedFailed + [row.rank];
        } else if changed {
          realigned := realigned + [file.value];
        }
        RepairStep(sum, files, rows, i, was, done, gone, file);
      }
      RepairEnd(sum, files, rows, history, realigned, removedFailed);
      if !session.commits(history) {
        Rollback();
        return None;
      }
      Commit();
      return Some(Report(realigned, removedFailed));
    }
  }

  /** The repair loop after `i` rows. */
  ghost predicate Repairing<C>(
      sum: string -> C, files: seq<ScriptFile>, rows: seq<Row<C>>, i: nat,
      history: seq<Row<C>>, realigned: seq<ScriptFile>, removedFailed: seq<int>) {
    && i <= |rows| && RanksIncrease(rows)
    && history == Repaired(sum, files, rows[..i]) + rows[i..]
    && realigned == Realigned(sum, files, rows[..i])
    && removedFailed == FailedRanks(rows[..i])
  }

  lemma RepairStart<C>(sum: string -> C, files: seq<ScriptFile>, rows: seq<Row<C>>)
    requires RanksIncrease(rows)
    ensures Repairing(sum, files, rows, 0, rows, [], [])
  {
    assert rows[0..] == rows;
  }

  lemma RepairEnd<C>(
      sum: string -> C, files: seq<ScriptFile>, rows: seq<Row<C>>,
      history: seq<Row<C>>, realigned: seq<ScriptFile>, removedFailed: seq<int>)
    requires Repairing(sum, files, rows, |rows|, history, realigned, removedFailed)
    ensures history == Repaired(sum, files, rows) && RanksIncrease(history)
    ensures realigned == Realigned(sum, files, rows) && removedFailed == FailedRanks(rows)
  {
    assert rows[..|rows|] == rows && rows[|rows|..] == [];
    RepairedRanks(sum, files, rows);
  }

  /** What the branch taken for a row does to the table. */
  function TableAfter<C(==)>(sum: string -> C, row: Row<C>, file: Option<ScriptFile>, table: seq<Row<C>>): seq<Row<C>> {
    if !row.success then DeleteByRank(table, row.rank)
    else if file.Some? && row.checksum != Some(sum(file.value.sql)) then
      SetChecksum(table, row.rank, sum(file.value.sql))
    else table
  }

  /** One pass of the repair loop moves row `i` from the unread part to the repaired part. */
  lemma RepairStep<C>(
      sum: string -> C, files: seq<ScriptFile>, rows: seq<Row<C>>, i: nat,
      history: seq<Row<C>>, realigned: seq<ScriptFile>, removedFailed: seq<int>, file: Option<ScriptFile>)
    requires i < |rows| && Repairing(sum, files, rows, i, history, realigned, removedFailed)
    requires file == if rows[i].version.Some? then FileFor(files, rows[i].version.value) else None
    ensures Repairing(
              sum, files, rows, i + 1, TableAfter(sum, rows[i], file, history),
              if rows[i].success && file.Some? && rows[i].checksum != Some(sum(file.value.sql))
              then realigned + [file.value] else realigned,
              if rows[i].success then removedFailed else removedFailed + [rows[i].rank])
  {
    var row, before, after := rows[i], Repaired(sum, files, rows[..i]), rows[i + 1..];
    assert rows[..i + 1][..i] == rows[..i];
    assert rows[i..] == [row] + after;
    OtherRanks(sum, files, rows, i);
    RepairRowInPlace(sum, files, before, row, after, file);
    assert realigned + [] == realigned && removedFailed + [] == removedFailed;
  }

  lemma RepairRowInPlace<C>(
      sum: string -> C, files: seq<ScriptFile>, before: seq<Row<C>>, row: Row<C>, after: seq<Row<C>>,
      file: Option<ScriptFile>)
    requires forall r :: r in before || r in after ==> r.rank != row.rank
    requires file == if row.version.Some? then FileFor(files, row.version.value) else None
    ensures TableAfter(sum, row, file, before + ([row] + after)) == (before + RepairRow(sum, files, row)) + after
  {
    if !row.success {
      DeleteOne(before, row, after);
      assert before + [] == before;
    } else if file.Some? {
      var checksum := sum(file.value.sql);
      UpdateOne(before, row, after, checksum);
      Regroup(before, [row.(checksum := Some(checksum))], after);
    } else {
      Regroup(before, [row], after);
    }
  }

  lemma OtherRanks<C>(sum: string -> C, files: seq<ScriptFile>, rows: seq<Row<C>>, i: nat)
    requires RanksIncrease(rows) && i < |rows|
    ensures forall r :: r in Repaired(sum, files, rows[..i]) || r in rows[i + 1..] ==> r.rank != rows[i].rank
  {
    RepairedRanks(sum, files, rows[..i]);
    if i > 0 {
      assert rows[..i][i - 1] == rows[i - 1];
    }
  }

  /** Files whose recorded checksum `repair` changes, row by row. */
  function Realigned<C(==)>(sum: string -> C, files: seq<ScriptFile>, history: seq<Row<C>>): seq<ScriptFile> {
    if history == [] then []
    else Realigned(sum, files, history[..|history| - 1]) + RealignedRow(sum, files, history[|history| - 1])
  }

  function RealignedRow<C(==)>(sum: string -> C, files: seq<ScriptFile>, row: Row<C>): seq<ScriptFile> {
    if row.success && row.version.Some? && FileFor(files, row.version.value).Some?
      && RepairRow(sum, files, row) != [row]
    then [FileFor(files, row.version.value).value]
    else []
  }

  function FailedRanks<C>(history: seq<Row<C>>): seq<int> {
    if history == [] then []
    else
      FailedRanks(history[..|history| - 1])
      + if history[|history| - 1].success then [] else [history[|history| - 1].rank]
  }

  function DeleteByRank<C>(history: seq<Row<C>>, rank: int): seq<Row<C>> {
    if history == [] then []
    else (if history[0].rank == rank then [] else [history[0]]) + DeleteByRank(history[1..], rank)
  }

  function SetChecksum<C>(history: seq<Row<C>>, rank: int, checksum: C): seq<Row<C>> {
    seq(|history|, i requires 0 <= i < |history| =>
      if history[i].rank == rank then history[i].(checksum := Some(checksum)) else history[i])
  }

  lemma {:induction false} DeleteNone<C>(history: seq<Row<C>>, rank: int)
    requires forall row :: row in history ==> row.rank != rank
    ensures DeleteByRank(history, rank) == history
  {
    if history != [] {
      assert history == [history[0]] + history[1..];
      DeleteNone(history[1..], rank);
    }
  }

  lemma {:induction false} DeleteOne<C>(before: seq<Row<C>>, row: Row<C>, after: seq<Row<C>>)
    requires forall r :: r in before || r in after ==> r.rank != row.rank
    ensures DeleteByRank(before + ([row] + after), row.rank) == before + after
  {
    if before == [] {
      assert before + ([row] + after) == [row] + after;
      assert ([row] + after)[1..] == after;
      DeleteNone(after, row.rank);
      assert before + after == after;
    } else {
      assert (before + ([row] + after))[1..] == before[1..] + ([row] + after);
      DeleteOne(before[1..], row, after);
      assert before[0] in before;
      assert [before[0]] + (before[1..] + after) == before + after;
    }
  }

  lemma UpdateOne<C>(before: seq<Row<C>>, row: Row<C>, after: seq<Row<C>>, checksum: C)
    requires forall r :: r in before || r in after ==> r.rank != row.rank
    ensures SetChecksum(before + ([row] + after), row.rank, checksum)
            == before + ([row.(checksum := Some(checksum))] + after)
  {
    var whole := before + ([row] + after);
    forall i | 0 <= i < |whole| && i != |before|
      ensures whole[i].rank != row.rank
    {
      assert whole[i] in before || whole[i] in after;
    }
  }

  // ---- Ranks ----

  lemma {:induction false} RankIsNew<C>(history: seq<Row<C>>)
    requires RanksIncrease(history)
    ensures forall row :: row in history ==> row.rank < MaxRank(history) + 1
  {
    if |history| > 1 {
      RankIsNew(history[..|history| - 1]);
      assert history == history[..|history| - 1] + [history[|history| - 1]];
    }
  }

  lemma {:induction false} RepairedRanks<C>(sum: string -> C, files: seq<ScriptFile>, rows: seq<Row<C>>)
    requires RanksIncrease(rows)
    ensures RanksIncrease(Repaired(sum, files, rows))
    ensures forall r :: r in Repaired(sum, files, rows) ==> rows != [] && r.rank <= rows[|rows| - 1].rank
  {
    if rows != [] {
      var init, row := rows[..|rows| - 1], rows[|rows| - 1];
      RepairedRanks(sum, files, init);
      if init != [] {
        assert init[|init| - 1] == rows[|rows| - 2];
      }
      if row.success {
        RanksAppend(Repaired(sum, files, init), FixedRow(sum, files, row));
      } else {
        assert Repaired(sum, files, rows) == Repaired(sum, files, init) + [] == Repaired(sum, files, init);
      }
    }
  }

  lemma RanksAppend<C>(history: seq<Row<C>>, row: Row<C>)
    requires RanksIncrease(history) && forall r :: r in history ==> r.rank < row.rank
    ensures RanksIncrease(history + [row])
  {
    forall i | 0 <= i < |history|
      ensures history[i].rank < row.rank
    {
      assert history[i] in history;
    }
  }
}
