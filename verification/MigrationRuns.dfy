/** What holds over whole series of migration runs, after repair, and after an edit. */
module MigrationRuns {
  import opened Prelude
  import opened Checksum
  import opened ScriptText
  import opened Migration

  ghost predicate UniqueVersions(files: seq<ScriptFile>) {
    forall i, j :: 0 <= i < j < |files| ==> files[i].version != files[j].version
  }

  // ---- Failed runs and retries ----

  /** A script that gets through has the same effect in every run; whether it does may change from run to run. */
  ghost predicate Deterministic<S(!new), C>(session: Session<S, C>, effect: (S, string) -> S) {
    forall s, sql :: session.run(s, sql).ok ==> session.run(s, sql).state == effect(s, sql)
  }

  function Faultless<S, C>(effect: (S, string) -> S): Session<S, C> {
    Session((s: S, sql: string) => Attempt(effect(s, sql), true), _ => true, (_, _) => true, _ => true)
  }

  /** Whatever fails in it, one file's transaction does what a faultless one does, or nothing. */
  lemma Transactional<S(!new), C>(
      sum: string -> C, session: Session<S, C>, effect: (S, string) -> S, world: World<S, C>, file: ScriptFile)
    requires Deterministic(session, effect)
    ensures
      var clean := World(world.history + [NewRow(sum, world.history, file)], effect(world.state, file.sql));
      && Committed(sum, Faultless(effect), world, file) == Some(clean)
      && Committed(sum, session, world, file) in {None, Some(clean)}
  {}

  function Runs<S, C(==)>(
      sum: string -> C, files: seq<ScriptFile>, sessions: seq<Session<S, C>>, world: World<S, C>): World<S, C>
  {
    if sessions == [] then world else Runs(sum, files, sessions[1..], Migrate(sum, files, sessions[0], world))
  }

  lemma AppliedRowAppend<C>(history: seq<Row<C>>, row: Row<C>, version: string)
    ensures AppliedRow(history + [row], version)
            == if row.success && row.version == Some(version) then Some(row) else AppliedRow(history, version)
  {
    assert (history + [row])[..|history|] == history;
  }

  lemma {:induction false} PendingOnly<C>(files: seq<ScriptFile>, history: seq<Row<C>>)
    ensures forall f :: f in Pending(files, history) <==> f in files && !IsApplied(history, f)
  {
    if files != [] {
      PendingOnly(files[1..], history);
      assert files == [files[0]] + files[1..];
    }
  }

  lemma {:induction false} PendingAgrees<C>(files: seq<ScriptFile>, h1: seq<Row<C>>, h2: seq<Row<C>>)
    requires forall f :: f in files ==> (IsApplied(h1, f) <==> IsApplied(h2, f))
    ensures Pending(files, h1) == Pending(files, h2) && Applied(files, h1) == Applied(files, h2)
  {
    if files != [] {
      assert files == [files[0]] + files[1..];
      PendingAgrees(files[1..], h1, h2);
    }
  }

  /** Recording one more file takes it, and only it, off the pending list. */
  lemma {:induction false} PendingShrinks<C>(files: seq<ScriptFile>, h1: seq<Row<C>>, h2: seq<Row<C>>, file: ScriptFile)
    requires UniqueVersions(files)
    requires forall f :: f in files ==> (IsApplied(h2, f) <==> IsApplied(h1, f) || f.version == file.version)
    requires Pending(files, h1) != [] && Pending(files, h1)[0] == file
    ensures Pending(files, h2) == Pending(files, h1)[1..]
  {
    var tail := files[1..];
    assert files == [files[0]] + tail;
    assert forall i :: 0 <= i < |tail| ==> tail[i] == files[i + 1];
    if IsApplied(h1, files[0]) {
      assert Pending(files, h1) == [] + Pending(tail, h1) == Pending(tail, h1);
      assert Pending(files, h2) == [] + Pending(tail, h2) == Pending(tail, h2);
      PendingShrinks(tail, h1, h2, file);
    } else {
      assert Pending(files, h1) == [files[0]] + Pending(tail, h1);
      forall f | f in tail
        ensures IsApplied(h2, f) <==> IsApplied(h1, f)
      {
        var i :| 0 <= i < |tail| && tail[i] == f;
        assert files[0].version != files[i + 1].version;
      }
      PendingAgrees(tail, h1, h2);
      assert Pending(files, h2) == [] + Pending(tail, h2) == Pending(tail, h2);
    }
  }

  lemma SameVersionSameFile(files: seq<ScriptFile>, f: ScriptFile, g: ScriptFile)
    requires UniqueVersions(files) && f in files && g in files && f.version == g.version
    ensures f == g
  {
    var i :| 0 <= i < |files| && files[i] == f;
    var j :| 0 <= j < |files| && files[j] == g;
    assert i == j;
  }

  ghost predicate Unedited<C>(sum: string -> C, files: seq<ScriptFile>, history: seq<Row<C>>) {
    forall f :: f in files ==> !Edited(sum, history, f)
  }

  lemma RecordedStep<C>(sum: string -> C, files: seq<ScriptFile>, history: seq<Row<C>>)
    requires UniqueVersions(files) && Unedited(sum, files, history) && Pending(files, history) != []
    ensures
      var file := Pending(files, history)[0];
      var next := history + [NewRow(sum, history, file)];
      Unedited(sum, files, next) && Pending(files, next) == Pending(files, history)[1..]
  {
    var file := Pending(files, history)[0];
    var row := NewRow(sum, history, file);
    var next := history + [row];
    PendingOnly(files, history);
    assert file in Pending(files, history);
    forall f | f in files
      ensures (IsApplied(next, f) <==> IsApplied(history, f) || f.version == file.version) && !Edited(sum, next, f)
    {
      AppliedRowAppend(history, row, f.version);
      if f.version == file.version {
        SameVersionSameFile(files, f, file);
      } else {
        assert !Edited(sum, history, f);
      }
    }
    PendingShrinks(files, history, next, file);
  }

  lemma StatusIsOk<C>(sum: string -> C, files: seq<ScriptFile>, history: seq<Row<C>>)
    ensures StatusOf(sum, files, history).Ok? <==> Unedited(sum, files, history)
  {
    FirstEditedIsEdited(sum, files, history);
  }

  /** A run that stops early leaves exactly what a clean run still has to do. */
  lemma {:induction false} RetryAfterStop<S(!new), C>(
      sum: string -> C, files: seq<ScriptFile>, session: Session<S, C>, effect: (S, string) -> S, world: World<S, C>,
      pending: seq<ScriptFile>)
    requires UniqueVersions(files) && Deterministic(session, effect)
    requires Unedited(sum, files, world.history) && pending == Pending(files, world.history)
    ensures
      var clean := Faultless(effect);
      var run := ApplyAll(sum, pending, session, world);
      && Unedited(sum, files, run.world.history)
      && ApplyAll(sum, Pending(files, run.world.history), clean, run.world).world
        == ApplyAll(sum, pending, clean, world).world
      && (run.failed.None? ==> Pending(files, run.world.history) == [])
    decreases |pending|
  {
    if pending != [] {
      Transactional(sum, session, effect, world, pending[0]);
      if Committed(sum, session, world, pending[0]).Some? {
        RecordedStep(sum, files, world.history);
        var next := World(world.history + [NewRow(sum, world.history, pending[0])],
          effect(world.state, pending[0].sql));
        RetryAfterStop(sum, files, session, effect, next, pending[1..]);
      }
    }
  }

  lemma MigrateThenClean<S(!new), C>(
      sum: string -> C, files: seq<ScriptFile>, session: Session<S, C>, effect: (S, string) -> S, world: World<S, C>)
    requires UniqueVersions(files) && Deterministic(session, effect)
    ensures
      Migrate(sum, files, Faultless(effect), Migrate(sum, files, session, world))
      == Migrate(sum, files, Faultless(effect), world)
  {
    StatusIsOk(sum, files, world.history);
    if Unedited(sum, files, world.history) {
      var pending := Pending(files, world.history);
      RetryAfterStop(sum, files, session, effect, world, pending);
      StatusIsOk(sum, files, ApplyAll(sum, pending, session, world).world.history);
    }
  }

  /**
   * Any series of runs, failing wherever they like, followed by a clean run, leaves the same
   * database and the same history as one clean run.
   */
  lemma {:induction false} RetriesConverge<S(!new), C>(
      sum: string -> C, files: seq<ScriptFile>, sessions: seq<Session<S, C>>, effect: (S, string) -> S,
      world: World<S, C>)
    requires UniqueVersions(files)
    requires forall i :: 0 <= i < |sessions| ==> Deterministic(sessions[i], effect)
    ensures
      Migrate(sum, files, Faultless(effect), Runs(sum, files, sessions, world))
      == Migrate(sum, files, Faultless(effect), world)
    decreases |sessions|
  {
    if sessions != [] {
      RetriesConverge(sum, files, sessions[1..], effect, Migrate(sum, files, sessions[0], world));
      MigrateThenClean(sum, files, sessions[0], effect, world);
    }
  }

  lemma {:induction false} UnfailedIsClean<S(!new), C>(
      sum: string -> C, pending: seq<ScriptFile>, session: Session<S, C>, effect: (S, string) -> S, world: World<S, C>)
    requires Deterministic(session, effect) && ApplyAll(sum, pending, session, world).failed.None?
    ensures ApplyAll(sum, pending, session, world) == ApplyAll(sum, pending, Faultless(effect), world)
    ensures ApplyAll(sum, pending, session, world).applied == pending
    decreases |pending|
  {
    if pending != [] {
      Transactional(sum, session, effect, world, pending[0]);
      var next := World(world.history + [NewRow(sum, world.history, pending[0])], effect(world.state, pending[0].sql));
      UnfailedIsClean(sum, pending[1..], session, effect, next);
    }
  }

  /** The run that finally gets through ends where one clean run would have, with nothing left to do. */
  lemma LastRunSettles<S(!new), C>(
      sum: string -> C, files: seq<ScriptFile>, sessions: seq<Session<S, C>>, last: Session<S, C>,
      effect: (S, string) -> S, world: World<S, C>)
    requires UniqueVersions(files) && Deterministic(last, effect)
    requires forall i :: 0 <= i < |sessions| ==> Deterministic(sessions[i], effect)
    requires
      var before := Runs(sum, files, sessions, world);
      StatusOf(sum, files, before.history).Ok?
        && ApplyAll(sum, Pending(files, before.history), last, before).failed.None?
    ensures
      var final := Migrate(sum, files, last, Runs(sum, files, sessions, world));
      && final == Migrate(sum, files, Faultless(effect), world)
      && StatusOf(sum, files, final.history) == Ok(Status(Applied(files, final.history), []))
      && forall again: Session<S, C> :: Migrate(sum, files, again, final) == final
  {
    var before := Runs(sum, files, sessions, world);
    var pending := Pending(files, before.history);
    RetriesConverge(sum, files, sessions, effect, world);
    UnfailedIsClean(sum, pending, last, effect, before);
    StatusIsOk(sum, files, before.history);
    RetryAfterStop(sum, files, last, effect, before, pending);
    StatusIsOk(sum, files, ApplyAll(sum, pending, last, before).world.history);
    FirstEditedIsEdited(sum, files, ApplyAll(sum, pending, last, before).world.history);
  }

  lemma {:induction false} ApplyKeepsRanks<S, C>(
      sum: string -> C, pending: seq<ScriptFile>, session: Session<S, C>, world: World<S, C>)
    requires RanksIncrease(world.history)
    ensures
      var run := ApplyAll(sum, pending, session, world);
      && RanksIncrease(run.world.history)
      && world.history <= run.world.history
      && |run.world.history| == |world.history| + |run.applied|
    decreases |pending|
  {
    if pending != [] && Committed(sum, session, world, pending[0]).Some? {
      RankIsNew(world.history);
      ApplyKeepsRanks(sum, pending[1..], session, Committed(sum, session, world, pending[0]).value);
    }
  }

  // ---- Repair ----

  lemma {:induction false} RepairedRow<C>(
      sum: string -> C, files: seq<ScriptFile>, history: seq<Row<C>>, version: string)
    ensures
      AppliedRow(Repaired(sum, files, history), version) ==
        match AppliedRow(history, version)
        case None => None
        case Some(row) => Some(FixedRow(sum, files, row))
  {
    if history != [] {
      var init, row := history[..|history| - 1], history[|history| - 1];
      RepairedRow(sum, files, init, version);
      if row.success {
        AppliedRowAppend(Repaired(sum, files, init), FixedRow(sum, files, row), version);
      } else {
        assert Repaired(sum, files, history) == Repaired(sum, files, init) + [] == Repaired(sum, files, init);
      }
    }
  }

  /** Repair moves nothing between applied and pending. */
  lemma RepairKeepsStatus<C>(sum: string -> C, files: seq<ScriptFile>, history: seq<Row<C>>)
    ensures Pending(files, Repaired(sum, files, history)) == Pending(files, history)
    ensures Applied(files, Repaired(sum, files, history)) == Applied(files, history)
  {
    forall f | f in files
      ensures IsApplied(Repaired(sum, files, history), f) <==> IsApplied(history, f)
    {
      RepairedRow(sum, files, history, f.version);
    }
    PendingAgrees(files, Repaired(sum, files, history), history);
  }

  lemma {:induction false} FileForFinds(files: seq<ScriptFile>, f: ScriptFile)
    requires f in files
    ensures FileFor(files, f.version).Some?
    ensures FileFor(files, f.version).value in files && FileFor(files, f.version).value.version == f.version
  {
    var last := files[|files| - 1];
    assert files == files[..|files| - 1] + [last];
    if last.version != f.version {
      FileForFinds(files[..|files| - 1], f);
    }
  }

  /**
   * After repair the status check passes exactly when every applied file checksums like the
   * last listed file of its version.
   */
  lemma RepairedStatusExact<C>(sum: string -> C, files: seq<ScriptFile>, history: seq<Row<C>>)
    ensures
      StatusOf(sum, files, Repaired(sum, files, history)).Ok? <==>
        forall f :: f in files && IsApplied(history, f) ==>
          FileFor(files, f.version).Some?
          && sum(f.sql) == sum(FileFor(files, f.version).value.sql)
  {
    StatusIsOk(sum, files, Repaired(sum, files, history));
    forall f | f in files
      ensures FileFor(files, f.version).Some?
      ensures
        var fixed := FileFor(files, f.version).value;
        Edited(sum, Repaired(sum, files, history), f) <==> IsApplied(history, f) && sum(f.sql) != sum(fixed.sql)
    {
      FileForFinds(files, f);
      RepairedRow(sum, files, history, f.version);
      AppliedRowHasVersion(history, f.version);
    }
  }

  /**
   * Two files of one version, one of them applied: repair realigns the row to the last, and the check
   * refuses the other.
   */
  lemma TwoFilesOneVersion<C>(sum: string -> C, a: ScriptFile, b: ScriptFile, row: Row<C>)
    requires a.version == b.version && sum(a.sql) != sum(b.sql) && row.success && row.version == Some(a.version)
    ensures Repaired(sum, [a, b], [row]) == [row.(checksum := Some(sum(b.sql)))]
    ensures StatusOf(sum, [a, b], Repaired(sum, [a, b], [row])) == Err(Mismatch(a, sum(b.sql), sum(a.sql)))
  {
    assert FileFor([a, b], a.version) == Some(b);
    assert [row][..0] == [] && Repaired(sum, [a, b], []) == [];
    var fixed := row.(checksum := Some(sum(b.sql)));
    assert AppliedRow([fixed], a.version) == Some(fixed);
  }

  lemma OneFileIsFine<C>(sum: string -> C, file: ScriptFile, row: Row<C>)
    requires row.checksum == Some(sum(file.sql))
    ensures StatusOf(sum, [file], [row]).Ok?
  {
    assert [row][..0] == [];
    assert AppliedRow([row], file.version)
      == if row.success && row.version == Some(file.version) then Some(row) else None;
    StatusIsOk(sum, [file], [row]);
  }

  lemma OneByte(a: char, b: char)
    requires Plain([a]) && Plain([b]) && |Utf8Char(a)| == |Utf8Char(b)| == 1 && Utf8Char(a) != Utf8Char(b)
    ensures ScriptChecksum([a]) != ScriptChecksum([b])
  {
    CharBytes(a);
    CharBytes(b);
    NothingAdded(Utf8Char(a));
    NothingAdded(Utf8Char(b));
    BurstIsDetected([], Utf8Char(a), Utf8Char(b), []);
  }

  lemma XIsNotY()
    ensures |Utf8Char('x')| == |Utf8Char('y')| == 1 && Utf8Char('x') != Utf8Char('y')
  {
    assert Utf8Numbers('x') == [120] && Utf8Numbers('y') == [121];
    assert Utf8Char('x')[0] == 120 && Utf8Char('y')[0] == 121;
  }

  /** So repair does not always make the check pass: version 1 in two files, of texts `x` and `y`. */
  lemma RepairLeavesMismatch()
    ensures
      var a, b := ScriptFile("V1__a.sql", "1", "a", "x"), ScriptFile("V1__b.sql", "1", "b", "y");
      var history := [Row(1, Some("1"), "a", "V1__a.sql", Some(ScriptChecksum("x")), true)];
      && StatusOf(ScriptChecksum, [a], history).Ok?
      && StatusOf(ScriptChecksum, [a, b], Repaired(ScriptChecksum, [a, b], history)).Err?
  {
    var a, b := ScriptFile("V1__a.sql", "1", "a", "x"), ScriptFile("V1__b.sql", "1", "b", "y");
    var row := Row(1, Some("1"), "a", "V1__a.sql", Some(ScriptChecksum("x")), true);
    XIsNotY();
    OneByte('x', 'y');
    TwoFilesOneVersion(ScriptChecksum, a, b, row);
    OneFileIsFine(ScriptChecksum, a, row);
  }

  lemma {:induction false} AppliedRowHasVersion<C>(history: seq<Row<C>>, version: string)
    ensures
      match AppliedRow(history, version)
      case Some(row) => row.success && row.version == Some(version)
      case None => true
  {
    if history != [] {
      AppliedRowHasVersion(history[..|history| - 1], version);
    }
  }

  /** With one file a version, repair always makes the status check pass. */
  lemma RepairMakesStatusPass<C>(sum: string -> C, files: seq<ScriptFile>, history: seq<Row<C>>)
    requires UniqueVersions(files)
    ensures
      StatusOf(sum, files, Repaired(sum, files, history))
        == Ok(Status(Applied(files, history), Pending(files, history)))
  {
    forall f | f in files
      ensures FileFor(files, f.version) == Some(f)
    {
      FileForFinds(files, f);
      SameVersionSameFile(files, f, FileFor(files, f.version).value);
    }
    RepairedStatusExact(sum, files, history);
    RepairKeepsStatus(sum, files, history);
  }

  lemma {:induction false} RepairTwice<C>(sum: string -> C, files: seq<ScriptFile>, history: seq<Row<C>>)
    ensures Repaired(sum, files, Repaired(sum, files, history)) == Repaired(sum, files, history)
  {
    if history != [] {
      var init, row := history[..|history| - 1], history[|history| - 1];
      RepairTwice(sum, files, init);
      if row.success {
        var fixed := FixedRow(sum, files, row);
        assert RepairRow(sum, files, row) == [fixed] && RepairRow(sum, files, fixed) == [fixed];
        assert (Repaired(sum, files, init) + [fixed])[..|Repaired(sum, files, init)|] == Repaired(sum, files, init);
      } else {
        assert Repaired(sum, files, history) == Repaired(sum, files, init) + [] == Repaired(sum, files, init);
      }
    }
  }

  // ---- Edits ----

  /**
   * Editing an applied script within four consecutive bytes of its normalized text makes the
   * next status check fail, and repair makes it pass again.
   */
  lemma EditIsReported(
      files: seq<ScriptFile>, history: seq<Row<Word>>, i: nat, sql: string,
      prefix: seq<Octet>, was: seq<Octet>, now: seq<Octet>, suffix: seq<Octet>)
    requires i < |files| && Unedited(ScriptChecksum, files, history) && IsApplied(history, files[i])
    requires AppliedRow(history, files[i].version).value.checksum.Some?
    requires |was| == |now| <= 4 && was != now
    requires ScriptBytes(files[i].sql) == prefix + was + suffix && ScriptBytes(sql) == prefix + now + suffix
    ensures
      var edited := files[i := files[i].(sql := sql)];
      StatusOf(ScriptChecksum, edited, history).Err?
        && (UniqueVersions(files) ==> StatusOf(ScriptChecksum, edited, Repaired(ScriptChecksum, edited, history)).Ok?)
  {
    var edited := files[i := files[i].(sql := sql)];
    assert files[i] in files && !Edited(ScriptChecksum, history, files[i]);
    BurstIsDetected(prefix, was, now, suffix);
    assert edited[i] in edited && Edited(ScriptChecksum, history, edited[i]);
    StatusIsOk(ScriptChecksum, edited, history);
    if UniqueVersions(files) {
      RepairMakesStatusPass(ScriptChecksum, edited, history);
    }
  }
}
