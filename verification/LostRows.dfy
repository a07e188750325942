/** What becomes of a log row that the database lacks: when a later run reads it again, and when it is
    gone until the database is wiped. */
module LostRows {
  import opened Prelude
  import opened IngestRecovery
  import opened CrashConsistency

  // ----- Runs without a wipe

  /** Steps that wipe the database, in part or whole, and the upgrade that makes the next start do so. */
  predicate Wipes(s: State, e: Event) {
    match e
    case Upgrade => true
    case StopDirtyWipe(_) => true
    case StopMismatchWipe(_, _) => true
    case Start(wal) => (s.disk.marker && !wal) || s.disk.oldLayout
    case _ => false
  }

  ghost predicate Unwiped(s: State, es: seq<Event>)
    decreases |es|
  {
    es == [] || (!Wipes(s, es[0]) && Unwiped(Next(s, es[0]), es[1..]))
  }

  /** No possible run stores the row again, short of a wipe. */
  ghost predicate GoneForGood(s: State, r: Row) {
    forall es: seq<Event> | Legal(s, es) && Unwiped(s, es) :: r !in Final(s, es).disk.rows
  }

  /** Which rows a resumed run skips: those of finished files, and those more than the rewind behind a
      saved position inside the file. */
  lemma SkipsExactly(offsets: Offsets, rewind: nat, r: Row)
    requires r.LogRow? && r.file in offsets
    ensures
      var f := offsets[r.file];
      Skips(offsets, rewind, r) <==> f.finished || (r.pos + rewind < f.processed < f.size)
  {
  }

  // ----- Rows of finished files

  /** The row is neither in the database nor on its way there, and its file counts as finished. */
  ghost predicate RowLost(s: State, r: Row) {
    && r.LogRow? && r !in s.disk.rows && !s.disk.oldLayout && Finished(s.disk.offsets, r.file)
    && (s.proc.Up? ==>
          && r !in s.proc.queue && r !in s.proc.memtable
          && (Initialised(s.proc) ==> Finished(s.proc.loaded, r.file) && Finished(s.proc.progress, r.file)))
  }

  lemma LostRowStep(s: State, e: Event, r: Row)
    requires RowLost(s, r) && Enabled(s, e) && !Wipes(s, e)
    ensures RowLost(Next(s, e), r)
  {
  }

  /** A lost row is never stored again, whatever the pipeline does, until a wipe. */
  lemma {:induction false} LostRowStaysLost(s: State, es: seq<Event>, r: Row)
    requires RowLost(s, r) && Legal(s, es) && Unwiped(s, es)
    ensures RowLost(Final(s, es), r)
    decreases |es|
  {
    if es != [] {
      LostRowStep(s, es[0], r);
      LostRowStaysLost(Next(s, es[0]), es[1..], r);
    }
  }

  lemma LostIsGone(s: State, r: Row)
    requires RowLost(s, r)
    ensures GoneForGood(s, r)
  {
    forall es: seq<Event> | Legal(s, es) && Unwiped(s, es) ensures r !in Final(s, es).disk.rows {
      LostRowStaysLost(s, es, r);
    }
  }

  /** Saving the offsets over a row that has not reached the database, and crashing, loses the row. */
  lemma SavedOverIsGone(s: State, r: Row)
    requires Initialised(s.proc) && !s.disk.oldLayout
    requires r.LogRow? && r !in s.disk.rows && Finished(s.proc.progress, r.file)
    ensures GoneForGood(Next(Next(s, SaveOffsets), Crash), r)
  {
    LostIsGone(Next(Next(s, SaveOffsets), Crash), r);
  }

  // ----- Rows of files that were read in part

  /** The process resumed behind the row. */
  ghost predicate PassedOver(s: State, r: Row) {
    && r !in s.disk.rows
    && (s.proc.Up? ==>
          && Initialised(s.proc) && Skips(s.proc.loaded, s.logs.rewind, r)
          && r !in s.proc.queue && r !in s.proc.memtable)
  }

  lemma PassedOverStep(s: State, e: Event, r: Row)
    requires r.LogRow? && PassedOver(s, r) && Enabled(s, e) && !e.Start?
    ensures PassedOver(Next(s, e), r)
  {
  }

  /** A row that a process skips is not stored in the lifetime of that process. */
  lemma {:induction false} SkippedRowIsNotStored(s: State, es: seq<Event>, r: Row)
    requires r.LogRow? && PassedOver(s, r) && Legal(s, es)
    requires forall e | e in es :: !e.Start?
    ensures r !in Final(s, es).disk.rows
    decreases |es|
  {
    if es != [] {
      PassedOverStep(s, es[0], r);
      SkippedRowIsNotStored(Next(s, es[0]), es[1..], r);
    }
  }

  ghost predicate CanStore(s: State, r: Row) {
    exists es: seq<Event> :: StoringRun(s, es, r)
  }

  ghost predicate StoringRun(s: State, es: seq<Event>, r: Row) {
    Legal(s, es) && Unwiped(s, es) && r in Final(s, es).disk.rows
  }

  lemma StoreStep(s: State, e: Event, r: Row)
    requires Enabled(s, e) && !Wipes(s, e) && CanStore(Next(s, e), r)
    ensures CanStore(s, r)
  {
    var es: seq<Event> :| StoringRun(Next(s, e), es, r);
    var longer := [e] + es;
    assert longer[1..] == es;
    assert StoringRun(s, longer, r);
  }

  lemma StoredCanStore(s: State, r: Row)
    requires r in s.disk.rows
    ensures CanStore(s, r)
  {
    assert StoringRun(s, [], r);
  }

  /** A host that stopped in the middle of log processing. */
  ghost predicate StoppedLogging(s: State) {
    && s.proc.Down? && !s.disk.oldLayout
    && s.disk.steps.Some? && StagesDone(s.disk.steps.value) && !s.disk.steps.value.processLogs
  }

  ghost function Restarted(s: State): State {
    Next(Next(Next(Next(s, Start(true)), LoadSteps(true, true)), FinalizeInit(true, true)), LogStart)
  }

  lemma RestartCanStore(s: State, r: Row)
    requires StoppedLogging(s) && CanStore(Restarted(s), r)
    ensures CanStore(s, r)
  {
    var s1 := Next(s, Start(true));
    var s2 := Next(s1, LoadSteps(true, true));
    var s3 := Next(s2, FinalizeInit(true, true));
    StoreStep(s3, LogStart, r);
    StoreStep(s2, FinalizeInit(true, true), r);
    StoreStep(s1, LoadSteps(true, true), r);
    StoreStep(s, Start(true), r);
  }

  /** The first position a resumed file is saved at: one read buffer, half the rewind, beyond the resume
      point, or the end of the file. */
  function FirstPosition(f: LogFile, rewind: nat): nat {
    var loc := ResumeAt(f, rewind) + rewind / 2;
    if loc < f.size then loc else f.size
  }

  /** The host after a restart that is cut short just after that. */
  ghost function Retreated(s: State, file: string): State
    requires file in s.disk.offsets
  {
    var f := s.disk.offsets[file];
    Next(Next(Next(Restarted(s), Tick(file, f.size, FirstPosition(f, s.logs.rewind))), SaveOffsets), Crash)
  }

  ghost predicate ResumesInside(s: State, file: string) {
    && StoppedLogging(s) && s.logs.rewind > 1
    && file in s.disk.offsets && !s.disk.offsets[file].finished && ResumeAt(s.disk.offsets[file], s.logs.rewind) > 0
  }

  lemma RetreatIsPossible(s: State, file: string)
    requires ResumesInside(s, file)
    ensures
      var f := s.disk.offsets[file];
      Enabled(Restarted(s), Tick(file, f.size, FirstPosition(f, s.logs.rewind)))
  {
  }

  lemma RetreatCanStore(s: State, file: string, r: Row)
    requires ResumesInside(s, file) && CanStore(Retreated(s, file), r)
    ensures CanStore(s, r)
  {
    var f := s.disk.offsets[file];
    var e := Tick(file, f.size, FirstPosition(f, s.logs.rewind));
    var t := Restarted(s);
    RetreatIsPossible(s, file);
    StoreStep(Next(Next(t, e), SaveOffsets), Crash, r);
    StoreStep(Next(t, e), SaveOffsets, r);
    StoreStep(t, e, r);
    RestartCanStore(s, r);
  }

  lemma RetreatMovesBack(s: State, file: string)
    requires ResumesInside(s, file)
    ensures
      var t := Retreated(s, file);
      && StoppedLogging(t) && t.logs == s.logs && !Finished(t.disk.offsets, file)
      && ReadFrom(t.disk.offsets, file, t.logs.rewind) < ReadFrom(s.disk.offsets, file, s.logs.rewind)
  {
  }

  lemma ReadAgainCanStore(s: State, r: Row)
    requires StoppedLogging(s) && r in s.logs.rows && !Skips(s.disk.offsets, s.logs.rewind, r)
    ensures CanStore(s, r)
  {
    var t := Restarted(s);
    StoredCanStore(Next(Next(t, Emit({r})), Commit({r})), r);
    StoreStep(Next(t, Emit({r})), Commit({r}), r);
    StoreStep(t, Emit({r}), r);
    RestartCanStore(s, r);
  }

  /** Each such restart moves the resume point back, until the row is read again. */
  lemma {:induction false} PartialRowReturns(s: State, r: Row)
    requires StoppedLogging(s) && s.logs.rewind > 1
    requires r in s.logs.rows && r.LogRow? && !Finished(s.disk.offsets, r.file)
    ensures CanStore(s, r)
    decreases ReadFrom(s.disk.offsets, r.file, s.logs.rewind)
  {
    if Skips(s.disk.offsets, s.logs.rewind, r) {
      RetreatMovesBack(s, r.file);
      PartialRowReturns(Retreated(s, r.file), r);
      RetreatCanStore(s, r.file, r);
    } else {
      ReadAgainCanStore(s, r);
    }
  }

  /** Which missing rows are gone for good: on a host that stopped in the middle of log processing, a
      row that the saved offsets skip is beyond the reach of every further run, short of a wipe, if
      and only if its file counts as finished. */
  lemma GoneExactlyWhenFinished(s: State, r: Row)
    requires StoppedLogging(s) && s.logs.rewind > 1
    requires r in s.logs.rows && r !in s.disk.rows && Skips(s.disk.offsets, s.logs.rewind, r)
    ensures GoneForGood(s, r) <==> Finished(s.disk.offsets, r.file)
  {
    if Finished(s.disk.offsets, r.file) {
      LostIsGone(s, r);
    } else {
      PartialRowReturns(s, r);
      var es: seq<Event> :| StoringRun(s, es, r);
    }
  }

  // ----- Runs that lose rows

  ghost predicate Reachable(s: State, t: State) {
    exists es: seq<Event> :: Follows(s, es) && Final(s, es) == t
  }

  lemma {:induction false} FollowsOneMore(s: State, es: seq<Event>, e: Event)
    requires Follows(s, es) && Enabled(Final(s, es), e) && Careful(Final(s, es), e)
    ensures Follows(s, es + [e]) && Final(s, es + [e]) == Next(Final(s, es), e)
    decreases |es|
  {
    if es == [] {
      assert es + [e] == [e] && [e][1..] == [];
    } else {
      assert (es + [e])[1..] == es[1..] + [e];
      FollowsOneMore(Next(s, es[0]), es[1..], e);
    }
  }

  lemma Reach(s: State, t: State, e: Event)
    requires Reachable(s, t) && Enabled(t, e) && Careful(t, e)
    ensures Reachable(s, Next(t, e))
  {
    var es: seq<Event> :| Follows(s, es) && Final(s, es) == t;
    FollowsOneMore(s, es, e);
  }

  const ONE_ROW := LogRow("a", 0)
  const FRESH := State(Logs({ONE_ROW}, 0), Disk(None, false, map[], {}, {}, false), Down, false)
  const ALL_STAGES := NO_STEPS.(init := true, download := true, unpack := true, preProcess := true)

  /** The host in the middle of log processing, WAL off: one row read to the end of its file. */
  const LOGGING := State(FRESH.logs, Disk(Some(ALL_STAGES), true, map[], {}, {}, false),
    Up(false, Logging, ALL_STAGES, map[], map["a" := LogFile(1, 1, true)], {}, {ONE_ROW}, {}), false)

  lemma LoggingIsReachable()
    ensures Fresh(FRESH) && Inv(FRESH) && Reachable(FRESH, LOGGING)
  {
    assert Follows(FRESH, []) && Final(FRESH, []) == FRESH;
    var s1 := Next(FRESH, Start(false));
    Reach(FRESH, FRESH, Start(false));
    var s2 := Next(s1, LoadSteps(true, true));
    Reach(FRESH, s1, LoadSteps(true, true));
    var s3 := Next(s2, FinalizeInit(true, true));
    Reach(FRESH, s2, FinalizeInit(true, true));
    var s4 := Next(s3, StageOk(Download, true));
    Reach(FRESH, s3, StageOk(Download, true));
    var s5 := Next(s4, StageOk(Unpack, true));
    Reach(FRESH, s4, StageOk(Unpack, true));
    var s6 := Next(s5, StageOk(PreProcess, true));
    Reach(FRESH, s5, StageOk(PreProcess, true));
    LogFromStages(s6);
  }

  lemma LogFromStages(s: State)
    requires s == State(FRESH.logs, Disk(Some(ALL_STAGES), true, map[], {}, {}, false),
                        Up(false, Pipeline, ALL_STAGES, map[], map[], {}, {}, {}), false)
    requires Reachable(FRESH, s)
    ensures Reachable(FRESH, LOGGING)
  {
    var s7 := Next(s, LogStart);
    Reach(FRESH, s, LogStart);
    var s8 := Next(s7, Emit({ONE_ROW}));
    Reach(FRESH, s7, Emit({ONE_ROW}));
    var s9 := Next(s8, FinishFile("a", 1));
    Reach(FRESH, s8, FinishFile("a", 1));
    assert s9.proc.queue == {ONE_ROW};
    assert s9.proc.progress == map["a" := LogFile(1, 1, true)];
    assert s9 == LOGGING;
  }

  /** A careful run ends in a state in which the row is gone for good. */
  ghost predicate CanLose(s: State, r: Row) {
    exists es: seq<Event> :: Follows(s, es) && GoneForGood(Final(s, es), r)
  }

  lemma SaveAndCrashLose(s: State, r: Row)
    requires Initialised(s.proc) && !s.disk.oldLayout && Careful(s, SaveOffsets)
    requires r.LogRow? && r !in s.disk.rows && Finished(s.proc.progress, r.file)
    ensures CanLose(s, r)
  {
    SavedOverIsGone(s, r);
    var es := [SaveOffsets, Crash];
    assert es[1..] == [Crash] && [Crash][1..] == [];
    assert Follows(Next(s, SaveOffsets), [Crash]);
    assert Follows(s, es) && Final(s, es) == Next(Next(s, SaveOffsets), Crash);
  }

  /** What the code does: log processing ends while a row is still in the batcher, the database is
      flushed and the marker cleared. A careful run leads there. From there one careful run trusts
      wrong offsets, with every file read, and one loses the row: no further run stores it, short of
      a wipe. */
  lemma UndrainedClearLosesRows()
    ensures Reachable(FRESH, LOGGING) && Enabled(LOGGING, EndLogs(true, true))
    ensures CanBreak(Next(LOGGING, EndLogs(true, true)), true)
    ensures CanLose(Next(LOGGING, EndLogs(true, true)), ONE_ROW)
  {
    LoggingIsReachable();
    var t := Next(LOGGING, EndLogs(true, true));
    var u := Next(t, SaveOffsets);
    assert ONE_ROW in u.logs.rows && Skips(u.disk.offsets, u.logs.rewind, ONE_ROW) && ONE_ROW !in u.disk.rows;
    CrashBreaks(u, true);
    BreakStep(t, SaveOffsets, true);
    SaveAndCrashLose(t, ONE_ROW);
  }

  /** And without WAL even a fully drained, committed row is lost when the process dies and the next
      start has WAL switched on: the marker is there, but the wipe is skipped. */
  lemma SwitchingWalOnLosesRows()
    ensures exists s: State ::
      && Reachable(FRESH, s) && s.proc.Down? && s.disk.marker
      && CanBreak(Next(s, Start(true)), true) && GoneForGood(Next(s, Start(true)), ONE_ROW)
  {
    LoggingIsReachable();
    var s1 := Next(LOGGING, Commit({ONE_ROW}));
    Reach(FRESH, LOGGING, Commit({ONE_ROW}));
    var s2 := Next(s1, SaveOffsets);
    Reach(FRESH, s1, SaveOffsets);
    var s3 := Next(s2, Crash);
    Reach(FRESH, s2, Crash);
    var t := Next(s3, Start(true));
    assert ONE_ROW in t.logs.rows && Skips(t.disk.offsets, t.logs.rewind, ONE_ROW) && ONE_ROW !in t.disk.rows;
    CrashBreaks(t, true);
    LostIsGone(t, ONE_ROW);
  }
}
