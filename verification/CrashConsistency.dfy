/** Crash consistency of the ingest pipeline: which steps keep the saved offsets from claiming rows
    the database lacks, over every run, and that no weaker care will do. */
module CrashConsistency {
  import opened Prelude
  import opened IngestRecovery

  /** Every row that a run resuming from `offsets` would skip is among `rows`. */
  ghost predicate Covers(offsets: Offsets, logs: Logs, rows: set<Row>) {
    forall r | r in logs.rows :: Skips(offsets, logs.rewind, r) ==> r in rows
  }

  /** Log processing would start from offsets that claim a row the opened database lacks. */
  ghost predicate Broken(s: State) {
    LogsMayStart(s) && !Covers(s.proc.progress, s.logs, s.disk.rows + s.proc.memtable)
  }

  // ----- The care a step has to take

  /** `EndLogs` may clear the marker only when no row that the offsets cover is still in the queue;
      with WAL on, offsets may be saved only then; processing may start without a marker only when
      there is nothing left to write; a mismatch wipe must not be cut short while offsets claim rows;
      and WAL may be switched on over the marker of a run without it only when the offsets claim
      nothing that is missing. */
  ghost predicate Careful(s: State, e: Event) {
    var d, p := s.disk, s.proc;
    match e
    case Start(wal) => wal && d.marker && !d.oldLayout && !s.lastWal ==> Covers(d.offsets, s.logs, d.rows)
    case StopMismatchWipe(_, at) =>
      var d' := MismatchWipePrefix(d, at);
      d'.oldLayout || Covers(d'.offsets, s.logs, d'.rows)
    case FinalizeInit(markerOk, _) =>
      p.Up? && !p.wal && !markerOk && !d.marker ==> p.steps.processLogs || s.logs.rows <= d.rows
    case SaveOffsets =>
      p.Up? && p.wal ==> forall r | r in p.queue && r !in d.rows :: !Skips(p.progress, s.logs.rewind, r)
    case EndLogs(_, cleared) =>
      p.Up? && !p.wal && cleared && d.marker ==>
        forall r | r in p.queue && r !in d.rows && r !in p.memtable ::
          !Skips(p.progress, s.logs.rewind, r) && !Skips(d.offsets, s.logs.rewind, r)
    case _ => true
  }

  /** The same care in terms an operator or the program can check without looking at rows. */
  ghost predicate Prudent(s: State, e: Event) {
    match e
    case Start(wal) => wal && s.disk.marker ==> s.lastWal
    case StopMismatchWipe(_, _) => false
    case FinalizeInit(markerOk, _) => markerOk
    case SaveOffsets => s.proc.Up? && s.proc.wal ==> s.proc.queue == {}
    case EndLogs(_, cleared) => s.proc.Up? && cleared ==> s.proc.queue == {}
    case _ => true
  }

  /** A run in which every step is possible and careful. */
  ghost predicate Follows(s: State, es: seq<Event>)
    decreases |es|
  {
    es == [] || (Enabled(s, es[0]) && Careful(s, es[0]) && Follows(Next(s, es[0]), es[1..]))
  }

  // ----- The invariant

  ghost predicate InvDown(s: State) {
    s.proc.Down? &&
    (s.disk.oldLayout || (s.disk.marker && !s.lastWal) || Covers(s.disk.offsets, s.logs, s.disk.rows))
  }

  ghost predicate InvUp(s: State) {
    var d, p := s.disk, s.proc;
    && p.Up? && !d.oldLayout && s.lastWal == p.wal
    && p.queue <= s.logs.rows
    && (p.wal || !d.marker ==> Covers(d.offsets, s.logs, d.rows))
    && (p.wal ==> p.memtable == {})
    && (p.phase.Pipeline? ==> p.queue == {})
    && if !Initialised(p) then p.queue == {} && p.memtable == {} && (d.marker ==> p.wal)
       else
         && Covers(p.progress, s.logs, d.rows + p.memtable + p.queue)
         && Covers(d.offsets, s.logs, d.rows + p.memtable + p.queue)
         && (!p.wal && !d.marker ==>
               && Covers(p.progress, s.logs, d.rows)
               && ((p.phase.Pipeline? && !p.steps.processLogs) || p.phase.Logging? ==> s.logs.rows <= d.rows))
  }

  ghost predicate Inv(s: State) {
    (forall r | r in s.logs.rows :: r.LogRow?) && (InvDown(s) || InvUp(s))
  }

  lemma FreshHolds(s: State)
    requires Fresh(s) && forall r | r in s.logs.rows :: r.LogRow?
    ensures Inv(s)
  {
  }

  lemma StartUpKeepsInv(s: State, e: Event)
    requires Inv(s) && Enabled(s, e) && Careful(s, e)
    requires e.Upgrade? || e.StopDirtyWipe? || e.StopMismatchWipe? || e.Start? || e.LoadSteps? || e.FinalizeInit?
    ensures Inv(Next(s, e))
  {
  }

  lemma PipelineKeepsInv(s: State, e: Event)
    requires Inv(s) && Enabled(s, e) && Careful(s, e)
    requires e.StageOk? || e.LogStart? || e.FailLogs? || e.MarkDone? || e.RecordError? || e.Crash?
    ensures Inv(Next(s, e))
  {
  }

  lemma RowsKeepInv(s: State, e: Event)
    requires Inv(s) && Enabled(s, e) && Careful(s, e)
    requires e.Emit? || e.Commit? || e.Spill? || e.PutInfo? || e.FailInfo? || e.SaveInfo?
    ensures Inv(Next(s, e))
  {
  }

  lemma OffsetsKeepInv(s: State, e: Event)
    requires Inv(s) && Enabled(s, e) && Careful(s, e)
    requires e.Tick? || e.FinishFile? || e.SaveOffsets? || e.EndLogs? || e.Shutdown?
    ensures Inv(Next(s, e))
  {
  }

  lemma StepKeepsInv(s: State, e: Event)
    requires Inv(s) && Enabled(s, e) && Careful(s, e)
    ensures Inv(Next(s, e))
  {
    if e.Upgrade? || e.StopDirtyWipe? || e.StopMismatchWipe? || e.Start? || e.LoadSteps? || e.FinalizeInit? {
      StartUpKeepsInv(s, e);
    } else if e.Tick? || e.FinishFile? || e.SaveOffsets? || e.EndLogs? || e.Shutdown? {
      OffsetsKeepInv(s, e);
    } else if e.Emit? || e.Commit? || e.Spill? || e.PutInfo? || e.FailInfo? || e.SaveInfo? {
      RowsKeepInv(s, e);
    } else {
      PipelineKeepsInv(s, e);
    }
  }

  lemma {:induction false} RunKeepsInv(s: State, es: seq<Event>)
    requires Inv(s) && Follows(s, es)
    ensures Inv(Final(s, es))
    decreases |es|
  {
    if es != [] {
      StepKeepsInv(s, es[0]);
      RunKeepsInv(Next(s, es[0]), es[1..]);
    }
  }

  /** Crash consistency over every run: for any interleaving of pipeline progress, crashes and
      restarts, with WAL on or off from start to start, careful steps never lead to a state in which
      log processing would start from offsets that claim a row the opened database lacks. */
  lemma CarefulRunsStayConsistent(s: State, es: seq<Event>)
    requires Fresh(s) && (forall r | r in s.logs.rows :: r.LogRow?) && Follows(s, es)
    ensures !Broken(Final(s, es))
  {
    FreshHolds(s);
    RunKeepsInv(s, es);
  }

  /** What the consistency is for: on a stopped host whose next start will not wipe, offsets that call
      every log file finished mean that every row is stored. */
  lemma FinishedFilesAreStored(s: State, es: seq<Event>)
    requires Fresh(s) && (forall r | r in s.logs.rows :: r.LogRow?) && Follows(s, es)
    ensures
      var t := Final(s, es);
      t.proc.Down? && !t.disk.oldLayout && (t.disk.marker ==> t.lastWal)
        && (forall r | r in t.logs.rows :: r.file in t.disk.offsets && t.disk.offsets[r.file].finished)
      ==> t.logs.rows <= t.disk.rows
  {
    FreshHolds(s);
    RunKeepsInv(s, es);
  }

  /** A clean shutdown after any careful run: the saved offsets claim no row that the database lacks, even
      where the next start is going to wipe, and nothing that was committed is missing. */
  lemma ShutdownLosesNothing(s: State, es: seq<Event>)
    requires Fresh(s) && (forall r | r in s.logs.rows :: r.LogRow?) && Follows(s, es)
    requires Enabled(Final(s, es), Shutdown)
    ensures
      var t, u := Final(s, es), Next(Final(s, es), Shutdown);
      && u.proc.Down? && u.disk.rows == t.disk.rows + t.proc.memtable
      && u.disk.offsets == t.proc.progress && u.disk.infoTried == t.proc.infoTried
      && Covers(u.disk.offsets, u.logs, u.disk.rows)
  {
    FreshHolds(s);
    RunKeepsInv(s, es);
  }

  /** Steps an operator and the program can take care of are careful steps. */
  lemma PrudentIsCareful(s: State, e: Event)
    requires Inv(s) && Enabled(s, e) && Prudent(s, e)
    ensures Careful(s, e)
  {
  }

  // ----- No weaker care will do

  /** A step that does not fail to read `steps.json`. The program goes on without it when it cannot. */
  predicate Readable(e: Event) { e.LoadSteps? ==> e.readOk }

  ghost predicate AllReadable(es: seq<Event>) { forall e | e in es :: Readable(e) }

  /** From here some careful run reaches a start of log processing that trusts wrong offsets; when
      `readable`, even a run in which no load of the step flags fails. */
  ghost predicate CanBreak(s: State, readable: bool) {
    exists es: seq<Event> :: BreakingRun(s, es, readable)
  }

  ghost predicate BreakingRun(s: State, es: seq<Event>, readable: bool) {
    Follows(s, es) && Broken(Final(s, es)) && (readable ==> AllReadable(es))
  }

  lemma BrokenBreaks(s: State, readable: bool)
    requires Broken(s)
    ensures CanBreak(s, readable)
  {
    assert Follows(s, []) && Final(s, []) == s;
    assert BreakingRun(s, [], readable);
  }

  lemma BreakStep(s: State, e: Event, readable: bool)
    requires Enabled(s, e) && Careful(s, e) && CanBreak(Next(s, e), readable)
    requires readable ==> Readable(e)
    ensures CanBreak(s, readable)
  {
    var es: seq<Event> :| BreakingRun(Next(s, e), es, readable);
    var longer := [e] + es;
    assert longer[1..] == es;
    assert Follows(s, longer) && Final(s, longer) == Final(Next(s, e), es);
    assert BreakingRun(s, longer, readable);
  }

  lemma InvCannotBreak(s: State, readable: bool)
    requires Inv(s)
    ensures !CanBreak(s, readable)
  {
    if CanBreak(s, readable) {
      var es: seq<Event> :| BreakingRun(s, es, readable);
      RunKeepsInv(s, es);
      assert false;
    }
  }

  ghost predicate InOrder(st: Steps) { (st.preProcess ==> st.unpack) && (st.unpack ==> st.download) }

  /** The flags of a running process keep the order of the stages. */
  ghost predicate FlagsInOrder(s: State) { s.proc.Up? ==> InOrder(s.proc.steps) }

  /** The saved flags say that log processing is over. */
  predicate Flagged(d: Disk) { d.steps.Some? && d.steps.value.processLogs }

  /** A start that can read the saved flags will process logs. */
  ghost predicate Unflagged(d: Disk) { !Flagged(d) && (d.steps.Some? ==> InOrder(d.steps.value)) }

  ghost function WithStagesDone(s: State): State
    requires s.proc.Up?
  {
    s.(proc := s.proc.(steps := s.proc.steps.(download := true, unpack := true, preProcess := true)))
  }

  /** The stages that are still due can all run, without saving a flag. */
  lemma StagesBreak(s: State, readable: bool)
    requires s.proc.Up? && s.proc.phase.Pipeline? && FlagsInOrder(s)
    requires CanBreak(WithStagesDone(s), readable)
    ensures CanBreak(s, readable)
  {
    var st := s.proc.steps;
    if !st.download {
      DownloadBreaks(s, readable);
    } else if !st.unpack {
      UnpackBreaks(s, readable);
    } else if !st.preProcess {
      PreProcessBreaks(s, readable);
    } else {
      assert s == WithStagesDone(s);
    }
  }

  lemma PreProcessBreaks(s: State, readable: bool)
    requires s.proc.Up? && s.proc.phase.Pipeline?
    requires s.proc.steps.download && s.proc.steps.unpack && !s.proc.steps.preProcess
    requires CanBreak(WithStagesDone(s), readable)
    ensures CanBreak(s, readable)
  {
    assert Next(s, StageOk(PreProcess, false)) == WithStagesDone(s);
    BreakStep(s, StageOk(PreProcess, false), readable);
  }

  lemma UnpackBreaks(s: State, readable: bool)
    requires s.proc.Up? && s.proc.phase.Pipeline?
    requires s.proc.steps.download && !s.proc.steps.unpack && !s.proc.steps.preProcess
    requires CanBreak(WithStagesDone(s), readable)
    ensures CanBreak(s, readable)
  {
    var t := Next(s, StageOk(Unpack, false));
    assert WithStagesDone(t) == WithStagesDone(s);
    PreProcessBreaks(t, readable);
    BreakStep(s, StageOk(Unpack, false), readable);
  }

  lemma DownloadBreaks(s: State, readable: bool)
    requires s.proc.Up? && s.proc.phase.Pipeline?
    requires !s.proc.steps.download && !s.proc.steps.unpack && !s.proc.steps.preProcess
    requires CanBreak(WithStagesDone(s), readable)
    ensures CanBreak(s, readable)
  {
    var t := Next(s, StageOk(Download, false));
    assert WithStagesDone(t) == WithStagesDone(s);
    UnpackBreaks(t, readable);
    BreakStep(s, StageOk(Download, false), readable);
  }

  /** A stopped host whose offsets claim too much, and whose next start will not wipe, is exposed by
      that start. Where the saved flags say that log processing is over, the start must fail to read
      them. */
  lemma RestartBreaks(s: State, wal: bool, readable: bool)
    requires s.proc.Down? && !s.disk.oldLayout && !(s.disk.marker && !wal)
    requires wal && s.disk.marker ==> s.lastWal
    requires !Covers(s.disk.offsets, s.logs, s.disk.rows)
    requires readable ==> Unflagged(s.disk)
    ensures CanBreak(s, readable)
  {
    var s1 := Next(s, Start(wal));
    var s2 := Next(s1, LoadSteps(readable, false));
    var s3 := Next(s2, FinalizeInit(true, false));
    var s4 := WithStagesDone(s3);
    assert s4.disk.rows + s4.proc.memtable == s.disk.rows;
    assert Broken(s4);
    BrokenBreaks(s4, readable);
    StagesBreak(s3, readable);
    BreakStep(s2, FinalizeInit(true, false), readable);
    BreakStep(s1, LoadSteps(readable, false), readable);
    BreakStep(s, Start(wal), readable);
  }

  /** A crash that leaves such a host behind. */
  lemma CrashBreaks(s: State, readable: bool)
    requires s.proc.Up? && !s.disk.oldLayout && s.lastWal == s.proc.wal && (s.proc.wal || !s.disk.marker)
    requires !Covers(s.disk.offsets, s.logs, s.disk.rows)
    requires readable ==> Unflagged(s.disk)
    ensures CanBreak(s, readable)
  {
    RestartBreaks(Next(s, Crash), s.proc.wal, readable);
    BreakStep(s, Crash, readable);
  }

  lemma CarelessClearBreaks(s: State, e: Event, readable: bool)
    requires Inv(s) && Enabled(s, e) && e.EndLogs? && !Careful(s, e)
    requires readable ==> Unflagged(s.disk)
    ensures CanBreak(Next(s, e), readable)
  {
    var p := s.proc;
    var r :| r in p.queue && r !in s.disk.rows && r !in p.memtable &&
      (Skips(p.progress, s.logs.rewind, r) || Skips(s.disk.offsets, s.logs.rewind, r));
    var t := Next(s, e);
    assert r in s.logs.rows && r !in t.disk.rows;
    if Skips(s.disk.offsets, s.logs.rewind, r) {
      CrashBreaks(t, readable);
    } else {
      var u := Next(t, SaveOffsets);
      assert Skips(u.disk.offsets, u.logs.rewind, r);
      CrashBreaks(u, readable);
      BreakStep(t, SaveOffsets, readable);
    }
  }

  lemma CarelessSaveBreaks(s: State, e: Event, readable: bool)
    requires Inv(s) && Enabled(s, e) && e.SaveOffsets? && !Careful(s, e)
    requires readable ==> Unflagged(s.disk)
    ensures CanBreak(Next(s, e), readable)
  {
    var r :| r in s.proc.queue && r !in s.disk.rows && Skips(s.proc.progress, s.logs.rewind, r);
    var t := Next(s, e);
    assert r in t.logs.rows && Skips(t.disk.offsets, t.logs.rewind, r);
    CrashBreaks(t, readable);
  }

  lemma CarelessMismatchWipeBreaks(s: State, e: Event, readable: bool)
    requires Enabled(s, e) && e.StopMismatchWipe? && !Careful(s, e)
    requires readable ==> Unflagged(s.disk)
    ensures CanBreak(Next(s, e), readable)
  {
    RestartBreaks(Next(s, e), e.wal, readable);
  }

  lemma CarelessInitBreaks(s: State, e: Event, readable: bool)
    requires Inv(s) && Enabled(s, e) && e.FinalizeInit? && !Careful(s, e) && FlagsInOrder(s)
    requires readable ==> Unflagged(s.disk)
    ensures CanBreak(Next(s, e), readable)
  {
    var t := Next(s, e);
    var r :| r in s.logs.rows && r !in s.disk.rows;
    UnmarkedLoggingBreaks(WithStagesDone(t), r, readable);
    StagesBreak(t, readable);
  }

  /** Processing with neither WAL nor marker: read what the offsets leave of a file to its end, save
      the offsets, crash. */
  lemma UnmarkedLoggingBreaks(t: State, r: Row, readable: bool)
    requires LogsMayStart(t) && !t.proc.wal && !t.disk.marker && !t.disk.oldLayout && !t.lastWal
    requires t.proc.loaded == t.proc.progress && t.proc.memtable == {}
    requires r in t.logs.rows && r.LogRow? && r !in t.disk.rows
    requires readable ==> Unflagged(t.disk)
    ensures CanBreak(t, readable)
  {
    if Skips(t.proc.progress, t.logs.rewind, r) {
      BrokenBreaks(t, readable);
    } else {
      var due := set q | q in t.logs.rows && !Skips(t.proc.loaded, t.logs.rewind, q);
      var t2 := Next(t, LogStart);
      FinishBreaks(Next(t2, Emit(due)), r, readable);
      BreakStep(t2, Emit(due), readable);
      BreakStep(t, LogStart, readable);
    }
  }

  lemma FinishBreaks(t: State, r: Row, readable: bool)
    requires t.proc.Up? && t.proc.phase.Logging? && !t.proc.wal && !t.disk.marker && !t.disk.oldLayout && !t.lastWal
    requires forall q | q in t.logs.rows :: q in t.proc.queue || Skips(t.proc.progress, t.logs.rewind, q)
    requires r in t.logs.rows && r.LogRow? && r !in t.disk.rows && !Skips(t.proc.progress, t.logs.rewind, r)
    requires readable ==> Unflagged(t.disk)
    ensures CanBreak(t, readable)
  {
    var t2 := Next(t, FinishFile(r.file, 0));
    var t3 := Next(t2, SaveOffsets);
    assert Skips(t3.disk.offsets, t3.logs.rewind, r) && r !in t3.disk.rows;
    CrashBreaks(t3, readable);
    BreakStep(t2, SaveOffsets, readable);
    BreakStep(t, FinishFile(r.file, 0), readable);
  }

  /** The care is exact. In any state that careful runs can be in, a step is careful if and only if no
      careful continuation of it ever trusts wrong offsets. Until the saved flags say that log
      processing is over, no failing read is needed for that. */
  lemma CareIsExact(s: State, e: Event, readable: bool)
    requires Inv(s) && FlagsInOrder(s) && Enabled(s, e)
    requires readable ==> Unflagged(s.disk)
    ensures Careful(s, e) <==> !CanBreak(Next(s, e), readable)
  {
    if Careful(s, e) {
      StepKeepsInv(s, e);
      InvCannotBreak(Next(s, e), readable);
    } else if e.EndLogs? {
      CarelessClearBreaks(s, e, readable);
    } else if e.Start? {
      CrashBreaks(Next(s, e), readable);
    } else if e.SaveOffsets? {
      CarelessSaveBreaks(s, e, readable);
    } else if e.StopMismatchWipe? {
      CarelessMismatchWipeBreaks(s, e, readable);
    } else {
      CarelessInitBreaks(s, e, readable);
    }
  }

  /** Where the program can act on it: when log processing ends with every queued row's file marked
      finished and none of those rows stored yet, flushing the database and clearing the marker is
      safe exactly when the queue has been drained first. */
  lemma ClearNeedsDrainedQueue(s: State, readable: bool)
    requires Inv(s) && FlagsInOrder(s) && Enabled(s, EndLogs(true, true))
    requires !s.proc.wal && s.disk.marker
    requires forall r | r in s.proc.queue ::
      r !in s.disk.rows && r !in s.proc.memtable && r.file in s.proc.progress && s.proc.progress[r.file].finished
    requires readable ==> Unflagged(s.disk)
    ensures !CanBreak(Next(s, EndLogs(true, true)), readable) <==> s.proc.queue == {}
  {
    CareIsExact(s, EndLogs(true, true), readable);
    if s.proc.queue != {} {
      var r :| r in s.proc.queue;
      assert Skips(s.proc.progress, s.logs.rewind, r);
    }
  }

  /** Turning WAL on over a marker skips the wipe, which is safe exactly when the offsets claim
      nothing that the database lacks. */
  lemma SwitchingWalOnExact(s: State, readable: bool)
    requires Inv(s) && s.proc.Down? && s.disk.marker && !s.disk.oldLayout
    requires readable ==> Unflagged(s.disk)
    ensures CanBreak(Next(s, Start(true)), readable) <==> !Covers(s.disk.offsets, s.logs, s.disk.rows)
  {
    CareIsExact(s, Start(true), readable);
  }
}
