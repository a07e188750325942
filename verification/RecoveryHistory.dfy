/** What holds of the saved step flags and of the wipes over every run, careful or not. */
module RecoveryHistory {
  import opened Prelude
  import opened IngestRecovery
  import opened CrashConsistency
  import opened LostRows

  // ----- Step flags

  /** The stages that returned without error since `steps.json` was last removed. */
  ghost function DoneNext(done: set<Stage>, s: State, e: Event): set<Stage> {
    match e
    case StageOk(stage, _) => done + {stage}
    case StopMismatchWipe(_, at) => if at.StepsGone? || at.InProgressRemoval? then {} else done
    case Start(wal) => if s.disk.oldLayout && !(s.disk.marker && !wal) then {} else done
    case _ => done
  }

  ghost function DoneAfter(done: set<Stage>, s: State, es: seq<Event>): set<Stage>
    decreases |es|
  {
    if es == [] then done else DoneAfter(DoneNext(done, s, es[0]), Next(s, es[0]), es[1..])
  }

  /** The order of the stages, and the two processing flags moving together. */
  ghost predicate InStageOrder(st: Steps) {
    && (st.processLogs ==> st.preProcess) && InOrder(st)
    && st.processLogs == st.processCollectInfo
  }

  /** A set flag means that the stage returned without error. */
  ghost predicate Honest(st: Steps, done: set<Stage>) {
    forall stage: Stage :: StageFlag(st, stage) ==> stage in done
  }

  ghost predicate FlagsHold(s: State, done: set<Stage>) {
    && (s.disk.steps.Some? ==> InStageOrder(s.disk.steps.value) && Honest(s.disk.steps.value, done))
    && (s.proc.Up? ==>
          && InStageOrder(s.proc.steps) && Honest(s.proc.steps, done)
          && (s.proc.phase.Logging? || s.proc.phase.LogsOver? ==> StagesDone(s.proc.steps)))
  }

  lemma StartUpKeepsFlags(s: State, done: set<Stage>, e: Event)
    requires FlagsHold(s, done) && Enabled(s, e)
    requires e.Upgrade? || e.StopDirtyWipe? || e.StopMismatchWipe? || e.Start? || e.LoadSteps? || e.FinalizeInit?
             || e.Shutdown? || e.Crash?
    ensures FlagsHold(Next(s, e), DoneNext(done, s, e))
  {
  }

  lemma StagesKeepFlags(s: State, done: set<Stage>, e: Event)
    requires FlagsHold(s, done) && Enabled(s, e)
    requires e.StageOk? || e.LogStart? || e.EndLogs? || e.FailLogs? || e.MarkDone? || e.RecordError?
    ensures FlagsHold(Next(s, e), DoneNext(done, s, e))
  {
  }

  lemma StepKeepsFlags(s: State, done: set<Stage>, e: Event)
    requires FlagsHold(s, done) && Enabled(s, e)
    ensures FlagsHold(Next(s, e), DoneNext(done, s, e))
  {
    if e.Upgrade? || e.StopDirtyWipe? || e.StopMismatchWipe? || e.Start? || e.LoadSteps? || e.FinalizeInit?
       || e.Shutdown? || e.Crash? {
      StartUpKeepsFlags(s, done, e);
    } else if e.StageOk? || e.LogStart? || e.EndLogs? || e.FailLogs? || e.MarkDone? || e.RecordError? {
      StagesKeepFlags(s, done, e);
    }
  }

  lemma {:induction false} RunKeepsFlags(s: State, done: set<Stage>, es: seq<Event>)
    requires FlagsHold(s, done) && Legal(s, es)
    ensures FlagsHold(Final(s, es), DoneAfter(done, s, es))
    decreases |es|
  {
    if es != [] {
      StepKeepsFlags(s, done, es[0]);
      RunKeepsFlags(Next(s, es[0]), DoneNext(done, s, es[0]), es[1..]);
    }
  }

  /** In every `steps.json` that any run can leave behind, across crashes, failed saves, recorded
      errors and both wipes, the flags follow the order of the stages, the two processing flags
      agree, and a stage flag tells the truth about its stage. */
  lemma SavedFlagsAreSound(s: State, es: seq<Event>)
    requires Fresh(s) && Legal(s, es)
    ensures
      var saved := Final(s, es).disk.steps;
      saved.Some? ==> InStageOrder(saved.value) && Honest(saved.value, DoneAfter({}, s, es))
  {
    RunKeepsFlags(s, {}, es);
  }

  /** What the flags do not say: both are set even when log processing failed. The error is recorded beside
      them, and nothing was stored. */
  lemma FailedProcessingIsFlagged(s: State)
    requires Enabled(s, FailLogs)
    ensures
      var es := [FailLogs, MarkDone(true), RecordError(true)];
      var t := Final(s, es);
      && Legal(s, es) && Flagged(t.disk) && t.disk.steps.value.processCollectInfo && t.disk.steps.value.criticalError
      && t.disk.rows == s.disk.rows && t.disk.offsets == s.disk.offsets && t.disk.marker == s.disk.marker
  {
    var s1 := Next(s, FailLogs);
    var s2 := Next(s1, MarkDone(true));
    var s3 := Next(s2, RecordError(true));
    LegalStep(s2, RecordError(true), []);
    LegalStep(s1, MarkDone(true), [RecordError(true)]);
    LegalStep(s, FailLogs, [MarkDone(true), RecordError(true)]);
    assert [FailLogs] + [MarkDone(true), RecordError(true)] == [FailLogs, MarkDone(true), RecordError(true)];
    assert [MarkDone(true)] + [RecordError(true)] == [MarkDone(true), RecordError(true)];
    assert [RecordError(true)] + [] == [RecordError(true)];
  }

  lemma LegalStep(s: State, e: Event, es: seq<Event>)
    requires Enabled(s, e) && Legal(Next(s, e), es)
    ensures Legal(s, [e] + es) && Final(s, [e] + es) == Final(Next(s, e), es)
  {
    assert ([e] + es)[1..] == es;
  }

  /** A careful run is in particular a possible one. */
  lemma {:induction false} FollowingIsLegal(s: State, es: seq<Event>)
    requires Follows(s, es)
    ensures Legal(s, es)
    decreases |es|
  {
    if es != [] {
      FollowingIsLegal(Next(s, es[0]), es[1..]);
    }
  }

  /** The exactness of the care, from a fresh host. */
  lemma CareIsExactOnRuns(s: State, es: seq<Event>, e: Event, readable: bool)
    requires Fresh(s) && (forall r | r in s.logs.rows :: r.LogRow?) && Follows(s, es)
    requires Enabled(Final(s, es), e)
    requires readable ==> !Flagged(Final(s, es).disk)
    ensures Careful(Final(s, es), e) <==> !CanBreak(Next(Final(s, es), e), readable)
  {
    FreshHolds(s);
    RunKeepsInv(s, es);
    FollowingIsLegal(s, es);
    RunKeepsFlags(s, {}, es);
    CareIsExact(Final(s, es), e, readable);
  }

  // ----- The soft wipe is restartable

  ghost function Interrupted(d: Disk, stops: seq<WipeStop>): Disk
    decreases |stops|
  {
    if stops == [] then d else Interrupted(DirtyWipePrefix(d, stops[0]), stops[1..])
  }

  /** However often the soft wipe is cut short, and wherever, the run that completes ends in the one
      state an uninterrupted wipe would have reached; until then the marker stays. */
  lemma {:induction false} WipeIsRestartable(d: Disk, stops: seq<WipeStop>)
    ensures DirtyWiped(Interrupted(d, stops)) == DirtyWiped(d)
    ensures Interrupted(d, stops).marker == d.marker
    decreases |stops|
  {
    if stops != [] {
      WipeIsRestartable(DirtyWipePrefix(d, stops[0]), stops[1..]);
      assert DirtyWiped(DirtyWipePrefix(d, stops[0])) == DirtyWiped(d);
    }
  }

  /** And that one state is: empty database, no log progress, both processing flags down, the
      earlier stages as they were, no marker. */
  lemma WipedState(d: Disk, stops: seq<WipeStop>)
    ensures
      var w := DirtyWiped(Interrupted(d, stops));
      && w.rows == {} && w.offsets == map[] && !w.marker && !w.oldLayout && w.infoTried == d.infoTried
      && (w.steps.Some? <==> d.steps.Some?)
      && (w.steps.Some? ==>
            && !w.steps.value.processLogs && !w.steps.value.processCollectInfo
            && forall stage: Stage :: StageFlag(w.steps.value, stage) == StageFlag(d.steps.value, stage))
  {
    WipeIsRestartable(d, stops);
  }

  /** The order of the soft wipe: the flags are reset only after the offsets are gone, and those go only
      after the database is. */
  lemma SoftWipeOrder(d: Disk, stop: WipeStop)
    ensures
      var w := DirtyWipePrefix(d, stop);
      && (w.steps != d.steps ==> w.offsets == map[]) && (w.offsets != d.offsets ==> w.rows == {} && !w.oldLayout)
      && w.rows <= d.rows && w.marker == d.marker && w.infoTried == d.infoTried
  {
  }

  // ----- What a start opens

  /** A database from before, with everything that ingest knows about it. */
  predicate OpensEmpty(d: Disk) {
    && d.rows == {} && !d.oldLayout && d.steps == None && d.offsets == map[] && d.infoTried == {} && !d.marker
  }

  /** The three ways a start can go, field by field: a marker with WAL off empties the database and has the
      log files processed again; otherwise an old layout has everything done again; otherwise the host is
      opened as it is. */
  lemma StartOpens(s: State, wal: bool)
    requires s.proc.Down?
    ensures
      var d, o := s.disk, Next(s, Start(wal)).disk;
      if d.marker && !wal then
        && o.rows == {} && !o.oldLayout && o.offsets == map[] && !o.marker && o.infoTried == d.infoTried
        && (o.steps.Some? <==> d.steps.Some?)
        && (o.steps.Some? ==>
              && !o.steps.value.processLogs && !o.steps.value.processCollectInfo && !o.steps.value.criticalError
              && o.steps.value.init == d.steps.value.init
              && forall stage: Stage :: StageFlag(o.steps.value, stage) == StageFlag(d.steps.value, stage))
      else if d.oldLayout then OpensEmpty(o)
      else o == d
  {
  }

  /** However often the wipe for a layout mismatch is cut short, the start that completes it opens a host
      on which nothing is left of the old one, row, flag, offset or failed file. */
  lemma {:induction false} MismatchWipedState(s: State, stops: seq<Event>, wal: bool)
    requires Legal(s, stops) && forall e | e in stops :: e.StopMismatchWipe?
    requires s.proc.Down? && Final(s, stops).disk.oldLayout && !(Final(s, stops).disk.marker && !wal)
    ensures OpensEmpty(Next(Final(s, stops), Start(wal)).disk)
    ensures Final(s, stops).disk.rows <= s.disk.rows
    decreases |stops|
  {
    if stops == [] {
      StartOpens(s, wal);
    } else {
      assert stops[0] in stops;
      MismatchWipedState(Next(s, stops[0]), stops[1..], wal);
    }
  }

  /** The order of that wipe: the files of the progress directory go only after `steps.json`, and that only
      after the database. */
  lemma MismatchWipeOrder(d: Disk, stop: MismatchStop)
    ensures
      var w := MismatchWipePrefix(d, stop);
      && (w.offsets != d.offsets || w.marker != d.marker || w.infoTried != d.infoTried ==> w.steps == None)
      && (w.steps != d.steps ==> w.rows == {} && !w.oldLayout)
      && w.rows <= d.rows
  {
  }

  // ----- The wipe for a layout mismatch is not

  /** Cut short after the database is gone, the wipe leaves offsets and flags behind, and the emptied
      directory no longer mismatches. The next start then trusts the stale offsets exactly when they
      claim anything; but if the saved flags say that log processing is over, it has to fail to read
      them for that. */
  lemma MismatchWipeIsNotRestartable(s: State, wal: bool)
    requires Inv(s) && Enabled(s, StopMismatchWipe(wal, DbGone))
    requires s.disk.steps.Some? ==> InOrder(s.disk.steps.value)
    ensures
      var claims := exists r :: r in s.logs.rows && Skips(s.disk.offsets, s.logs.rewind, r);
      var t := Next(s, StopMismatchWipe(wal, DbGone));
      (CanBreak(t, false) <==> claims) && (CanBreak(t, true) <==> claims && !Flagged(s.disk))
  {
    var e := StopMismatchWipe(wal, DbGone);
    CareIsExact(s, e, false);
    if Flagged(s.disk) {
      SettledCannotBreak(Next(s, e));
    } else {
      CareIsExact(s, e, true);
    }
  }

  /** The next start, with WAL on or off, finds flags that say log processing is over above a database
      that lost rows since `before`. */
  ghost predicate Hollow(before: Disk, after: Disk, wal: bool) {
    Flagged(Prepared(after, wal)) && !(before.rows <= Prepared(after, wal).rows)
  }

  /** Which stops of the wipe for a layout mismatch leave that behind: those before `steps.json` goes,
      unless a marker is left and the next start has WAL off. */
  lemma MismatchStopIsHollowExactly(d: Disk, stop: MismatchStop, wal: bool)
    requires d.oldLayout
    ensures Hollow(d, MismatchWipePrefix(d, stop), wal) <==>
      && Flagged(d) && !(d.marker && !wal)
      && match stop
         case InDbRemoval(kept, stillOld) => !stillOld && !(d.rows <= kept)
         case DbGone => d.rows != {}
         case StepsGone => false
         case InProgressRemoval(_, _, _) => false
    ensures !Flagged(MismatchWiped(d))
  {
  }

  /** The soft wipe keeps its marker to the end, so none of its stops does, unless the next start has
      WAL switched on. */
  lemma DirtyStopIsHollowExactly(d: Disk, stop: WipeStop, wal: bool)
    requires d.marker
    ensures Hollow(d, DirtyWipePrefix(d, stop), wal) <==>
      && Flagged(d) && wal
      && match stop
         case InRemoval(kept, stillOld) => !(d.oldLayout && stillOld) && !(d.rows <= kept)
         case AfterDb => d.rows != {}
         case AfterOffsets => d.rows != {}
         case AfterSteps => false
    ensures !Flagged(DirtyWiped(d))
  {
  }

  /** The saved flags, and those in memory once they are loaded, say that log processing is over. */
  ghost predicate Settled(s: State) {
    && Flagged(s.disk) && !s.disk.oldLayout
    && (s.proc.Up? ==>
          && s.proc.queue == {} && !s.proc.phase.Logging? && !s.proc.phase.LogsOver?
          && (!s.proc.phase.Opened? && !s.proc.phase.Aborted? ==> s.proc.steps.processLogs)
          && forall r | r in s.proc.memtable :: r.InfoRow?)
  }

  lemma HollowSettles(before: Disk, s: State, wal: bool)
    requires s.proc.Down? && Hollow(before, s.disk, wal)
    ensures Settled(Next(s, Start(wal)))
  {
  }

  lemma SettledStep(s: State, e: Event)
    requires Settled(s) && Enabled(s, e) && !Wipes(s, e) && Readable(e)
    ensures Settled(Next(s, e)) && s.disk.rows <= Next(s, e).disk.rows
    ensures forall r: Row | r.LogRow? && r !in s.disk.rows :: r !in Next(s, e).disk.rows
  {
  }

  /** And then, as long as the flags can be read and nothing is wiped, log processing never starts
      again, no row is removed, and no log row that the database lacks is ever stored. */
  lemma {:induction false} SettledStaysHollow(s: State, es: seq<Event>)
    requires Settled(s) && Legal(s, es) && Unwiped(s, es) && AllReadable(es)
    ensures Settled(Final(s, es)) && !LogsMayStart(Final(s, es))
    ensures s.disk.rows <= Final(s, es).disk.rows
    ensures forall r: Row | r.LogRow? && r !in s.disk.rows :: r !in Final(s, es).disk.rows
    decreases |es|
  {
    if es != [] {
      assert es[0] in es;
      SettledStep(s, es[0]);
      SettledStaysHollow(Next(s, es[0]), es[1..]);
    }
  }

  /** The whole chain: a wipe cut short leaves the hollow behind, the next start finds it, and in no run
      after that, short of a wipe and with readable flags, does log processing start or is a log row
      stored that the start did not find. */
  lemma HollowStartNeverFills(before: Disk, s: State, wal: bool, es: seq<Event>)
    requires s.proc.Down? && Hollow(before, s.disk, wal)
    requires Legal(Next(s, Start(wal)), es) && Unwiped(Next(s, Start(wal)), es) && AllReadable(es)
    ensures
      var t := Final(Next(s, Start(wal)), es);
      !LogsMayStart(t) && forall r: Row | r.LogRow? && r !in Prepared(s.disk, wal).rows :: r !in t.disk.rows
  {
    HollowSettles(before, s, wal);
    SettledStaysHollow(Next(s, Start(wal)), es);
  }

  /** A wipe brings such a host back into the reach of the invariant. */
  lemma SettledOrConsistent(s: State, e: Event)
    requires (forall r | r in s.logs.rows :: r.LogRow?) && (Settled(s) || Inv(s))
    requires Enabled(s, e) && Careful(s, e) && Readable(e)
    ensures Settled(Next(s, e)) || Inv(Next(s, e))
  {
    if Inv(s) {
      StepKeepsInv(s, e);
    } else if !Wipes(s, e) {
      SettledStep(s, e);
    }
  }

  lemma {:induction false} SettledOrConsistentRun(s: State, es: seq<Event>)
    requires (forall r | r in s.logs.rows :: r.LogRow?) && (Settled(s) || Inv(s))
    requires Follows(s, es) && AllReadable(es)
    ensures Settled(Final(s, es)) || Inv(Final(s, es))
    decreases |es|
  {
    if es != [] {
      assert es[0] in es;
      SettledOrConsistent(s, es[0]);
      SettledOrConsistentRun(Next(s, es[0]), es[1..]);
    }
  }

  lemma SettledCannotBreak(s: State)
    requires (forall r | r in s.logs.rows :: r.LogRow?) && Settled(s)
    ensures !CanBreak(s, true)
  {
    if CanBreak(s, true) {
      var es: seq<Event> :| BreakingRun(s, es, true);
      SettledOrConsistentRun(s, es);
      assert false;
    }
  }

  // ----- When a finished host keeps its database

  /** A start that wipes if it finds a marker. */
  predicate StartsWithoutWal(e: Event) { e == Start(false) || e.StopDirtyWipe? }

  predicate WritesMarker(e: Event) { e.FinalizeInit? && e.markerOk }

  /** No start with WAL off comes while the marker is there: from the beginning, if `marked`, or after an
      initialisation that wrote it. A condition on the events alone. */
  predicate NoMarkedStart(marked: bool, es: seq<Event>)
    decreases |es|
  {
    es == [] ||
    (!(marked && StartsWithoutWal(es[0])) && NoMarkedStart(marked || WritesMarker(es[0]), es[1..]))
  }

  lemma SettledMarker(s: State, e: Event)
    requires Settled(s) && Enabled(s, e) && !Wipes(s, e) && Readable(e)
    ensures Next(s, e).disk.marker == (s.disk.marker || WritesMarker(e))
  {
  }

  lemma SettledWipesExactly(s: State, e: Event)
    requires Settled(s) && Enabled(s, e) && e != Upgrade
    ensures Wipes(s, e) <==> s.disk.marker && StartsWithoutWal(e)
  {
  }

  /** Which runs of a finished host keep its database: with readable flags and no upgrade, nothing is
      wiped, and so no row is removed, if and only if no start with WAL off meets a marker. Nothing but a
      wipe removes the marker of a finished host, and every initialisation writes it. */
  lemma {:induction false} FinishedKeepsDatabaseExactly(s: State, es: seq<Event>)
    requires Settled(s) && Legal(s, es) && AllReadable(es) && Upgrade !in es
    ensures Unwiped(s, es) <==> NoMarkedStart(s.disk.marker, es)
    ensures Unwiped(s, es) ==> s.disk.rows <= Final(s, es).disk.rows
    decreases |es|
  {
    if es != [] {
      assert es[0] in es;
      SettledWipesExactly(s, es[0]);
      if !Wipes(s, es[0]) {
        SettledMarker(s, es[0]);
        SettledStep(s, es[0]);
        FinishedKeepsDatabaseExactly(Next(s, es[0]), es[1..]);
      }
    }
  }

  /** After a finished ingest without WAL, one clean restart leaves a marker behind, because it is
      written at every initialisation and cleared only by log processing, which does not run again.
      The start after that wipes the database and clears both processing flags. */
  lemma RestartAfterSuccessWipes(s: State) returns (es: seq<Event>)
    requires s.proc.Down? && !s.disk.marker && !s.disk.oldLayout
    requires s.disk.steps.Some? && s.disk.steps.value.processLogs
    ensures es == [Start(false), LoadSteps(true, true), FinalizeInit(true, true), Shutdown, Start(false)]
    ensures Follows(s, es)
    ensures Final(s, es).disk.rows == {} && Final(s, es).disk.offsets == map[]
    ensures Final(s, es).disk.steps.Some? && !Final(s, es).disk.steps.value.processLogs
    ensures !NoMarkedStart(false, es)
  {
    es := [Start(false), LoadSteps(true, true), FinalizeInit(true, true), Shutdown, Start(false)];
    var s1 := Next(s, es[0]);
    var s2 := Next(s1, es[1]);
    var s3 := Next(s2, es[2]);
    var s4 := Next(s3, es[3]);
    var s5 := Next(s4, es[4]);
    assert s4.disk.marker && s4.disk.infoTried == s.disk.infoTried;
    FollowsStep(s4, es[4], []);
    FollowsStep(s3, es[3], [es[4]]);
    FollowsStep(s2, es[2], [es[3], es[4]]);
    FollowsStep(s1, es[1], [es[2], es[3], es[4]]);
    FollowsStep(s, es[0], [es[1], es[2], es[3], es[4]]);
    assert es == [es[0]] + [es[1], es[2], es[3], es[4]];
    assert Final(s, es) == s5;
  }

  lemma FollowsStep(s: State, e: Event, es: seq<Event>)
    requires Enabled(s, e) && Careful(s, e) && Follows(Next(s, e), es)
    ensures Follows(s, [e] + es) && Final(s, [e] + es) == Final(Next(s, e), es)
  {
    assert ([e] + es)[1..] == es;
  }
}
