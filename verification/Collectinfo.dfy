/** What becomes of the collectinfo rows. They are handed to the database after log processing has
    flushed it and cleared the marker, and nothing but the saved step flag says that they are there. */
module Collectinfo {
  import opened Prelude
  import opened IngestRecovery
  import opened CrashConsistency
  import opened LostRows
  import opened RecoveryHistory

  // ----- Files that failed

  /** The file has failed, and its row is in neither the database nor the process. */
  ghost predicate GivenUp(s: State, file: string) {
    && file in s.disk.infoTried && InfoRow(file) !in s.disk.rows && !s.disk.oldLayout
    && (s.proc.Up? ==>
          && InfoRow(file) !in s.proc.memtable && InfoRow(file) !in s.proc.queue
          && (Initialised(s.proc) ==> file in s.proc.infoTried))
  }

  /** The next start will not keep processing from coming to the file. */
  predicate Due(d: Disk, file: string) {
    file !in d.infoTried && (d.steps.Some? ==> !d.steps.value.processCollectInfo)
  }

  /** The soft wipe leaves `cf-processor.json` alone: afterwards exactly the files that had not failed are
      due again, and exactly those that had are given up. */
  lemma WipeRetriesExactly(s: State, file: string)
    requires s.proc.Down? && s.disk.marker && !s.disk.oldLayout
    ensures
      var t := Next(s, Start(false));
      && (Due(t.disk, file) <==> file !in s.disk.infoTried)
      && (GivenUp(t, file) <==> file in s.disk.infoTried)
  {
  }

  lemma GivenUpStep(s: State, e: Event, file: string)
    requires (forall r | r in s.logs.rows :: r.LogRow?) && GivenUp(s, file) && Enabled(s, e) && e != Upgrade
    ensures GivenUp(Next(s, e), file)
  {
  }

  /** A file that failed is not processed again, whatever the pipeline does, until an upgrade changes the
      storage layout and so removes the progress with the database. */
  lemma {:induction false} GivenUpStaysGivenUp(s: State, es: seq<Event>, file: string)
    requires (forall r | r in s.logs.rows :: r.LogRow?) && GivenUp(s, file) && Legal(s, es)
    requires Upgrade !in es
    ensures GivenUp(Final(s, es), file)
    decreases |es|
  {
    if es != [] {
      GivenUpStep(s, es[0], file);
      GivenUpStaysGivenUp(Next(s, es[0]), es[1..], file);
    }
  }

  /** A failure is not tried again by the process that saw it. It is given up for good once the progress has
      been saved, and not before: a crash without that leaves the disk as it was. */
  lemma FailureSticksOnceSaved(s: State, file: string)
    requires Enabled(s, FailInfo(file)) && !s.disk.oldLayout
    requires InfoRow(file) !in s.disk.rows && InfoRow(file) !in s.proc.memtable && InfoRow(file) !in s.proc.queue
    ensures
      var t := Next(s, FailInfo(file));
      && !InfoDue(t, file) && Next(t, Crash).disk == s.disk
      && GivenUp(Next(t, SaveInfo), file) && GivenUp(Next(Next(t, SaveInfo), Crash), file)
  {
  }

  // ----- Files that were processed

  /** The files whose row the database has accepted, unless they failed later. */
  function Accepted(accepted: set<string>, e: Event): set<string> {
    match e
    case PutInfo(file) => accepted + {file}
    case FailInfo(file) => accepted - {file}
    case _ => accepted
  }

  ghost predicate Stored(accepted: set<string>, rows: set<Row>) {
    forall file | file in accepted :: InfoRow(file) in rows
  }

  /** A stopped host has lost the file: its row was accepted, it is not in the database, the saved flags
      say that nothing is left to process, and no wipe is due at the next start with the same WAL
      setting. */
  ghost predicate InfoLost(s: State, accepted: set<string>, file: string) {
    && s.proc.Down? && !s.disk.oldLayout && Flagged(s.disk) && !(s.disk.marker && !s.lastWal)
    && file in accepted && InfoRow(file) !in s.disk.rows
  }

  ghost function Crashed(s: State): State { s.(proc := Down) }

  /** The care that keeps collectinfo rows: WAL may be switched on over a marker, a mismatch wipe be cut
      short, the marker be cleared, a row be handed over without WAL, and the flags be saved, only when
      the flags are down, a wipe is due, or every accepted row is in the database. */
  ghost predicate InfoCareful(s: State, accepted: set<string>, e: Event) {
    var d, p := s.disk, s.proc;
    match e
    case Start(wal) => wal && d.marker && !s.lastWal && !d.oldLayout && Flagged(d) ==> Stored(accepted, d.rows)
    case StopMismatchWipe(wal, at) =>
      var d' := MismatchWipePrefix(d, at);
      d'.oldLayout || !Flagged(d') || (d'.marker && !wal) || Stored(accepted, d'.rows)
    case PutInfo(file) =>
      p.Up? && Flagged(d) && !p.wal && !d.marker ==> InfoRow(file) in d.rows
    case EndLogs(_, cleared) =>
      p.Up? && cleared && d.marker && Flagged(d) && !p.wal ==> Stored(accepted, d.rows + p.memtable)
    case MarkDone(saved) => p.Up? && saved && (p.wal || !d.marker) ==> Stored(accepted, d.rows)
    case _ => true
  }

  ghost predicate Paired(st: Steps) { st.processLogs == st.processCollectInfo }

  /** Once the flags are saved and no wipe is due, every accepted row is in the database. */
  ghost predicate InfoHeld(s: State, accepted: set<string>) {
    var d, p := s.disk, s.proc;
    && (forall r | r in s.logs.rows :: r.LogRow?)
    && (d.steps.Some? ==> Paired(d.steps.value))
    && (Flagged(d) && !d.oldLayout && !(d.marker && !s.lastWal) ==> Stored(accepted, d.rows))
    && (p.Up? ==>
          && !d.oldLayout && s.lastWal == p.wal && Paired(p.steps)
          && (!Initialised(p) ==> (d.marker ==> p.wal))
          && (p.wal ==> p.memtable == {})
          && (!p.phase.Ended? && p.steps.processLogs ==> Flagged(d)))
  }

  predicate StartUp(e: Event) {
    e.Upgrade? || e.StopDirtyWipe? || e.StopMismatchWipe? || e.Start? || e.LoadSteps? || e.FinalizeInit?
    || e.Shutdown? || e.Crash?
  }

  lemma InfoStartUpKeeps(s: State, accepted: set<string>, e: Event)
    requires InfoHeld(s, accepted) && Enabled(s, e) && InfoCareful(s, accepted, e) && StartUp(e)
    ensures InfoHeld(Next(s, e), Accepted(accepted, e))
  {
  }

  lemma InfoPipelineKeeps(s: State, accepted: set<string>, e: Event)
    requires InfoHeld(s, accepted) && Enabled(s, e) && InfoCareful(s, accepted, e) && !StartUp(e)
    ensures InfoHeld(Next(s, e), Accepted(accepted, e))
  {
  }

  lemma InfoStepKeeps(s: State, accepted: set<string>, e: Event)
    requires InfoHeld(s, accepted) && Enabled(s, e) && InfoCareful(s, accepted, e)
    ensures InfoHeld(Next(s, e), Accepted(accepted, e))
  {
    if StartUp(e) {
      InfoStartUpKeeps(s, accepted, e);
    } else {
      InfoPipelineKeeps(s, accepted, e);
    }
  }

  lemma HeldLosesNothing(s: State, accepted: set<string>, file: string)
    requires InfoHeld(s, accepted)
    ensures !InfoLost(Crashed(s), accepted, file)
  {
  }

  lemma CarelessLoses(s: State, accepted: set<string>, e: Event) returns (file: string)
    requires InfoHeld(s, accepted) && Enabled(s, e) && !InfoCareful(s, accepted, e)
    ensures InfoLost(Crashed(Next(s, e)), Accepted(accepted, e), file)
  {
    assert !Stored(Accepted(accepted, e), Next(s, e).disk.rows);
    file :| file in Accepted(accepted, e) && InfoRow(file) !in Next(s, e).disk.rows;
  }

  /** The care is exact, step by step: a step is careful if and only if a crash right after it loses no
      accepted row. */
  lemma InfoStepExact(s: State, accepted: set<string>, e: Event)
    requires InfoHeld(s, accepted) && Enabled(s, e)
    ensures InfoCareful(s, accepted, e)
       <==> forall file :: !InfoLost(Crashed(Next(s, e)), Accepted(accepted, e), file)
  {
    if InfoCareful(s, accepted, e) {
      InfoStepKeeps(s, accepted, e);
      forall file ensures !InfoLost(Crashed(Next(s, e)), Accepted(accepted, e), file) {
        HeldLosesNothing(Next(s, e), Accepted(accepted, e), file);
      }
    } else {
      var file := CarelessLoses(s, accepted, e);
    }
  }

  // ----- Whole runs

  ghost function AcceptedAfter(accepted: set<string>, es: seq<Event>): set<string>
    decreases |es|
  {
    if es == [] then accepted else AcceptedAfter(Accepted(accepted, es[0]), es[1..])
  }

  ghost predicate InfoFollows(s: State, accepted: set<string>, es: seq<Event>)
    decreases |es|
  {
    es == [] ||
    (Enabled(s, es[0]) && InfoCareful(s, accepted, es[0])
     && InfoFollows(Next(s, es[0]), Accepted(accepted, es[0]), es[1..]))
  }

  lemma {:induction false} InfoRunKeeps(s: State, accepted: set<string>, es: seq<Event>)
    requires InfoHeld(s, accepted) && InfoFollows(s, accepted, es)
    ensures InfoHeld(Final(s, es), AcceptedAfter(accepted, es))
    decreases |es|
  {
    if es != [] {
      InfoStepKeeps(s, accepted, es[0]);
      InfoRunKeeps(Next(s, es[0]), Accepted(accepted, es[0]), es[1..]);
    }
  }

  /** Some careful run from here stops with a lost file. */
  ghost predicate CanLoseInfo(s: State, accepted: set<string>) {
    exists es: seq<Event>, file: string ::
      InfoFollows(s, accepted, es) && InfoLost(Final(s, es), AcceptedAfter(accepted, es), file)
  }

  lemma CrashCanLoseInfo(s: State, accepted: set<string>, file: string)
    requires InfoLost(Crashed(s), accepted, file)
    ensures CanLoseInfo(s, accepted)
  {
    if s.proc.Down? {
      assert Crashed(s) == s;
      assert InfoFollows(s, accepted, []) && Final(s, []) == s && AcceptedAfter(accepted, []) == accepted;
    } else {
      var es := [Crash];
      assert es[1..] == [] && Next(s, Crash) == Crashed(s);
      assert InfoFollows(Crashed(s), accepted, []);
      assert InfoFollows(s, accepted, es) && Final(s, es) == Crashed(s);
      assert AcceptedAfter(accepted, es) == accepted;
    }
  }

  /** The care is exact over runs: after any careful run from a fresh host, a step is careful if and only if
      no careful continuation ever stops with an accepted collectinfo row lost. */
  lemma InfoCareIsExact(s: State, es: seq<Event>, e: Event)
    requires Fresh(s) && (forall r | r in s.logs.rows :: r.LogRow?) && InfoFollows(s, {}, es)
    requires Enabled(Final(s, es), e)
    ensures
      var accepted := AcceptedAfter({}, es);
      InfoCareful(Final(s, es), accepted, e) <==> !CanLoseInfo(Next(Final(s, es), e), Accepted(accepted, e))
  {
    var t, accepted := Final(s, es), AcceptedAfter({}, es);
    InfoRunKeeps(s, {}, es);
    if InfoCareful(t, accepted, e) {
      InfoStepKeeps(t, accepted, e);
      HeldCannotLose(Next(t, e), Accepted(accepted, e));
    } else {
      var file := CarelessLoses(t, accepted, e);
      CrashCanLoseInfo(Next(t, e), Accepted(accepted, e), file);
    }
  }

  lemma HeldCannotLose(s: State, accepted: set<string>)
    requires InfoHeld(s, accepted)
    ensures !CanLoseInfo(s, accepted)
  {
    if CanLoseInfo(s, accepted) {
      var es: seq<Event>, file :|
        InfoFollows(s, accepted, es) && InfoLost(Final(s, es), AcceptedAfter(accepted, es), file);
      InfoRunKeeps(s, accepted, es);
      assert Crashed(Final(s, es)) == Final(s, es);
      HeldLosesNothing(Final(s, es), AcceptedAfter(accepted, es), file);
    }
  }

  // ----- What is lost stays lost

  /** No possible run that can read the flags stores the row again, short of a wipe. */
  ghost predicate InfoGone(s: State, file: string) {
    forall es: seq<Event> | Legal(s, es) && Unwiped(s, es) && AllReadable(es) ::
      InfoRow(file) !in Final(s, es).disk.rows
  }

  /** The flags saved, and those in memory once they are loaded, say that collectinfo processing is over. */
  ghost predicate Closed(s: State, file: string) {
    && s.disk.steps.Some? && s.disk.steps.value.processCollectInfo
    && (s.proc.Up? && !s.proc.phase.Opened? && !s.proc.phase.Aborted? ==> s.proc.steps.processCollectInfo)
    && InfoRow(file) !in s.disk.rows
    && (s.proc.Up? ==> InfoRow(file) !in s.proc.memtable && InfoRow(file) !in s.proc.queue)
  }

  lemma ClosedStep(s: State, e: Event, file: string)
    requires (forall r | r in s.logs.rows :: r.LogRow?) && Closed(s, file)
    requires Enabled(s, e) && !Wipes(s, e) && Readable(e)
    ensures Closed(Next(s, e), file)
  {
  }

  lemma {:induction false} ClosedRun(s: State, es: seq<Event>, file: string)
    requires (forall r | r in s.logs.rows :: r.LogRow?) && Closed(s, file)
    requires Legal(s, es) && Unwiped(s, es) && AllReadable(es)
    ensures Closed(Final(s, es), file)
    decreases |es|
  {
    if es != [] {
      assert es[0] in es;
      ClosedStep(s, es[0], file);
      ClosedRun(Next(s, es[0]), es[1..], file);
    }
  }

  /** A lost file is gone, until a wipe. */
  lemma LostInfoIsGone(s: State, accepted: set<string>, file: string)
    requires (forall r | r in s.logs.rows :: r.LogRow?) && InfoLost(s, accepted, file)
    requires Paired(s.disk.steps.value)
    ensures InfoGone(s, file)
  {
    forall es: seq<Event> | Legal(s, es) && Unwiped(s, es) && AllReadable(es)
      ensures InfoRow(file) !in Final(s, es).disk.rows
    {
      ClosedRun(s, es, file);
    }
  }

  // ----- What the code does

  ghost predicate PrudentRun(s: State, es: seq<Event>)
    decreases |es|
  {
    es == [] || (Enabled(s, es[0]) && Prudent(s, es[0]) && PrudentRun(Next(s, es[0]), es[1..]))
  }

  /** The order of the program, without WAL: log processing ends, flushes and clears the marker, the queue
      drained before it; then a collectinfo file is processed, the flags are saved, and the process dies.
      Every step is prudent with respect to log rows, no wipe is due, and the row is gone. */
  lemma UnflushedInfoIsLost(s: State, file: string)
    requires Inv(s) && s.proc.Up? && s.proc.phase.Logging? && !s.proc.wal && s.proc.queue == {}
    requires Paired(s.proc.steps) && !s.proc.steps.processLogs && file !in s.proc.infoTried
    requires InfoRow(file) !in s.disk.rows && InfoRow(file) !in s.proc.memtable
    ensures
      var es := [EndLogs(true, true), PutInfo(file), MarkDone(true), Crash];
      && PrudentRun(s, es) && !Final(s, es).disk.marker
      && InfoLost(Final(s, es), AcceptedAfter({}, es), file) && InfoGone(Final(s, es), file)
  {
    var t := Next(s, EndLogs(true, true));
    var rest := [PutInfo(file), MarkDone(true), Crash];
    FlagOverUnflushed(t, file);
    OneMorePrudent(s, {}, EndLogs(true, true), rest);
    assert [EndLogs(true, true)] + rest == [EndLogs(true, true), PutInfo(file), MarkDone(true), Crash];
  }

  lemma FlagOverUnflushed(t: State, file: string)
    requires (forall r | r in t.logs.rows :: r.LogRow?) && !t.disk.oldLayout && !t.disk.marker
    requires t.proc.Up? && t.proc.phase.LogsOver? && !t.proc.wal && t.proc.queue == {}
    requires Paired(t.proc.steps) && !t.proc.steps.processLogs && file !in t.proc.infoTried
    requires InfoRow(file) !in t.disk.rows
    ensures
      var es := [PutInfo(file), MarkDone(true), Crash];
      && PrudentRun(t, es) && !Final(t, es).disk.marker
      && InfoLost(Final(t, es), AcceptedAfter({}, es), file) && InfoGone(Final(t, es), file)
  {
    CrashOverUnflushed(t, file);
    var t1 := Next(t, PutInfo(file));
    var t2 := Next(t1, MarkDone(true));
    var t3 := Next(t2, Crash);
    assert PrudentRun(t3, []) && AcceptedAfter({file}, []) == {file};
    OneMorePrudent(t2, {file}, Crash, []);
    OneMorePrudent(t1, {file}, MarkDone(true), [Crash]);
    OneMorePrudent(t, {}, PutInfo(file), [MarkDone(true), Crash]);
    assert [PutInfo(file)] + ([MarkDone(true)] + ([Crash] + [])) == [PutInfo(file), MarkDone(true), Crash];
  }

  lemma CrashOverUnflushed(t: State, file: string)
    requires (forall r | r in t.logs.rows :: r.LogRow?) && !t.disk.oldLayout && !t.disk.marker
    requires t.proc.Up? && t.proc.phase.LogsOver? && !t.proc.wal && t.proc.queue == {}
    requires Paired(t.proc.steps) && InfoRow(file) !in t.disk.rows
    ensures
      var t3 := Next(Next(Next(t, PutInfo(file)), MarkDone(true)), Crash);
      InfoLost(t3, {file}, file) && InfoGone(t3, file)
  {
    LostInfoIsGone(Next(Next(Next(t, PutInfo(file)), MarkDone(true)), Crash), {file}, file);
  }

  lemma OneMorePrudent(s: State, accepted: set<string>, e: Event, es: seq<Event>)
    requires Enabled(s, e) && Prudent(s, e) && PrudentRun(Next(s, e), es)
    ensures PrudentRun(s, [e] + es) && Final(s, [e] + es) == Final(Next(s, e), es)
    ensures AcceptedAfter(accepted, [e] + es) == AcceptedAfter(Accepted(accepted, e), es)
  {
    assert ([e] + es)[1..] == es;
  }

  /** Such a state is reached by a careful run from a fresh host. */
  lemma UnflushedInfoIsReachable()
    ensures exists s: State ::
      && Reachable(FRESH, s) && Inv(s) && s.proc.Up? && s.proc.phase.Logging? && !s.proc.wal && s.proc.queue == {}
      && Paired(s.proc.steps) && !s.proc.steps.processLogs && s.proc.infoTried == {}
      && forall file :: InfoRow(file) !in s.disk.rows && InfoRow(file) !in s.proc.memtable
  {
    LoggingIsReachable();
    Reach(FRESH, LOGGING, Commit({ONE_ROW}));
    ReachableHolds(Next(LOGGING, Commit({ONE_ROW})));
  }

  lemma ReachableHolds(s: State)
    requires Reachable(FRESH, s)
    ensures Inv(s)
  {
    var es: seq<Event> :| Follows(FRESH, es) && Final(FRESH, es) == s;
    FreshHolds(FRESH);
    RunKeepsInv(FRESH, es);
  }
}
