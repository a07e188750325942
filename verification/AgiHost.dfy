/** The AGI host as the commands see it: files they read and rewrite one by one. Every method is
    tied to the steps of the transition system. */
module AgiHost {
  import opened Prelude
  import opened IngestRecovery

  /** How one pipeline stage goes: the stage itself, the save of its flag, the notification. */
  datatype StageScript = StageScript(ok: bool, saved: bool, notified: bool)

  /** What the outside world does to one run of the pipeline up to log processing. */
  datatype Script = Script(
    readOk: bool, loadSaved: bool,
    initOk: bool, markerOk: bool, initSaved: bool, initNotified: bool,
    download: StageScript, unpack: StageScript, preProcess: StageScript,
    errorSaved: bool)

  datatype RunResult = ReadyForLogs | NothingToProcess | Failed

  predicate StagesSaved(script: Script) { script.download.saved && script.unpack.saved && script.preProcess.saved }

  lemma {:induction false} LegalOneMore(s: State, es: seq<Event>, e: Event)
    requires Legal(s, es) && Enabled(Final(s, es), e)
    ensures Legal(s, es + [e]) && Final(s, es + [e]) == Next(Final(s, es), e)
    decreases |es|
  {
    if es == [] {
      assert es + [e] == [e] && [e][1..] == [];
    } else {
      assert (es + [e])[1..] == es[1..] + [e];
      LegalOneMore(Next(s, es[0]), es[1..], e);
    }
  }

  class Host {
    const logs: Logs
    var steps: Option<Steps>
    var marker: bool
    var offsets: Offsets
    var infoTried: set<string>
    var rows: set<Row>
    var oldLayout: bool

    // What a crash takes away, and the WAL setting of the last start.
    var proc: Process
    ghost var lastWal: bool

    ghost function DiskNow(): Disk
      reads this
    {
      Disk(steps, marker, offsets, infoTried, rows, oldLayout)
    }

    ghost function Now(): State
      reads this
    {
      State(logs, DiskNow(), proc, lastWal)
    }

    constructor (logs: Logs)
      ensures Fresh(Now()) && this.logs == logs
    {
      this.logs := logs;
      steps, marker, offsets, infoTried, rows, oldLayout := None, false, map[], {}, {}, false;
      proc, lastWal := Down, false;
    }

    /** `agiWipeOnDirty`, cut short where `stop` says. */
    method WipeOnDirty(stop: Option<WipeStop>) returns (completed: bool)
      modifies this`steps, this`marker, this`offsets, this`rows, this`oldLayout
      ensures completed <==> stop.None?
      ensures DiskNow() ==
        if stop.None? then DirtyWiped(old(DiskNow())) else DirtyWipePrefix(old(DiskNow()), stop.value)
      ensures completed ==> rows == {} && !oldLayout && offsets == map[] && !marker
      ensures !completed ==> marker == old(marker)
    {
      if stop.Some? && stop.value.InRemoval? {
        rows, oldLayout := rows * stop.value.kept, oldLayout && stop.value.stillOld;
        return false;
      }
      rows, oldLayout := {}, false;
      if stop == Some(AfterDb) {
        return false;
      }
      offsets := map[];
      if stop == Some(AfterOffsets) {
        return false;
      }
      if steps.Some? {
        var st := steps.value;
        st := st.(processLogs := false);
        st := st.(processCollectInfo := false);
        st := st.(criticalError := false);
        steps := Some(st);
      }
      if stop == Some(AfterSteps) {
        return false;
      }
      marker := false;
      return true;
    }

    /** `agiWipeOnVersionMismatch`, cut short where `stop` says. */
    method WipeOnVersionMismatch(stop: Option<MismatchStop>) returns (completed: bool)
      modifies this`steps, this`marker, this`offsets, this`infoTried, this`rows, this`oldLayout
      ensures completed <==> stop.None?
      ensures DiskNow() ==
        if stop.None? then MismatchWiped(old(DiskNow())) else MismatchWipePrefix(old(DiskNow()), stop.value)
      ensures completed ==> rows == {} && !oldLayout && steps == None && offsets == map[] && infoTried == {} && !marker
    {
      if stop.Some? && stop.value.InDbRemoval? {
        rows, oldLayout := rows * stop.value.kept, stop.value.stillOld;
        return false;
      }
      rows, oldLayout := {}, false;
      if stop == Some(DbGone) {
        return false;
      }
      steps := None;
      if stop == Some(StepsGone) {
        return false;
      }
      // `os.RemoveAll` takes the files of the directory in an order of its own.
      var cut := stop.Some? && stop.value.InProgressRemoval?;
      if !(cut && stop.value.keepsMarker) {
        marker := false;
      }
      if !(cut && stop.value.keepsOffsets) {
        offsets := map[];
      }
      if !(cut && stop.value.keepsTried) {
        infoTried := {};
      }
      return !cut;
    }

    /** The start-up of the service up to the open database: the dirty check before the open, the
        mismatch wipe after a refused one. Either wipe may be cut short; then nothing is opened. */
    method StartService(wal: bool, dirtyStop: Option<WipeStop>, mismatchStop: Option<MismatchStop>)
      returns (running: bool, ghost e: Event)
      requires proc.Down?
      modifies this
      ensures Enabled(old(Now()), e) && Now() == Next(old(Now()), e)
      ensures running <==> e.Start?
      ensures running ==> !oldLayout && (marker ==> wal)
      ensures running && old(marker) && !wal ==>
        rows == {} && offsets == map[] && !marker && infoTried == old(infoTried)
      ensures running && old(oldLayout) && !(old(marker) && !wal) ==>
        rows == {} && steps == None && offsets == map[] && infoTried == {} && !marker
      ensures running && !old(oldLayout) && !(old(marker) && !wal) ==> DiskNow() == old(DiskNow())
    {
      lastWal := wal;
      if !wal && marker {
        var wiped := WipeOnDirty(dirtyStop);
        if !wiped {
          return false, StopDirtyWipe(dirtyStop.value);
        }
      }
      if oldLayout {
        var wiped := WipeOnVersionMismatch(mismatchStop);
        if !wiped {
          return false, StopMismatchWipe(wal, mismatchStop.value);
        }
      }
      proc := Up(wal, Opened, NO_STEPS, map[], map[], {}, {}, {});
      return true, Start(wal);
    }

    /** Rewrites `steps.json` through a temporary file and a rename; a failed write changes nothing. */
    method SaveSteps(st: Steps, saved: bool)
      modifies this`steps
      ensures DiskNow() == SavedSteps(old(DiskNow()), st, saved)
      ensures steps == if saved then Some(st) else old(steps)
    {
      if saved {
        steps := Some(st);
      }
    }

    /** `Execute` after a failed run: the error is recorded in whatever the file holds. */
    method RecordFailure(saved: bool)
      requires Enabled(Now(), RecordError(saved))
      modifies this`steps, this`proc
      ensures Now() == Next(old(Now()), RecordError(saved))
      ensures !saved ==> steps == old(steps)
      ensures saved ==>
        steps == Some((if old(steps).Some? then old(steps).value else NO_STEPS).(criticalError := true))
    {
      var st := NO_STEPS;
      if steps.Some? {
        st := steps.value;
      }
      st := st.(criticalError := true);
      SaveSteps(st, saved);
      proc := proc.(phase := if Initialised(proc) then Ended else Aborted);
    }

    /** The events `es` lead from `start` to here. */
    ghost predicate CameFrom(start: State, es: seq<Event>)
      reads this
    {
      Legal(start, es) && Now() == Final(start, es)
    }

    /** A failed run, recorded. */
    method Fail(saved: bool, ghost start: State, ghost es: seq<Event>) returns (ghost es': seq<Event>)
      requires CameFrom(start, es) && Enabled(Now(), RecordError(saved))
      modifies this`steps, this`proc
      ensures CameFrom(start, es')
      ensures saved ==> steps.Some? && steps.value.criticalError
    {
      LegalOneMore(start, es, RecordError(saved));
      RecordFailure(saved);
      es' := es + [RecordError(saved)];
    }

    /** One stage of `run`: skipped when its flag is set, otherwise run, flagged and saved; an error
        of the stage or of the notification ends the run. */
    method RunStage(stage: Stage, script: StageScript, st: Steps, errorSaved: bool,
                    ghost start: State, ghost es: seq<Event>)
      returns (st': Steps, failed: bool, ghost es': seq<Event>)
      requires proc.Up? && proc.phase.Pipeline? && proc.steps == st
      requires StageFlag(st, stage) || StageDue(st, stage)
      requires CameFrom(start, es)
      modifies this`steps, this`proc
      ensures CameFrom(start, es')
      ensures failed <==> !StageFlag(st, stage) && !(script.ok && script.notified)
      ensures failed && errorSaved ==> steps.Some? && steps.value.criticalError
      ensures !failed ==>
        && proc.Up? && proc.phase.Pipeline? && proc.steps == st' == SetStage(st, stage)
        && proc.progress == old(proc.progress)
        && (old(steps) == Some(st) && script.saved ==> steps == Some(st'))
    {
      st', failed, es' := st, false, es;
      if StageFlag(st, stage) {
        return;
      }
      if !script.ok {
        es' := Fail(errorSaved, start, es');
        return st', true, es';
      }
      LegalOneMore(start, es, StageOk(stage, script.saved));
      st' := SetStage(st, stage);
      SaveSteps(st', script.saved);
      proc := proc.(steps := st');
      es' := es + [StageOk(stage, script.saved)];
      if !script.notified {
        es' := Fail(errorSaved, start, es');
        return st', true, es';
      }
    }

    /** The first two stages. */
    method FetchStages(script: Script, st: Steps, ghost start: State, ghost es: seq<Event>)
      returns (st': Steps, failed: bool, ghost es': seq<Event>)
      requires proc.Up? && proc.phase.Pipeline? && proc.steps == st && CameFrom(start, es)
      modifies this`steps, this`proc
      ensures CameFrom(start, es')
      ensures failed && script.errorSaved ==> steps.Some? && steps.value.criticalError
      ensures !failed ==>
        && proc.Up? && proc.phase.Pipeline? && proc.steps == st' && proc.progress == old(proc.progress)
        && st' == st.(download := true, unpack := true)
        && (old(steps) == Some(st) && script.download.saved && script.unpack.saved ==> steps == Some(st'))
    {
      st', failed, es' := RunStage(Download, script.download, st, script.errorSaved, start, es);
      if failed {
        return;
      }
      st', failed, es' := RunStage(Unpack, script.unpack, st', script.errorSaved, start, es');
    }

    method RunStages(script: Script, st: Steps, ghost start: State, ghost es: seq<Event>)
      returns (st': Steps, failed: bool, ghost es': seq<Event>)
      requires proc.Up? && proc.phase.Pipeline? && proc.steps == st && CameFrom(start, es)
      modifies this`steps, this`proc
      ensures CameFrom(start, es')
      ensures failed && script.errorSaved ==> steps.Some? && steps.value.criticalError
      ensures !failed ==>
        && proc.Up? && proc.phase.Pipeline? && proc.steps == st' && proc.progress == old(proc.progress)
        && st' == st.(download := true, unpack := true, preProcess := true)
        && (old(steps) == Some(st) && StagesSaved(script) ==> steps == Some(st'))
    {
      st', failed, es' := FetchStages(script, st, start, es);
      if failed {
        return;
      }
      st', failed, es' := RunStage(PreProcess, script.preProcess, st', script.errorSaved, start, es');
    }

    /** `run` from the loading of the flags to the point where log processing starts. */
    method RunToLogs(script: Script) returns (r: RunResult, ghost es: seq<Event>)
      requires proc.Up? && proc.phase.Opened?
      modifies this
      ensures CameFrom(old(Now()), es)
      ensures r.ReadyForLogs? ==> LogsMayStart(Now())
      ensures !r.Failed? ==>
        var loaded := if script.readOk && old(steps).Some? then old(steps).value else NO_STEPS;
        && proc.Up? && proc.phase.Pipeline?
        && proc.steps
           == loaded.(init := true, criticalError := false, download := true, unpack := true, preProcess := true)
        && (r.NothingToProcess? <==> loaded.processLogs)
        && (script.markerOk ==> marker) && proc.progress == offsets == old(offsets)
        && (script.initSaved && StagesSaved(script) ==> steps == Some(proc.steps))
      ensures r.Failed? && script.errorSaved ==> steps.Some? && steps.value.criticalError
    {
      ghost var start := Now();
      var st: Steps;
      var failed: bool;
      st, es := LoadFlags(script.readOk, script.loadSaved, start);
      if !script.initOk {
        es := Fail(script.errorSaved, start, es);
        return Failed, es;
      }
      st, es := Initialise(st, script.markerOk, script.initSaved, start, es);
      if !script.initNotified {
        es := Fail(script.errorSaved, start, es);
        return Failed, es;
      }
      st, failed, es := RunStages(script, st, start, es);
      if failed {
        return Failed, es;
      }
      if st.processLogs {
        return NothingToProcess, es;
      }
      return ReadyForLogs, es;
    }

    method LoadFlags(readOk: bool, saved: bool, ghost start: State) returns (st: Steps, ghost es: seq<Event>)
      requires proc.Up? && proc.phase.Opened? && start == Now()
      modifies this`steps, this`proc
      ensures CameFrom(start, es)
      ensures proc.Up? && proc.phase.Loaded? && proc.steps == st
      ensures st ==
        (if readOk && old(steps).Some? then old(steps).value else NO_STEPS).(init := false, criticalError := false)
    {
      st := NO_STEPS;
      if readOk && steps.Some? {
        st := steps.value;
      }
      st := st.(init := false);
      st := st.(criticalError := false);
      SaveSteps(st, saved);
      proc := proc.(phase := Loaded, steps := st);
      LegalOneMore(start, [], LoadSteps(readOk, saved));
      es := [] + [LoadSteps(readOk, saved)];
    }

    /** `finalizeInit`: load the progress, write the marker (a failure is only logged), then save the
        init flag. */
    method Initialise(st: Steps, markerOk: bool, saved: bool, ghost start: State, ghost es: seq<Event>)
      returns (st': Steps, ghost es': seq<Event>)
      requires proc.Up? && proc.phase.Loaded? && proc.steps == st && CameFrom(start, es)
      modifies this`steps, this`marker, this`proc
      ensures CameFrom(start, es')
      ensures proc.Up? && proc.phase.Pipeline? && proc.steps == st' == st.(init := true)
      ensures markerOk ==> marker
      ensures proc.progress == offsets
      ensures saved ==> steps == Some(st')
    {
      LegalOneMore(start, es, FinalizeInit(markerOk, saved));
      if markerOk {
        marker := true;
      }
      st' := st.(init := true);
      SaveSteps(st', saved);
      proc := proc.(phase := Pipeline, steps := st', loaded := offsets, progress := offsets, infoTried := infoTried);
      es' := es + [FinalizeInit(markerOk, saved)];
    }

    /** The end of `ProcessLogs`: flush, and clear the marker only after a successful flush. */
    method FinishLogs(flushOk: bool, clearOk: bool) returns (ghost e: Event)
      requires proc.Up? && proc.phase.Logging?
      modifies this`rows, this`marker, this`proc
      ensures Enabled(old(Now()), e) && Now() == Next(old(Now()), e)
      ensures e == EndLogs(flushOk, flushOk && clearOk)
      ensures rows == if flushOk then old(rows) + old(proc).memtable else old(rows)
      ensures marker <==> old(marker) && !(flushOk && clearOk)
    {
      e := EndLogs(flushOk, flushOk && clearOk);
      var durable := false;
      if flushOk {
        rows := rows + proc.memtable;
        durable := true;
      }
      proc := if flushOk then proc.(phase := LogsOver, memtable := {}) else proc.(phase := LogsOver);
      if durable && clearOk {
        marker := false;
      }
    }
  }
}
