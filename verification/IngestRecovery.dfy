/** The ingest pipeline as a transition system over what survives a crash: saved step flags, the
    dirty marker, the log-processor offsets, the collectinfo progress and the rows in the database. */
module IngestRecovery {
  import opened Prelude

  // ----- Persistent data

  /** A row of the database: a log line at its byte offset, or a collectinfo file. */
  datatype Row = LogRow(file: string, pos: nat) | InfoRow(file: string)

  /** The progress entry of one log file. */
  datatype LogFile = LogFile(size: nat, processed: nat, finished: bool)

  type Offsets = map<string, LogFile>

  /** The log files on disk: the rows in them, and how far a resumed read rewinds (two read
      buffers). */
  datatype Logs = Logs(rows: set<Row>, rewind: nat)

  /** Where a resumed run starts reading a file. */
  function ResumeAt(f: LogFile, rewind: nat): nat {
    if 0 < f.processed < f.size && f.processed > rewind then f.processed - rewind else 0
  }

  /** A run that resumes from these offsets will not read the row again. */
  predicate Skips(offsets: Offsets, rewind: nat, r: Row) {
    r.LogRow? && r.file in offsets && (offsets[r.file].finished || r.pos < ResumeAt(offsets[r.file], rewind))
  }

  predicate Finished(offsets: Offsets, file: string) { file in offsets && offsets[file].finished }

  /** Where reading the file starts. */
  function ReadFrom(offsets: Offsets, file: string, rewind: nat): nat {
    if file in offsets then ResumeAt(offsets[file], rewind) else 0
  }

  /** The step flags of `steps.json`. */
  datatype Steps = Steps(init: bool, download: bool, unpack: bool, preProcess: bool,
                         processLogs: bool, processCollectInfo: bool, criticalError: bool)

  const NO_STEPS := Steps(false, false, false, false, false, false, false)

  datatype Disk = Disk(
    steps: Option<Steps>,    // steps.json
    marker: bool,            // the dirty marker
    offsets: Offsets,        // log-processor.json; a missing file claims nothing
    infoTried: set<string>,  // cf-processor.json: collectinfo files that failed and are not tried again
    rows: set<Row>,          // rows in SSTables, or in a write-ahead log that opening replays
    oldLayout: bool)         // the database has the previous storage layout

  // ----- The process

  datatype Phase =
    | Opened     // the database is open
    | Loaded     // the step flags are loaded
    | Pipeline   // initialised: offsets loaded, marker written; stages run
    | Logging    // ProcessLogs is running
    | LogsOver   // ProcessLogs has returned
    | Ended      // both processing flags are set, or run() has returned
    | Aborted    // run() has returned without ever initialising

  datatype Process =
    | Down
    | Up(wal: bool, phase: Phase, steps: Steps,
         loaded: Offsets,     // the offsets that log processing resumes from
         progress: Offsets, infoTried: set<string>,
         queue: set<Row>,     // rows handed over but not committed: result channel and batcher
         memtable: set<Row>)  // rows committed without a write-ahead log, not yet flushed

  datatype Stage = Download | Unpack | PreProcess

  /** `lastWal` is the WAL setting of the last start. */
  datatype State = State(logs: Logs, disk: Disk, proc: Process, lastWal: bool)

  // ----- The two wipes

  /** Where a soft wipe is cut short. */
  datatype WipeStop = InRemoval(kept: set<Row>, stillOld: bool) | AfterDb | AfterOffsets | AfterSteps

  function ResetProcessing(steps: Option<Steps>): Option<Steps> {
    match steps
    case None => None
    case Some(st) => Some(st.(processLogs := false, processCollectInfo := false, criticalError := false))
  }

  /** The disk when `agiWipeOnDirty` is cut short. */
  function DirtyWipePrefix(d: Disk, stop: WipeStop): Disk {
    match stop
    case InRemoval(kept, stillOld) => d.(rows := d.rows * kept, oldLayout := d.oldLayout && stillOld)
    case AfterDb => d.(rows := {}, oldLayout := false)
    case AfterOffsets => d.(rows := {}, oldLayout := false, offsets := map[])
    case AfterSteps => d.(rows := {}, oldLayout := false, offsets := map[], steps := ResetProcessing(d.steps))
  }

  /** The disk after a complete `agiWipeOnDirty`; the marker goes last. */
  function DirtyWiped(d: Disk): Disk { DirtyWipePrefix(d, AfterSteps).(marker := false) }

  /** Where a wipe for a storage layout mismatch is cut short. */
  datatype MismatchStop =
    | InDbRemoval(kept: set<Row>, stillOld: bool)
    | DbGone
    | StepsGone
    | InProgressRemoval(keepsMarker: bool, keepsOffsets: bool, keepsTried: bool)

  function MismatchWipePrefix(d: Disk, stop: MismatchStop): Disk {
    match stop
    case InDbRemoval(kept, stillOld) => d.(rows := d.rows * kept, oldLayout := stillOld)
    case DbGone => d.(rows := {}, oldLayout := false)
    case StepsGone => d.(rows := {}, oldLayout := false, steps := None)
    case InProgressRemoval(keepsMarker, keepsOffsets, keepsTried) =>
      d.(rows := {}, oldLayout := false, steps := None, marker := d.marker && keepsMarker,
         offsets := if keepsOffsets then d.offsets else map[],
         infoTried := if keepsTried then d.infoTried else {})
  }

  /** The disk after a complete `agiWipeOnVersionMismatch`: the progress directory goes last, its
      files in any order. */
  function MismatchWiped(d: Disk): Disk {
    MismatchWipePrefix(d, StepsGone).(marker := false, offsets := map[], infoTried := {})
  }

  // ----- Events

  datatype Event =
    | Upgrade                                          // a new version with another storage layout
    | StopDirtyWipe(stop: WipeStop)                    // a start with WAL off dies in its soft wipe
    | StopMismatchWipe(wal: bool, at: MismatchStop)    // a start dies in its mismatch wipe
    | Start(wal: bool)                                 // dirty check, wipe, open, mismatch wipe, open
    | LoadSteps(readOk: bool, saved: bool)
    | FinalizeInit(markerOk: bool, saved: bool)
    | StageOk(stage: Stage, saved: bool)
    | LogStart
    | Emit(rs: set<Row>)
    | Commit(rs: set<Row>)
    | Spill(rs: set<Row>)                              // the memtable flushes on its own account
    | Tick(file: string, size: nat, loc: nat)
    | FinishFile(file: string, size: nat)
    | SaveOffsets
    | EndLogs(flushed: bool, cleared: bool)
    | FailLogs
    | PutInfo(file: string)                            // a collectinfo file is processed
    | FailInfo(file: string)                           // or fails, and is marked as tried
    | SaveInfo
    | MarkDone(saved: bool)
    | RecordError(saved: bool)
    | Shutdown                                         // drain, save, flush, close
    | Crash

  predicate Initialised(p: Process) {
    p.Up? && !p.phase.Opened? && !p.phase.Loaded? && !p.phase.Aborted?
  }

  predicate StagesDone(st: Steps) { st.download && st.unpack && st.preProcess }

  /** `run` is about to start log processing. */
  predicate LogsMayStart(s: State) {
    s.proc.Up? && s.proc.phase.Pipeline? && StagesDone(s.proc.steps) && !s.proc.steps.processLogs
  }

  function StageFlag(st: Steps, stage: Stage): bool {
    match stage case Download => st.download case Unpack => st.unpack case PreProcess => st.preProcess
  }

  function SetStage(st: Steps, stage: Stage): Steps {
    match stage
    case Download => st.(download := true)
    case Unpack => st.(unpack := true)
    case PreProcess => st.(preProcess := true)
  }

  /** Stages run in order, each only when its flag is not set. */
  predicate StageDue(st: Steps, stage: Stage) {
    !StageFlag(st, stage) &&
    match stage
    case Download => true
    case Unpack => st.download
    case PreProcess => st.download && st.unpack
  }

  /** The row reached the process or the database, or a resumed run was right to skip it. */
  predicate Handled(s: State, r: Row)
    requires s.proc.Up?
  {
    r in s.proc.queue || r in s.proc.memtable || r in s.disk.rows || Skips(s.proc.progress, s.logs.rewind, r)
  }

  /** A progress entry may only cover rows that were handed over: the scanner is at most one rewind
      ahead of the rows it produced. */
  ghost predicate EntryIsHonest(s: State, file: string, entry: LogFile)
    requires s.proc.Up?
  {
    forall r | r in s.logs.rows && r.LogRow? && r.file == file &&
               (entry.finished || r.pos < ResumeAt(entry, s.logs.rewind)) :: Handled(s, r)
  }

  /** Collectinfo processing comes to every file that has not failed; success leaves no trace in the
      progress file. */
  predicate InfoDue(s: State, file: string) {
    && s.proc.Up? && (s.proc.phase.Logging? || s.proc.phase.LogsOver?)
    && !s.proc.steps.processCollectInfo && file !in s.proc.infoTried
  }

  ghost predicate Enabled(s: State, e: Event) {
    match e
    case Upgrade => s.proc.Down?
    case StopDirtyWipe(_) => s.proc.Down? && s.disk.marker
    case StopMismatchWipe(wal, _) => s.proc.Down? && s.disk.oldLayout && !(s.disk.marker && !wal)
    case Start(_) => s.proc.Down?
    case LoadSteps(_, _) => s.proc.Up? && s.proc.phase.Opened?
    case FinalizeInit(_, _) => s.proc.Up? && s.proc.phase.Loaded?
    case StageOk(stage, _) => s.proc.Up? && s.proc.phase.Pipeline? && StageDue(s.proc.steps, stage)
    case LogStart => LogsMayStart(s)
    case Emit(rs) =>
      // Finished files are not opened again, and a resumed file is read from its resume point.
      && s.proc.Up? && s.proc.phase.Logging? && rs <= s.logs.rows
      && forall r | r in rs :: !Skips(s.proc.loaded, s.logs.rewind, r)
    case Commit(rs) => Initialised(s.proc) && rs <= s.proc.queue
    case Spill(rs) => Initialised(s.proc) && rs <= s.proc.memtable
    case Tick(file, size, loc) =>
      // The position of an open file, after something has been read from it.
      && s.proc.Up? && s.proc.phase.Logging? && !Finished(s.proc.progress, file)
      && loc > ReadFrom(s.proc.loaded, file, s.logs.rewind)
      && EntryIsHonest(s, file, LogFile(size, loc, false))
    case FinishFile(file, size) =>
      && s.proc.Up? && s.proc.phase.Logging? && !Finished(s.proc.progress, file)
      && EntryIsHonest(s, file, LogFile(size, size, true))
    case SaveOffsets => Initialised(s.proc)
    case EndLogs(flushed, cleared) => s.proc.Up? && s.proc.phase.Logging? && (cleared ==> flushed)
    case FailLogs => s.proc.Up? && s.proc.phase.Logging?
    case PutInfo(file) => InfoDue(s, file)
    case FailInfo(file) => InfoDue(s, file)
    case SaveInfo => Initialised(s.proc)
    case MarkDone(_) => s.proc.Up? && s.proc.phase.LogsOver?
    case RecordError(_) => s.proc.Up? && !s.proc.phase.Aborted?  // also after both flags are set
    case Shutdown => Initialised(s.proc) && s.proc.queue == {}
    case Crash => s.proc.Up?
  }

  function SavedSteps(d: Disk, st: Steps, saved: bool): Disk { if saved then d.(steps := Some(st)) else d }

  /** The disk that `Start` opens. */
  function Prepared(d: Disk, wal: bool): Disk {
    var checked := if d.marker && !wal then DirtyWiped(d) else d;
    if checked.oldLayout then MismatchWiped(checked) else checked
  }

  function Next(s: State, e: Event): State {
    var d, p := s.disk, s.proc;
    match e
    case Upgrade => s.(disk := d.(oldLayout := true))
    case StopDirtyWipe(stop) => s.(disk := DirtyWipePrefix(d, stop), lastWal := false)
    case StopMismatchWipe(wal, at) =>
      s.(disk := MismatchWipePrefix(d, at), lastWal := wal)
    case Start(wal) =>
      var d' := Prepared(d, wal);
      s.(disk := d', lastWal := wal, proc := Up(wal, Opened, NO_STEPS, map[], map[], {}, {}, {}))
    case LoadSteps(readOk, saved) =>
      if p.Down? then s
      else
        var st := (if readOk && d.steps.Some? then d.steps.value else NO_STEPS).(init := false, criticalError := false);
        s.(disk := SavedSteps(d, st, saved), proc := p.(phase := Loaded, steps := st))
    case FinalizeInit(markerOk, saved) =>
      if p.Down? then s
      else
        var st := p.steps.(init := true);
        s.(disk := SavedSteps(d.(marker := d.marker || markerOk), st, saved),
           proc := p.(phase := Pipeline, steps := st, loaded := d.offsets, progress := d.offsets,
                       infoTried := d.infoTried))
    case StageOk(stage, saved) =>
      if p.Down? then s
      else
        var st := SetStage(p.steps, stage);
        s.(disk := SavedSteps(d, st, saved), proc := p.(steps := st))
    case LogStart => if p.Down? then s else s.(proc := p.(phase := Logging))
    case Emit(rs) => if p.Down? then s else s.(proc := p.(queue := p.queue + rs))
    case Commit(rs) =>
      if p.Down? then s
      else if p.wal then s.(disk := d.(rows := d.rows + rs), proc := p.(queue := p.queue - rs))
      else s.(proc := p.(queue := p.queue - rs, memtable := p.memtable + rs))
    case Spill(rs) =>
      if p.Down? then s else s.(disk := d.(rows := d.rows + rs), proc := p.(memtable := p.memtable - rs))
    case Tick(file, size, loc) =>
      if p.Down? then s else s.(proc := p.(progress := p.progress[file := LogFile(size, loc, false)]))
    case FinishFile(file, size) =>
      if p.Down? then s else s.(proc := p.(progress := p.progress[file := LogFile(size, size, true)]))
    case SaveOffsets => if p.Down? then s else s.(disk := d.(offsets := p.progress))
    case EndLogs(flushed, cleared) =>
      if p.Down? then s
      else if !flushed then s.(proc := p.(phase := LogsOver))
      else s.(disk := d.(rows := d.rows + p.memtable, marker := d.marker && !cleared),
              proc := p.(phase := LogsOver, memtable := {}))
    case FailLogs => if p.Down? then s else s.(proc := p.(phase := LogsOver))
    case PutInfo(file) =>
      if p.Down? then s
      else if p.wal then s.(disk := d.(rows := d.rows + {InfoRow(file)}))
      else s.(proc := p.(memtable := p.memtable + {InfoRow(file)}))
    case FailInfo(file) => if p.Down? then s else s.(proc := p.(infoTried := p.infoTried + {file}))
    case SaveInfo => if p.Down? then s else s.(disk := d.(infoTried := p.infoTried))
    case MarkDone(saved) =>
      if p.Down? then s
      else
        var st := p.steps.(processLogs := true, processCollectInfo := true);
        s.(disk := SavedSteps(d, st, saved), proc := p.(phase := Ended, steps := st))
    case RecordError(saved) =>
      if p.Down? then s
      else
        // The handler re-reads the file; what was only in memory is not written.
        var st := (if d.steps.Some? then d.steps.value else NO_STEPS).(criticalError := true);
        s.(disk := SavedSteps(d, st, saved), proc := p.(phase := if Initialised(p) then Ended else Aborted))
    case Shutdown =>
      if p.Down? then s
      else s.(disk := d.(rows := d.rows + p.memtable, offsets := p.progress, infoTried := p.infoTried), proc := Down)
    case Crash => s.(proc := Down)
  }

  ghost predicate Legal(s: State, es: seq<Event>)
    decreases |es|
  {
    es == [] || (Enabled(s, es[0]) && Legal(Next(s, es[0]), es[1..]))
  }

  function Final(s: State, es: seq<Event>): State
    decreases |es|
  {
    if es == [] then s else Final(Next(s, es[0]), es[1..])
  }

  /** A host on which nothing has run yet. */
  predicate Fresh(s: State) {
    s.proc.Down? && s.disk == Disk(None, false, map[], {}, {}, false)
  }
}
