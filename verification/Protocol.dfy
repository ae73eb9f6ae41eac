/** Scans and background recaptures of many processes sharing one baseline store, one visible file
    operation at a time. A scan holds the lock from its read to its write. A recapture
    takes it for the write alone, and gives up if the stamp it started from is gone by then. */
module Protocol {
  import opened Options
  import opened Findings
  import opened Aging
  import opened Baselines
  import opened BranchRuns

  // ---------------------------------------------------------------- states

  /** Why a recapture reads the store. */
  datatype Goal = CheckInRun | CheckBeforeScan | CheckAfterScan | LoadPrints | LoadHistory

  /** How far one such read has come: does the index file exist, what does it say, what is in the branch file. */
  datatype Stage = Probe | ReadIndex(legacy: bool) | ReadFile

  /** A recapture: the baseline it started from, its own scan, and what it has read. */
  datatype Recapture = Recapture(branch: Branch, ts: nat, current: Prints, previous: Aged, history: History)

  /** A commit in progress, computed under the lock. */
  datatype Job = Job(write: Write, out: Outcome, loaded: Index, previous: Option<BranchData>, byScan: bool)

  datatype Phase = MovingInline(todo: set<Branch>) | WritingFile | RemovingStale(todo: set<Branch>) | WritingIndex | DroppingLegacy

  datatype Thread =
    | Idle
    | ScanWaits(write: Write)
    | Reading(r: Recapture, goal: Goal, stage: Stage)
    | Loaded(r: Recapture)
    | RecaptureWaits(r: Recapture, write: Write, out: Outcome)
    | Committing(job: Job, phase: Phase)
    | ScanRecorded(branch: Branch, now: nat)
    | Recaptured(now: nat)
    | Lost

  /** The baseline a process keeps in memory for the repository. */
  datatype HubBaseline = HubBaseline(branch: Branch, ts: nat)

  datatype Tid = Tid(process: nat, n: nat)

  datatype State = State(
    disk: Disk,
    lock: Option<Tid>,
    threads: map<Tid, Thread>,
    hubs: map<nat, HubBaseline>,
    drawn: set<nat>,       // clock readings handed out so far
    start: View,           // the store before the first step
    writes: seq<Write>,    // committed writes, in commit order
    outs: seq<Outcome>)    // the aging each of them committed

  function ThreadAt(s: State, t: Tid): Thread {
    if t in s.threads then s.threads[t] else Idle
  }

  function DataOf(out: Outcome): BranchData {
    BranchData(out.aged, out.history)
  }

  /** The store after the committed writes, one atomic scan after another. */
  ghost function Serial(s: State): View {
    Replay(s.start, s.writes)
  }

  // ---------------------------------------------------------------- steps

  datatype Step =
    | StartScan(t: Tid, write: Write)
    | ScanGivesUp(t: Tid)
    | ScanLocks(t: Tid)
    | StartRecapture(t: Tid)
    | ReadOn(t: Tid, current: Prints)
    | AgeLoaded(t: Tid, now: nat, ignore: set<Key>)
    | RecaptureGivesUp(t: Tid)
    | RecaptureLocks(t: Tid)
    | MoveOne(t: Tid, b: Branch)
    | MovesDone(t: Tid)
    | WriteBranchFile(t: Tid)
    | RemoveOne(t: Tid, b: Branch)
    | RemovesDone(t: Tid)
    | WriteIndexFile(t: Tid)
    | DropLegacy(t: Tid)
    | SetBaseline(t: Tid)
    | MarkRescanned(t: Tid)
    | MarkLost(t: Tid, now: nat)

  function Put(s: State, t: Tid, th: Thread): State {
    s.(threads := s.threads[t := th])
  }

  /** One read of a recapture, and where it leads. */
  function AfterRead(disk: Disk, th: Thread, current: Prints): Thread
    requires th.Reading?
  {
    var r := th.r;
    match th.stage
    case Probe => th.(stage := ReadIndex(disk.index.None?))
    case ReadFile => AfterLoad(r, th.goal, LoadFile(disk.files, r.branch))
    case ReadIndex(legacy) =>
      var file := if legacy then disk.legacy else disk.index;
      var index := match file { case Some(i) => i case None => map[] };
      if th.goal in {LoadPrints, LoadHistory} then
        if r.branch !in index then AfterLoad(r, th.goal, NO_DATA)
        else match index[r.branch].inline {
          case Some(data) => AfterLoad(r, th.goal, data)
          case None => th.(stage := ReadFile)
        }
      else if r.branch in index && index[r.branch].updated != r.ts then Lost
      else match th.goal {
        case CheckInRun => Reading(r, CheckBeforeScan, Probe)
        case CheckBeforeScan => Reading(r.(current := current), CheckAfterScan, Probe)
        case _ => Reading(r, LoadPrints, Probe)
      }
  }

  function AfterLoad(r: Recapture, goal: Goal, data: BranchData): Thread {
    if goal == LoadPrints then
      if data.prints == map[] then Idle else Reading(r.(previous := data.prints), LoadHistory, Probe)
    else Loaded(r.(history := data.history))
  }

  function InlineBranches(index: Index): set<Branch> {
    set b | b in index && index[b].inline.Some?
  }

  function StartCommit(s: State, t: Tid, job: Job): State {
    Put(s, t, Committing(job, MovingInline(InlineBranches(job.loaded)))).(lock := Some(t))
  }

  ghost predicate Next(s: State, s': State, step: Step) {
    var th := ThreadAt(s, step.t);
    match step
    case StartScan(t, write) =>
      && th.Idle? && write.scan.now !in s.drawn
      && s' == Put(s, t, ScanWaits(write)).(drawn := s.drawn + {write.scan.now})
    case ScanGivesUp(t) =>
      && th.ScanWaits?
      && s' == Put(s, t, ScanRecorded(th.write.branch, th.write.scan.now))
    case ScanLocks(t) =>
      && th.ScanWaits? && s.lock == None
      && var loaded := LoadIndex(s.disk);
         var previous := LoadBranch(s.disk, loaded, th.write.branch);
         var out := AgeData(OrNoData(previous), th.write.scan);
         s' == StartCommit(s, t, Job(th.write, out, loaded, previous, true))
    case StartRecapture(t) =>
      && th.Idle? && t.process in s.hubs
      && var base := s.hubs[t.process];
         s' == Put(s, t, Reading(Recapture(base.branch, base.ts, map[], map[], map[]), CheckInRun, Probe))
    case ReadOn(t, current) =>
      && th.Reading?
      && s' == Put(s, t, AfterRead(s.disk, th, current))
    case AgeLoaded(t, now, ignore) =>
      && th.Loaded? && now !in s.drawn
      && var scan := Scan(th.r.current, now, ignore);
         var out := AgeData(BranchData(th.r.previous, th.r.history), scan);
         s' == Put(s, t, RecaptureWaits(th.r, Write(th.r.branch, scan), out)).(drawn := s.drawn + {now})
    case RecaptureGivesUp(t) =>
      && th.RecaptureWaits?
      && s' == Put(s, t, Idle)
    case RecaptureLocks(t) =>
      && th.RecaptureWaits? && s.lock == None
      && var loaded := LoadIndex(s.disk);
         if th.r.branch !in loaded || loaded[th.r.branch].updated != th.r.ts then s' == Put(s, t, Lost)
         else s' == StartCommit(s, t, Job(th.write, th.out, loaded, LoadBranch(s.disk, loaded, th.r.branch), false))
    case MoveOne(t, b) =>
      && th.Committing? && th.phase.MovingInline? && b in th.phase.todo && b in InlineBranches(th.job.loaded)
      && s' == Put(s, t, th.(phase := MovingInline(th.phase.todo - {b})))
                 .(disk := s.disk.(files := s.disk.files[b := th.job.loaded[b].inline.value]))
    case MovesDone(t) =>
      && th.Committing? && th.phase == MovingInline({})
      && s' == Put(s, t, th.(phase := WritingFile))
    case WriteBranchFile(t) =>
      && th.Committing? && th.phase.WritingFile?
      && var b, data := th.job.write.branch, DataOf(th.job.out);
         var files := if th.job.previous != Some(data) || b !in s.disk.files then s.disk.files[b := data] else s.disk.files;
         s' == Put(s, t, th.(phase := RemovingStale(StaleOnCommit(th.job.loaded, b, th.job.write.scan.now))))
                 .(disk := s.disk.(files := files))
    case RemoveOne(t, b) =>
      && th.Committing? && th.phase.RemovingStale? && b in th.phase.todo
      && s' == Put(s, t, th.(phase := RemovingStale(th.phase.todo - {b})))
                 .(disk := s.disk.(files := s.disk.files - {b}))
    case RemovesDone(t) =>
      && th.Committing? && th.phase == RemovingStale({})
      && s' == Put(s, t, th.(phase := WritingIndex))
    case WriteIndexFile(t) =>
      && th.Committing? && th.phase.WritingIndex?
      && var w := th.job.write;
         s' == Put(s, t, th.(phase := DroppingLegacy))
                 .(disk := s.disk.(index := Some(NextIndex(th.job.loaded, w.branch, w.scan.now))),
                   writes := s.writes + [w], outs := s.outs + [th.job.out])
    case DropLegacy(t) =>
      && th.Committing? && th.phase.DroppingLegacy?
      && var w := th.job.write;
         s' == Put(s, t, if th.job.byScan then ScanRecorded(w.branch, w.scan.now) else Recaptured(w.scan.now))
                 .(disk := s.disk.(legacy := None), lock := None)
    case SetBaseline(t) =>
      && th.ScanRecorded?
      && s' == Put(s, t, Idle).(hubs := s.hubs[t.process := HubBaseline(th.branch, th.now)])
    case MarkRescanned(t) =>
      && th.Recaptured?
      && s' == Put(s, t, Idle).(hubs := Restamp(s.hubs, t.process, th.now))
    case MarkLost(t, now) =>
      && th.Lost? && now !in s.drawn
      && s' == Put(s, t, Idle).(hubs := Restamp(s.hubs, t.process, now), drawn := s.drawn + {now})
  }

  function Restamp(hubs: map<nat, HubBaseline>, process: nat, ts: nat): map<nat, HubBaseline> {
    if process in hubs then hubs[process := hubs[process].(ts := ts)] else hubs
  }

  /** Any mix of inline, moved-out, orphan and missing data on disk; nobody is at work yet. */
  ghost predicate Init(s: State) {
    && s.start == ViewOf(s.disk)
    && s.lock == None && s.threads == map[] && s.hubs == map[]
    && (forall b | b in s.start :: s.start[b].updated in s.drawn)
    && s.writes == [] && s.outs == []
  }

  ghost predicate IsRun(states: seq<State>, steps: seq<Step>) {
    && |states| == |steps| + 1
    && Init(states[0])
    && forall i | 0 <= i < |steps| :: Next(states[i], states[i + 1], steps[i])
  }
}
