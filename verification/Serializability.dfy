/** Every interleaving of scans and recaptures commits what some one-at-a-time order would have committed. */
module Serializability {
  import opened Options
  import opened Findings
  import opened Aging
  import opened Baselines
  import opened BranchRuns
  import opened Protocol

  // ---------------------------------------------------------------- what is being replaced

  predicate BeforeIndex(th: Thread) {
    th.Committing? && !th.phase.DroppingLegacy?
  }

  /** The commit in progress is about to replace or drop the branch. */
  ghost predicate Doomed(s: State, b: Branch) {
    && s.lock.Some?
    && var th := ThreadAt(s, s.lock.value);
       && BeforeIndex(th)
       && (b == th.job.write.branch || b in StaleOnCommit(th.job.loaded, th.job.write.branch, th.job.write.scan.now))
  }

  /** The branch still carries the stamp `ts`, and nobody is replacing it. */
  ghost predicate Live(s: State, abs: View, b: Branch, ts: nat) {
    b in abs && abs[b].updated == ts && !Doomed(s, b)
  }

  // ---------------------------------------------------------------- the invariant

  /** The index agrees with the serial store on branches and stamps, the files on every branch not being replaced. */
  ghost predicate DiskOk(s: State, abs: View) {
    var index := LoadIndex(s.disk);
    && IndexStamps(index) == ViewStamps(abs)
    && (forall b | b in index && b in abs && index[b].inline.Some? :: index[b].inline.value == abs[b].data)
    && (forall b | b in index && b in abs && index[b].inline.None? && !Doomed(s, b) :: LoadFile(s.disk.files, b) == abs[b].data)
  }

  ghost predicate JobOk(disk: Disk, abs: View, job: Job, phase: Phase) {
    var w := job.write;
    if phase.DroppingLegacy? then disk.index.Some?
    else
      && job.loaded == LoadIndex(disk)
      && job.previous == (if w.branch in abs then Some(abs[w.branch].data) else None)
      && job.out == AgeData(DataIn(abs, w.branch), w.scan)
      && PhaseOk(disk.files, abs, job, phase)
  }

  ghost predicate PhaseOk(files: Files, abs: View, job: Job, phase: Phase) {
    var w := job.write;
    match phase
    case MovingInline(todo) =>
      && todo <= InlineBranches(job.loaded)
      && forall b | b in job.loaded && b in abs && b !in todo :: LoadFile(files, b) == abs[b].data
    case WritingFile => forall b | b in job.loaded && b in abs :: LoadFile(files, b) == abs[b].data
    case RemovingStale(todo) =>
      && todo <= StaleOnCommit(job.loaded, w.branch, w.scan.now)
      && HoldsSurvivors(files, job.loaded, abs, w.branch, DataOf(job.out), w.scan.now)
    case WritingIndex => HoldsSurvivors(files, job.loaded, abs, w.branch, DataOf(job.out), w.scan.now)
    case DroppingLegacy => true
  }

  ghost predicate ReadsPrints(abs: View, r: Recapture) {
    r.branch in abs && r.previous == abs[r.branch].data.prints
  }

  ghost predicate ReadsAll(abs: View, r: Recapture) {
    ReadsPrints(abs, r) && r.history == abs[r.branch].data.history
  }

  predicate MovedOut(disk: Disk, b: Branch) {
    disk.index.Some? && b in disk.index.value && disk.index.value[b].inline.None?
  }

  /** What a thread has read is true of the serial store as long as its branch is live. */
  ghost predicate ThreadOk(s: State, abs: View, t: Tid, th: Thread) {
    && (th.Committing? <==> s.lock == Some(t))
    && match th {
      case Reading(r, goal, stage) =>
        && (stage.ReadFile? ==> goal in {LoadPrints, LoadHistory})
        && (stage == ReadIndex(false) ==> s.disk.index.Some?)
        && (Live(s, abs, r.branch, r.ts) ==>
              && stage != ReadIndex(true)
              && (stage.ReadFile? ==> MovedOut(s.disk, r.branch))
              && (goal.LoadHistory? ==> ReadsPrints(abs, r)))
      case Loaded(r) => Live(s, abs, r.branch, r.ts) ==> ReadsAll(abs, r)
      case RecaptureWaits(r, w, out) =>
        && w.branch == r.branch && out == AgeData(BranchData(r.previous, r.history), w.scan)
        && (Live(s, abs, r.branch, r.ts) ==> ReadsAll(abs, r))
      case Committing(job, phase) => JobOk(s.disk, abs, job, phase)
      case Recaptured(now) => s.disk.index.Some?
      case _ => true
    }
  }

  // Clock readings: those that may still become a stamp, and those a process may still compare with one.

  function Pending(th: Thread): set<nat> {
    match th
    case ScanWaits(w) => {w.scan.now}
    case RecaptureWaits(_, w, _) => {w.scan.now}
    case Committing(job, phase) => if phase.DroppingLegacy? then {} else {job.write.scan.now}
    case _ => {}
  }

  function Held(th: Thread): set<nat> {
    match th
    case Reading(r, _, _) => {r.ts}
    case Loaded(r) => {r.ts}
    case RecaptureWaits(r, _, _) => {r.ts}
    case Committing(job, phase) => if phase.DroppingLegacy? then {job.write.scan.now} else {}
    case ScanRecorded(_, now) => {now}
    case Recaptured(now) => {now}
    case _ => {}
  }

  function StampSet(abs: View): set<nat> {
    set b | b in abs :: abs[b].updated
  }

  type Threads = map<Tid, Thread>
  type Hubs = map<nat, HubBaseline>

  predicate Apart(th: Thread, other: Thread) {
    && Pending(th) !! Pending(other)
    && Pending(th) !! Held(other)
    && Pending(other) !! Held(th)
  }

  ghost predicate ThreadsApart(threads: Threads) {
    && (forall t, u | t in threads && u in threads && t != u :: Apart(threads[t], threads[u]))
    && (forall t | t in threads :: Pending(threads[t]) !! Held(threads[t]))
  }

  ghost predicate HubsApart(threads: Threads, hubs: Hubs) {
    forall t, p | t in threads && p in hubs :: hubs[p].ts !in Pending(threads[t])
  }

  ghost predicate StampsApart(threads: Threads, stamps: set<nat>) {
    forall t | t in threads :: Pending(threads[t]) !! stamps
  }

  ghost predicate AllDrawn(threads: Threads, hubs: Hubs, drawn: set<nat>) {
    && (forall t | t in threads :: Pending(threads[t]) + Held(threads[t]) <= drawn)
    && (forall p | p in hubs :: hubs[p].ts in drawn)
  }

  /** A reading that may become a stamp is nobody's stamp yet and nobody's baseline. */
  ghost predicate FreshOk(s: State, abs: View) {
    && ThreadsApart(s.threads)
    && HubsApart(s.threads, s.hubs)
    && StampsApart(s.threads, StampSet(abs))
    && AllDrawn(s.threads, s.hubs, s.drawn)
    && StampSet(abs) <= s.drawn
  }

  /** While only the legacy index exists, no process holds one of its stamps. */
  ghost predicate LegacyOk(s: State, abs: View) {
    s.disk.index.None? ==>
      && (forall t | t in s.threads :: Held(s.threads[t]) !! StampSet(abs))
      && (forall p | p in s.hubs :: s.hubs[p].ts !in StampSet(abs))
  }

  /** Every committed write is the aging of the state committed just before it. */
  ghost predicate LogOk(s: State) {
    && |s.outs| == |s.writes|
    && forall i | 0 <= i < |s.writes| ::
         s.outs[i] == AgeData(DataIn(Replay(s.start, s.writes[..i]), s.writes[i].branch), s.writes[i].scan)
  }

  ghost predicate Inv(s: State, abs: View) {
    && DiskOk(s, abs)
    && (forall t | t in s.threads :: ThreadOk(s, abs, t, s.threads[t]))
    && (s.lock.Some? ==> s.lock.value in s.threads)
    && FreshOk(s, abs)
    && LegacyOk(s, abs)
    && LogOk(s)
  }

  lemma InitHolds(s: State)
    requires Init(s)
    ensures Inv(s, Serial(s))
  {
  }

  // ---------------------------------------------------------------- clock readings stay fresh

  /** The readings a thread has after a step: none is pending that was not, except newly drawn ones. */
  ghost predicate HandsOn(s: State, t: Tid, th: Thread, drawn: set<nat>) {
    && drawn !! s.drawn
    && Pending(th) <= Pending(ThreadAt(s, t)) + drawn
    && Pending(th) !! Held(th)
    && Held(th) <= Held(ThreadAt(s, t)) + Pending(ThreadAt(s, t)) + HubTs(s, t)
  }

  function HubTs(s: State, t: Tid): set<nat> {
    if t.process in s.hubs then {s.hubs[t.process].ts} else {}
  }

  lemma HandsOnApart(s: State, abs: View, t: Tid, th: Thread, drawn: set<nat>, u: Tid)
    requires FreshOk(s, abs) && HandsOn(s, t, th, drawn) && u in s.threads && u != t
    ensures Apart(th, s.threads[u])
  {
    assert t in s.threads ==> Apart(s.threads[t], s.threads[u]);
  }

  lemma HandsOnThreads(s: State, abs: View, t: Tid, th: Thread, drawn: set<nat>)
    requires FreshOk(s, abs) && HandsOn(s, t, th, drawn)
    ensures ThreadsApart(s.threads[t := th])
    ensures StampsApart(s.threads[t := th], StampSet(abs))
  {
    var threads := s.threads[t := th];
    forall u, v | u in threads && v in threads && u != v ensures Apart(threads[u], threads[v]) {
      if u == t {
        HandsOnApart(s, abs, t, th, drawn, v);
      } else if v == t {
        HandsOnApart(s, abs, t, th, drawn, u);
      }
    }
  }

  /** Drawing a reading, or handing one on to the next state of the same thread, keeps readings fresh. */
  lemma FreshStep(s: State, s': State, abs: View, t: Tid, th: Thread, drawn: set<nat>)
    requires FreshOk(s, abs) && LegacyOk(s, abs) && HandsOn(s, t, th, drawn)
    requires s'.threads == s.threads[t := th] && s'.hubs == s.hubs && s'.drawn == s.drawn + drawn
    requires s'.disk.index == s.disk.index
    ensures FreshOk(s', abs) && LegacyOk(s', abs)
  {
    HandsOnThreads(s, abs, t, th, drawn);
  }

  /** A finished thread leaves its reading, or a newly drawn one, as its process's baseline. */
  lemma FreshHub(s: State, s': State, abs: View, t: Tid, drawn: set<nat>, hub: HubBaseline)
    requires FreshOk(s, abs) && LegacyOk(s, abs) && drawn !! s.drawn
    requires hub.ts in Held(ThreadAt(s, t)) + drawn
    requires s'.threads == s.threads[t := Idle] && s'.drawn == s.drawn + drawn
    requires s'.hubs == s.hubs || s'.hubs == s.hubs[t.process := hub]
    requires s'.disk.index == s.disk.index
    ensures FreshOk(s', abs) && LegacyOk(s', abs)
  {
    assert HandsOn(s, t, Idle, drawn);
    HandsOnThreads(s, abs, t, Idle, drawn);
    forall u | u in s'.threads ensures hub.ts !in Pending(s'.threads[u]) {
      if u != t && t in s.threads {
        assert Apart(s.threads[t], s.threads[u]);
      }
    }
  }

  // ---------------------------------------------------------------- steps that leave the disk alone

  /** A thread not holding the lock, before and after, changes nothing for the others. */
  lemma QuietStep(s: State, s': State, abs: View, t: Tid)
    requires Inv(s, abs) && !ThreadAt(s, t).Committing?
    requires t in s'.threads && s'.threads == s.threads[t := s'.threads[t]] && !s'.threads[t].Committing?
    requires s'.disk == s.disk && s'.lock == s.lock && s'.writes == s.writes && s'.outs == s.outs && s'.start == s.start
    requires ThreadOk(s, abs, t, s'.threads[t])
    ensures DiskOk(s', abs) && LogOk(s')
    ensures forall u | u in s'.threads :: ThreadOk(s', abs, u, s'.threads[u])
    ensures s'.lock.Some? ==> s'.lock.value in s'.threads
  {
    assert forall b :: Doomed(s', b) <==> Doomed(s, b) by {
      if s.lock.Some? {
        assert s.lock.value != t;
      }
    }
    forall u | u in s'.threads ensures ThreadOk(s', abs, u, s'.threads[u]) {
      if u != t { assert ThreadOk(s, abs, u, s.threads[u]); }
    }
  }

  /** What the disk shows of a live branch: the index exists, and the entry and its data are the serial ones. */
  lemma LiveOnDisk(s: State, abs: View, r: Recapture)
    requires DiskOk(s, abs) && Live(s, abs, r.branch, r.ts)
    ensures var index := LoadIndex(s.disk);
            && r.branch in index && index[r.branch].updated == r.ts
            && (index[r.branch].inline.Some? ==> index[r.branch].inline.value == abs[r.branch].data)
            && (index[r.branch].inline.None? ==> LoadFile(s.disk.files, r.branch) == abs[r.branch].data)
  {
    assert r.branch in ViewStamps(abs) && r.branch in IndexStamps(LoadIndex(s.disk));
  }

  lemma LiveHasIndex(s: State, abs: View, t: Tid, b: Branch, ts: nat)
    requires LegacyOk(s, abs) && t in s.threads && ts in Held(s.threads[t])
    requires Live(s, abs, b, ts)
    ensures s.disk.index.Some?
  {
    assert ts in StampSet(abs);
  }

  lemma LoadIsSerial(s: State, abs: View, t: Tid, r: Recapture, goal: Goal, data: BranchData)
    requires s.lock != Some(t) && goal in {LoadPrints, LoadHistory}
    requires Live(s, abs, r.branch, r.ts) ==> data == abs[r.branch].data && (goal.LoadHistory? ==> ReadsPrints(abs, r))
    ensures ThreadOk(s, abs, t, AfterLoad(r, goal, data))
  {
  }

  /** A read of a live branch reads the serial store, even between two writes of another thread's commit. */
  lemma ReadIsSerial(s: State, abs: View, t: Tid, current: Prints)
    requires Inv(s, abs) && ThreadAt(s, t).Reading?
    ensures ThreadOk(s, abs, t, AfterRead(s.disk, ThreadAt(s, t), current))
  {
    var th := s.threads[t];
    var r := th.r;
    assert ThreadOk(s, abs, t, th);
    if Live(s, abs, r.branch, r.ts) {
      LiveOnDisk(s, abs, r);
      LiveHasIndex(s, abs, t, r.branch, r.ts);
    }
    if th.stage.ReadFile? {
      LoadIsSerial(s, abs, t, r, th.goal, LoadFile(s.disk.files, r.branch));
    } else if th.stage.ReadIndex? && th.goal in {LoadPrints, LoadHistory} {
      var file := if th.stage.legacy then s.disk.legacy else s.disk.index;
      var index := match file { case Some(i) => i case None => map[] };
      if r.branch !in index {
        LoadIsSerial(s, abs, t, r, th.goal, NO_DATA);
      } else if index[r.branch].inline.Some? {
        LoadIsSerial(s, abs, t, r, th.goal, index[r.branch].inline.value);
      }
    }
  }

  lemma ReadStep(s: State, s': State, abs: View, t: Tid, current: Prints)
    requires Inv(s, abs) && Next(s, s', ReadOn(t, current))
    ensures Inv(s', abs) && SameLog(s, s')
  {
    var th := s'.threads[t];
    ReadIsSerial(s, abs, t, current);
    QuietStep(s, s', abs, t);
    FreshStep(s, s', abs, t, th, {});
  }

  lemma ThreadStep(s: State, s': State, abs: View, step: Step)
    requires Inv(s, abs) && Next(s, s', step)
    requires step.StartScan? || step.ScanGivesUp? || step.StartRecapture? || step.AgeLoaded? || step.RecaptureGivesUp?
    ensures Inv(s', abs) && SameLog(s, s')
  {
    var t := step.t;
    var th := s'.threads[t];
    var drawn := s'.drawn - s.drawn;
    assert ThreadOk(s, abs, t, ThreadAt(s, t)) by {
      assert t in s.threads ==> ThreadOk(s, abs, t, s.threads[t]);
    }
    QuietStep(s, s', abs, t);
    FreshStep(s, s', abs, t, th, drawn);
  }

  lemma HubStep(s: State, s': State, abs: View, step: Step)
    requires Inv(s, abs) && Next(s, s', step)
    requires step.SetBaseline? || step.MarkRescanned? || step.MarkLost?
    ensures Inv(s', abs) && SameLog(s, s')
  {
    var t := step.t;
    var th := s.threads[t];
    var ts := if step.MarkLost? then step.now else th.now;
    var branch := if step.SetBaseline? then th.branch else if t.process in s.hubs then s.hubs[t.process].branch else "";
    assert ThreadOk(s, abs, t, th);
    QuietStep(s, s', abs, t);
    FreshHub(s, s', abs, t, if step.MarkLost? then {ts} else {}, HubBaseline(branch, ts));
  }

  // ---------------------------------------------------------------- taking the lock

  lemma LockStep(s: State, s': State, abs: View, t: Tid, job: Job)
    requires Inv(s, abs) && s.lock == None && s' == StartCommit(s, t, job)
    requires JobOk(s.disk, abs, job, MovingInline(InlineBranches(job.loaded)))
    requires Pending(ThreadAt(s, t)) == {job.write.scan.now}
    ensures Inv(s', abs)
  {
    FreshStep(s, s', abs, t, s'.threads[t], {});
    forall u | u in s'.threads ensures ThreadOk(s', abs, u, s'.threads[u]) {
      if u != t { assert ThreadOk(s, abs, u, s.threads[u]); }
    }
  }

  /** Nothing is being replaced while the lock is free: what the lock holder loads is the serial store. */
  lemma LoadedIsSerial(s: State, abs: View, b: Branch)
    requires Inv(s, abs) && (forall x :: !Doomed(s, x))
    ensures ViewOf(s.disk) == abs
    ensures LoadBranch(s.disk, LoadIndex(s.disk), b) == if b in abs then Some(abs[b].data) else None
  {
    var index := LoadIndex(s.disk);
    StampedLikeView(index, abs, b, NO_DATA, 0);
  }

  /** A job aged from the serial store can start committing. */
  lemma CanStartMoving(s: State, abs: View, t: Tid, job: Job)
    requires Inv(s, abs) && s.lock == None
    requires job.loaded == LoadIndex(s.disk) && job.previous == LoadBranch(s.disk, job.loaded, job.write.branch)
    requires job.out == AgeData(DataIn(abs, job.write.branch), job.write.scan)
    ensures JobOk(s.disk, abs, job, MovingInline(InlineBranches(job.loaded)))
  {
    LoadedIsSerial(s, abs, job.write.branch);
  }

  lemma ScanLockStep(s: State, s': State, abs: View, t: Tid)
    requires Inv(s, abs) && Next(s, s', ScanLocks(t))
    ensures Inv(s', abs) && SameLog(s, s')
  {
    LoadedIsSerial(s, abs, s.threads[t].write.branch);
    CanStartMoving(s, abs, t, s'.threads[t].job);
    LockStep(s, s', abs, t, s'.threads[t].job);
  }

  /** The stamp still matches under the lock: what the recapture aged is what the store holds. */
  lemma RecaptureIsCurrent(s: State, abs: View, t: Tid)
    requires Inv(s, abs) && ThreadAt(s, t).RecaptureWaits? && s.lock == None
    requires var r := ThreadAt(s, t).r; r.branch in LoadIndex(s.disk) && LoadIndex(s.disk)[r.branch].updated == r.ts
    ensures var th := ThreadAt(s, t);
            && th.write.branch == th.r.branch
            && th.out == AgeData(DataIn(abs, th.r.branch), th.write.scan)
  {
    var th := s.threads[t];
    assert ThreadOk(s, abs, t, th);
    StampedLikeView(LoadIndex(s.disk), abs, th.r.branch, NO_DATA, 0);
    assert Live(s, abs, th.r.branch, th.r.ts);
  }

  lemma RecaptureLockStep(s: State, s': State, abs: View, t: Tid)
    requires Inv(s, abs) && Next(s, s', RecaptureLocks(t))
    ensures Inv(s', abs) && SameLog(s, s')
  {
    if s'.threads[t].Lost? {
      RecaptureLoses(s, s', abs, t);
    } else {
      RecaptureCommits(s, s', abs, t);
    }
  }

  lemma RecaptureLoses(s: State, s': State, abs: View, t: Tid)
    requires Inv(s, abs) && ThreadAt(s, t).RecaptureWaits? && s' == Put(s, t, Lost)
    ensures Inv(s', abs)
  {
    QuietStep(s, s', abs, t);
    FreshStep(s, s', abs, t, Lost, {});
  }

  lemma RecaptureCommits(s: State, s': State, abs: View, t: Tid)
    requires Inv(s, abs) && Next(s, s', RecaptureLocks(t)) && !s'.threads[t].Lost?
    ensures Inv(s', abs)
  {
    RecaptureIsCurrent(s, abs, t);
    CanStartMoving(s, abs, t, s'.threads[t].job);
    LockStep(s, s', abs, t, s'.threads[t].job);
  }

  // ---------------------------------------------------------------- committing

  /** A file operation of a commit touches no branch that is not being replaced. */
  lemma FileStep(s: State, s': State, abs: View, t: Tid, phase: Phase, files: Files)
    requires Inv(s, abs) && BeforeIndex(ThreadAt(s, t)) && !phase.DroppingLegacy?
    requires s' == Put(s, t, ThreadAt(s, t).(phase := phase)).(disk := s.disk.(files := files))
    requires PhaseOk(files, abs, ThreadAt(s, t).job, phase)
    requires forall b | b in abs && b in LoadIndex(s.disk) && LoadIndex(s.disk)[b].inline.None? && !Doomed(s, b) ::
               LoadFile(files, b) == LoadFile(s.disk.files, b)
    ensures Inv(s', abs)
  {
    var th := s.threads[t];
    assert ThreadOk(s, abs, t, th);
    assert forall b :: Doomed(s', b) <==> Doomed(s, b);
    FreshStep(s, s', abs, t, s'.threads[t], {});
    FileThreads(s, s', abs, t, phase, files);
  }

  lemma FileThreads(s: State, s': State, abs: View, t: Tid, phase: Phase, files: Files)
    requires Inv(s, abs) && BeforeIndex(ThreadAt(s, t)) && !phase.DroppingLegacy?
    requires s' == Put(s, t, ThreadAt(s, t).(phase := phase)).(disk := s.disk.(files := files))
    requires PhaseOk(files, abs, ThreadAt(s, t).job, phase)
    ensures forall u | u in s'.threads :: ThreadOk(s', abs, u, s'.threads[u])
  {
    assert ThreadOk(s, abs, t, s.threads[t]);
    assert forall b :: Doomed(s', b) <==> Doomed(s, b);
    forall u | u in s'.threads ensures ThreadOk(s', abs, u, s'.threads[u]) {
      if u != t { assert ThreadOk(s, abs, u, s.threads[u]); }
    }
  }

  lemma MoveStep(s: State, s': State, abs: View, t: Tid, b: Branch)
    requires Inv(s, abs) && (Next(s, s', MoveOne(t, b)) || Next(s, s', MovesDone(t)))
    ensures Inv(s', abs) && SameLog(s, s')
  {
    var th := s.threads[t];
    assert ThreadOk(s, abs, t, th) && JobOk(s.disk, abs, th.job, th.phase);
    FileStep(s, s', abs, t, s'.threads[t].phase, s'.disk.files);
  }

  lemma WriteFileStep(s: State, s': State, abs: View, t: Tid)
    requires Inv(s, abs) && Next(s, s', WriteBranchFile(t))
    ensures Inv(s', abs) && SameLog(s, s')
  {
    var job := s.threads[t].job;
    assert ThreadOk(s, abs, t, s.threads[t]) && JobOk(s.disk, abs, job, WritingFile);
    BranchFileHolds(s.disk.files, s'.disk.files, abs, job);
    FileStep(s, s', abs, t, s'.threads[t].phase, s'.disk.files);
  }

  /** Whether or not the branch file is rewritten, it holds the new data. */
  lemma BranchFileHolds(files: Files, files': Files, abs: View, job: Job)
    requires IndexStamps(job.loaded) == ViewStamps(abs) && PhaseOk(files, abs, job, WritingFile)
    requires job.previous == (if job.write.branch in abs then Some(abs[job.write.branch].data) else None)
    requires var b, data := job.write.branch, DataOf(job.out);
             files' == if job.previous != Some(data) || b !in files then files[b := data] else files
    ensures PhaseOk(files', abs, job, WritingIndex)
    ensures forall b | b != job.write.branch :: LoadFile(files', b) == LoadFile(files, b)
  {
    StampedLikeView(job.loaded, abs, job.write.branch, NO_DATA, 0);
  }

  lemma RemoveOneStep(s: State, s': State, abs: View, t: Tid, b: Branch)
    requires Inv(s, abs) && Next(s, s', RemoveOne(t, b))
    ensures Inv(s', abs) && SameLog(s, s')
  {
    RemoveOneHolds(s, s', abs, t, b);
    FileStep(s, s', abs, t, s'.threads[t].phase, s'.disk.files);
  }

  lemma RemoveOneHolds(s: State, s': State, abs: View, t: Tid, b: Branch)
    requires Inv(s, abs) && Next(s, s', RemoveOne(t, b))
    ensures Doomed(s, b) && PhaseOk(s'.disk.files, abs, ThreadAt(s, t).job, s'.threads[t].phase)
  {
    var th := s.threads[t];
    assert ThreadOk(s, abs, t, th) && JobOk(s.disk, abs, th.job, th.phase);
  }

  lemma RemovesDoneStep(s: State, s': State, abs: View, t: Tid)
    requires Inv(s, abs) && Next(s, s', RemovesDone(t))
    ensures Inv(s', abs) && SameLog(s, s')
  {
    var th := s.threads[t];
    assert ThreadOk(s, abs, t, th) && JobOk(s.disk, abs, th.job, th.phase);
    FileStep(s, s', abs, t, WritingIndex, s.disk.files);
  }

  predicate SameLog(s: State, s': State) {
    s'.start == s.start && s'.writes == s.writes && s'.outs == s.outs
  }

  lemma IndexDisk(s: State, abs: View)
    requires s.disk.index.Some? && ViewOf(s.disk) == abs
    requires forall b | b in s.disk.index.value :: s.disk.index.value[b].inline.None?
    ensures DiskOk(s, abs)
  {
    var index := s.disk.index.value;
    assert index.Keys == abs.Keys;
    forall b | b in index ensures IndexStamps(index)[b] == ViewStamps(abs)[b] && LoadFile(s.disk.files, b) == abs[b].data {
      assert ViewOf(s.disk)[b] == abs[b];
    }
  }

  /** The pending reading of the committing thread becomes a stamp. */
  lemma IndexFresh(s: State, s': State, abs: View, abs': View, t: Tid)
    requires Inv(s, abs) && Next(s, s', WriteIndexFile(t)) && abs' == Apply(abs, s.threads[t].job.write)
    ensures FreshOk(s', abs') && LegacyOk(s', abs')
  {
    StampsGrow(abs, s.threads[t].job.write);
    StampedFresh(s, s', abs, abs', t);
  }

  lemma StampsGrow(abs: View, w: Write)
    ensures StampSet(Apply(abs, w)) <= StampSet(abs) + {w.scan.now}
  {
  }

  lemma StampedFresh(s: State, s': State, abs: View, abs': View, t: Tid)
    requires FreshOk(s, abs) && t in s.threads && t in s'.threads && s'.threads == s.threads[t := s'.threads[t]]
    requires Pending(s'.threads[t]) == {} && Held(s'.threads[t]) == Pending(s.threads[t])
    requires StampSet(abs') <= StampSet(abs) + Pending(s.threads[t])
    requires s'.hubs == s.hubs && s'.drawn == s.drawn && s'.disk.index.Some?
    ensures FreshOk(s', abs') && LegacyOk(s', abs')
  {
    HandsOnThreads(s, abs, t, s'.threads[t], {});
    forall u | u in s'.threads ensures Pending(s'.threads[u]) !! StampSet(abs') {
      if u != t { assert Apart(s.threads[t], s.threads[u]); }
    }
  }

  lemma IndexLog(s: State, s': State, t: Tid)
    requires Inv(s, Serial(s)) && Next(s, s', WriteIndexFile(t))
    ensures LogOk(s')
  {
    assert ThreadOk(s, Serial(s), t, s.threads[t]);
    forall i | 0 <= i < |s'.writes|
      ensures s'.outs[i] == AgeData(DataIn(Replay(s'.start, s'.writes[..i]), s'.writes[i].branch), s'.writes[i].scan)
    {
      if i < |s.writes| {
        assert s'.writes[..i] == s.writes[..i];
      } else {
        assert s'.writes[..i] == s.writes;
      }
    }
  }

  /** A branch that is live after the commit was live before it, with the same data. */
  lemma LiveBefore(s: State, s': State, abs: View, t: Tid, b: Branch, ts: nat)
    requires Inv(s, abs) && Next(s, s', WriteIndexFile(t))
    requires ts != s.threads[t].job.write.scan.now
    requires Live(s', Apply(abs, s.threads[t].job.write), b, ts)
    ensures Live(s, abs, b, ts) && Apply(abs, s.threads[t].job.write)[b] == abs[b]
    ensures MovedOut(s'.disk, b)
  {
    var job := s.threads[t].job;
    var w := job.write;
    assert ThreadOk(s, abs, t, s.threads[t]);
    var data := AfterScan(DataIn(abs, w.branch), w.scan);
    StampedLikeView(job.loaded, abs, w.branch, data, w.scan.now);
    assert b != w.branch && b in abs;
    assert b !in StaleOnCommit(job.loaded, w.branch, w.scan.now);
  }

  lemma IndexOther(s: State, s': State, abs: View, abs': View, t: Tid, u: Tid)
    requires Inv(s, abs) && Next(s, s', WriteIndexFile(t)) && u in s.threads && u != t
    requires abs' == Apply(abs, s.threads[t].job.write)
    ensures ThreadOk(s', abs', u, s.threads[u])
  {
    var w, th := s.threads[t].job.write, s.threads[u];
    assert ThreadOk(s, abs, u, th) && ThreadOk(s, abs, t, s.threads[t]);
    assert Apart(s.threads[t], th);
    if th.Reading? || th.Loaded? || th.RecaptureWaits? {
      var r := th.r;
      if Live(s', abs', r.branch, r.ts) {
        LiveBefore(s, s', abs, t, r.branch, r.ts);
      }
    }
  }

  lemma IndexView(s: State, s': State, abs: View, t: Tid)
    requires Inv(s, abs) && Next(s, s', WriteIndexFile(t)) && abs == Serial(s)
    ensures ViewOf(s'.disk) == Apply(abs, s.threads[t].job.write) == Serial(s')
  {
    CommittingJob(s, abs, t);
    var job := s.threads[t].job;
    JobCompletes(s.disk, abs, job);
    SerialMovesOn(s.start, s.writes, job.write);
  }

  lemma CommittingJob(s: State, abs: View, t: Tid)
    requires Inv(s, abs) && ThreadAt(s, t).Committing?
    ensures var th := s.threads[t]; JobOk(s.disk, abs, th.job, th.phase)
    ensures IndexStamps(LoadIndex(s.disk)) == ViewStamps(abs)
  {
    assert ThreadOk(s, abs, t, s.threads[t]);
  }

  lemma JobCompletes(disk: Disk, abs: View, job: Job)
    requires JobOk(disk, abs, job, WritingIndex) && IndexStamps(job.loaded) == ViewStamps(abs)
    ensures var w := job.write;
            ViewOf(Disk(Some(NextIndex(job.loaded, w.branch, w.scan.now)), disk.legacy, disk.files)) == Apply(abs, w)
  {
    var w := job.write;
    IndexCompletes(job.loaded, abs, w.branch, DataOf(job.out), w.scan.now, disk.files, disk.legacy);
  }

  lemma SerialMovesOn(start: View, writes: seq<Write>, w: Write)
    ensures Replay(start, writes + [w]) == Apply(Replay(start, writes), w)
  {
    assert (writes + [w])[..|writes|] == writes;
  }

  /** The index write is where the commit takes effect: the serial store moves on by one scan. */
  lemma IndexStep(s: State, s': State, abs: View, t: Tid)
    requires Inv(s, abs) && Next(s, s', WriteIndexFile(t)) && abs == Serial(s)
    ensures Inv(s', Serial(s'))
  {
    IndexView(s, s', abs, t);
    IndexStepTo(s, s', abs, Serial(s'), t);
  }

  lemma IndexStepTo(s: State, s': State, abs: View, abs': View, t: Tid)
    requires Inv(s, abs) && Next(s, s', WriteIndexFile(t)) && abs == Serial(s)
    requires abs' == Apply(abs, s.threads[t].job.write) && ViewOf(s'.disk) == abs'
    ensures Inv(s', abs')
  {
    IndexMovedOut(s, s', t);
    IndexDisk(s', abs');
    IndexFresh(s, s', abs, abs', t);
    IndexLog(s, s', t);
    IndexThreads(s, s', abs, abs', t);
  }

  lemma IndexMovedOut(s: State, s': State, t: Tid)
    requires Next(s, s', WriteIndexFile(t))
    ensures s'.disk.index.Some? && forall b | b in s'.disk.index.value :: s'.disk.index.value[b].inline.None?
  {
  }

  lemma IndexThreads(s: State, s': State, abs: View, abs': View, t: Tid)
    requires Inv(s, abs) && Next(s, s', WriteIndexFile(t)) && abs' == Apply(abs, s.threads[t].job.write)
    ensures forall u | u in s'.threads :: ThreadOk(s', abs', u, s'.threads[u])
  {
    assert ThreadOk(s, abs, t, s.threads[t]);
    forall u | u in s'.threads ensures ThreadOk(s', abs', u, s'.threads[u]) {
      if u != t {
        IndexOther(s, s', abs, abs', t, u);
      }
    }
  }

  lemma DropLegacyStep(s: State, s': State, abs: View, t: Tid)
    requires Inv(s, abs) && Next(s, s', DropLegacy(t))
    ensures Inv(s', abs) && SameLog(s, s')
  {
    assert ThreadOk(s, abs, t, s.threads[t]);
    assert forall b :: !Doomed(s, b) && !Doomed(s', b);
    FreshStep(s, s', abs, t, s'.threads[t], {});
    DropLegacyThreads(s, s', abs, t);
  }

  lemma DropLegacyThreads(s: State, s': State, abs: View, t: Tid)
    requires Inv(s, abs) && Next(s, s', DropLegacy(t))
    ensures forall u | u in s'.threads :: ThreadOk(s', abs, u, s'.threads[u])
  {
    assert ThreadOk(s, abs, t, s.threads[t]);
    assert forall b :: !Doomed(s, b) && !Doomed(s', b);
    forall u | u in s'.threads ensures ThreadOk(s', abs, u, s'.threads[u]) {
      if u != t { assert ThreadOk(s, abs, u, s.threads[u]); }
    }
  }

  // ---------------------------------------------------------------- whole runs

  lemma OtherStep(s: State, s': State, abs: View, step: Step)
    requires Inv(s, abs) && Next(s, s', step) && !step.WriteIndexFile?
    ensures Inv(s', abs) && SameLog(s, s')
  {
    match step
    case ReadOn(t, current) => ReadStep(s, s', abs, t, current);
    case ScanLocks(t) => ScanLockStep(s, s', abs, t);
    case RecaptureLocks(t) => RecaptureLockStep(s, s', abs, t);
    case MoveOne(t, b) => MoveStep(s, s', abs, t, b);
    case MovesDone(t) => MoveStep(s, s', abs, t, "");
    case WriteBranchFile(t) => WriteFileStep(s, s', abs, t);
    case RemoveOne(t, b) => RemoveOneStep(s, s', abs, t, b);
    case RemovesDone(t) => RemovesDoneStep(s, s', abs, t);
    case DropLegacy(t) => DropLegacyStep(s, s', abs, t);
    case SetBaseline(_) => HubStep(s, s', abs, step);
    case MarkRescanned(_) => HubStep(s, s', abs, step);
    case MarkLost(_, _) => HubStep(s, s', abs, step);
    case _ => ThreadStep(s, s', abs, step);
  }

  lemma SameSerial(s: State, s': State)
    requires SameLog(s, s')
    ensures Serial(s') == Serial(s)
  {
  }

  lemma NextHolds(s: State, s': State, step: Step)
    requires Inv(s, Serial(s)) && Next(s, s', step)
    ensures Inv(s', Serial(s'))
  {
    if step.WriteIndexFile? {
      IndexStep(s, s', Serial(s), step.t);
    } else {
      OtherStep(s, s', Serial(s), step);
      SameSerial(s, s');
    }
  }

  lemma {:induction false} RunHolds(states: seq<State>, steps: seq<Step>, n: nat)
    requires IsRun(states, steps) && n < |states|
    ensures Inv(states[n], Serial(states[n]))
  {
    if n == 0 {
      InitHolds(states[0]);
    } else {
      RunHolds(states, steps, n - 1);
      NextHolds(states[n - 1], states[n], steps[n - 1]);
    }
  }

  /** In every state of every interleaving, each committed write is the aging of the state committed just
      before it, and whenever no commit is in progress the files on disk read as the committed writes
      applied one after another. */
  lemma Serializable(states: seq<State>, steps: seq<Step>, n: nat)
    requires IsRun(states, steps) && n < |states|
    ensures var s := states[n];
            && |s.outs| == |s.writes|
            && forall i | 0 <= i < |s.writes| ::
                 var w, before := s.writes[i], Replay(s.start, s.writes[..i]);
                 && s.outs[i] == AgeData(DataIn(before, w.branch), w.scan)
                 && Replay(s.start, s.writes[..i + 1]) == Replace(before, w.branch, DataOf(s.outs[i]), w.scan.now)
    ensures var s := states[n];
            s.lock == None ==> ViewOf(s.disk) == Replay(s.start, s.writes)
  {
    RunHolds(states, steps, n);
    var s := states[n];
    LogIsSerial(s);
    if s.lock == None {
      LoadedIsSerial(s, Serial(s), "");
    }
  }

  lemma LogIsSerial(s: State)
    requires LogOk(s)
    ensures forall i | 0 <= i < |s.writes| ::
              Replay(s.start, s.writes[..i + 1]) ==
              Replace(Replay(s.start, s.writes[..i]), s.writes[i].branch, DataOf(s.outs[i]), s.writes[i].scan.now)
  {
    forall i | 0 <= i < |s.writes|
      ensures Replay(s.start, s.writes[..i + 1]) ==
              Replace(Replay(s.start, s.writes[..i]), s.writes[i].branch, DataOf(s.outs[i]), s.writes[i].scan.now)
    {
      ReplaySnoc(s.start, s.writes, i);
      assert s.outs[i] == AgeData(DataIn(Replay(s.start, s.writes[..i]), s.writes[i].branch), s.writes[i].scan);
    }
  }

  lemma ReplaySnoc(view: View, writes: seq<Write>, i: nat)
    requires i < |writes|
    ensures Replay(view, writes[..i + 1]) == Apply(Replay(view, writes[..i]), writes[i])
  {
    assert writes[..i + 1][..i] == writes[..i];
  }
}
