/** Whose scan a commit holds: in every interleaving each committed write is the scan its own thread made. */
module RecaptureRuns {
  import opened Options
  import opened Findings
  import opened Aging
  import opened Baselines
  import opened BranchRuns
  import opened Protocol

  /** When a thread started, was handed the report of its rescan, aged it, and took the lock. */
  datatype Trail = Trail(start: nat, rescan: nat, aged: nat, locked: nat)

  ghost predicate StepAt(steps: seq<Step>, i: nat, step: Step) {
    i < |steps| && steps[i] == step
  }

  /** At step `i` the thread starts a recapture of its process's baseline. */
  ghost predicate StartsAt(states: seq<State>, steps: seq<Step>, t: Tid, i: nat, branch: Branch, ts: nat) {
    && i < |states| && StepAt(steps, i, StartRecapture(t))
    && t.process in states[i].hubs && states[i].hubs[t.process] == HubBaseline(branch, ts)
  }

  /** At step `i` the thread ends its check before the rescan and is handed the rescan's report. */
  ghost predicate RescansAt(states: seq<State>, steps: seq<Step>, t: Tid, i: nat, report: Prints) {
    && i + 1 < |states| && StepAt(steps, i, ReadOn(t, report))
    && ThreadAt(states[i], t).Reading? && ThreadAt(states[i], t).goal.CheckBeforeScan?
    && ThreadAt(states[i + 1], t).Reading? && ThreadAt(states[i + 1], t).goal.CheckAfterScan?
  }

  /** Nothing was started by the thread between these steps. */
  ghost predicate NoStart(steps: seq<Step>, t: Tid, from: nat, to: nat) {
    forall j | from < j < to && j < |steps| :: steps[j].t == t ==> !steps[j].StartScan? && !steps[j].StartRecapture?
  }

  ghost predicate Handed(states: seq<State>, steps: seq<Step>, t: Tid, n: nat, trail: Trail, branch: Branch, ts: nat, report: Prints) {
    && trail.start < trail.rescan < n && NoStart(steps, t, trail.start, n)
    && StartsAt(states, steps, t, trail.start, branch, ts) && RescansAt(states, steps, t, trail.rescan, report)
  }

  /** The recapture's write is of its own report, at the reading and with the ignored findings it was aged with. */
  ghost predicate OwnRecapture(states: seq<State>, steps: seq<Step>, t: Tid, n: nat, trail: Trail, ts: nat, w: Write) {
    && Handed(states, steps, t, n, trail, w.branch, ts, w.scan.prints)
    && trail.rescan < trail.aged < n && StepAt(steps, trail.aged, AgeLoaded(t, w.scan.now, w.scan.ignore))
  }

  ghost predicate LockedAt(states: seq<State>, steps: seq<Step>, t: Tid, n: nat, trail: Trail, w: Write, ts: nat) {
    && trail.aged < trail.locked < n && trail.locked < |states| && StepAt(steps, trail.locked, RecaptureLocks(t))
    && w.branch in LoadIndex(states[trail.locked].disk) && LoadIndex(states[trail.locked].disk)[w.branch].updated == ts
  }

  ghost predicate OwnScan(steps: seq<Step>, t: Tid, n: nat, trail: Trail, w: Write) {
    trail.start < n && NoStart(steps, t, trail.start, n) && StepAt(steps, trail.start, StartScan(t, w))
  }

  predicate AfterRescan(goal: Goal) {
    goal in {CheckAfterScan, LoadPrints, LoadHistory}
  }

  /** What the thread holds is its own. */
  ghost predicate Holds(states: seq<State>, steps: seq<Step>, t: Tid, n: nat, th: Thread, trail: Trail, ts: nat) {
    match th
    case ScanWaits(w) => OwnScan(steps, t, n, trail, w)
    case Reading(r, goal, stage) =>
      && r.ts == ts && (stage.ReadFile? ==> goal in {LoadPrints, LoadHistory})
      && (if AfterRescan(goal) then Handed(states, steps, t, n, trail, r.branch, ts, r.current)
          else trail.start < n && NoStart(steps, t, trail.start, n) && StartsAt(states, steps, t, trail.start, r.branch, ts))
    case Loaded(r) => r.ts == ts && Handed(states, steps, t, n, trail, r.branch, ts, r.current)
    case RecaptureWaits(r, w, _) => r.ts == ts && r.branch == w.branch && OwnRecapture(states, steps, t, n, trail, ts, w)
    case Committing(job, _) =>
      if job.byScan then OwnScan(steps, t, n, trail, job.write)
      else OwnRecapture(states, steps, t, n, trail, ts, job.write) && LockedAt(states, steps, t, n, trail, job.write, ts)
    case ScanRecorded(branch, now) => exists w :: OwnScan(steps, t, n, trail, w) && w.branch == branch && w.scan.now == now
    case Recaptured(now) => exists w :: OwnRecapture(states, steps, t, n, trail, ts, w) && w.scan.now == now
    case _ => true
  }

  lemma HoldsOn(states: seq<State>, steps: seq<Step>, t: Tid, n: nat, th: Thread, trail: Trail, ts: nat)
    requires n < |steps| && Holds(states, steps, t, n, th, trail, ts)
    requires steps[n].t == t ==> !steps[n].StartScan? && !steps[n].StartRecapture?
    ensures Holds(states, steps, t, n + 1, th, trail, ts)
  {
    if th.ScanRecorded? {
      var w :| OwnScan(steps, t, n, trail, w) && w.branch == th.branch && w.scan.now == th.now;
      assert OwnScan(steps, t, n + 1, trail, w);
    } else if th.Recaptured? {
      var w :| OwnRecapture(states, steps, t, n, trail, ts, w) && w.scan.now == th.now;
      assert OwnRecapture(states, steps, t, n + 1, trail, ts, w);
    }
  }

  lemma OtherThread(s: State, s': State, step: Step, t: Tid)
    requires Next(s, s', step) && step.t != t
    ensures ThreadAt(s', t) == ThreadAt(s, t)
  {
  }

  lemma StartStep(states: seq<State>, steps: seq<Step>, t: Tid, n: nat) returns (trail: Trail, ts: nat)
    requires n < |steps| && n + 1 < |states| && Next(states[n], states[n + 1], steps[n]) && steps[n].t == t
    requires steps[n].StartScan? || steps[n].StartRecapture?
    ensures Holds(states, steps, t, n + 1, ThreadAt(states[n + 1], t), trail, ts)
  {
    trail, ts := Trail(n, 0, 0, 0), 0;
    if steps[n].StartRecapture? {
      ts := states[n].hubs[t.process].ts;
    }
  }

  /** A read keeps the branch, the stamp and the report, except that the check before the rescan hands a new report on. */
  lemma ReadKeeps(disk: Disk, th: Thread, current: Prints)
    requires th.Reading? && (th.stage.ReadFile? ==> th.goal in {LoadPrints, LoadHistory})
    ensures match AfterRead(disk, th, current)
            case Reading(r, goal, stage) =>
              && (stage.ReadFile? ==> goal in {LoadPrints, LoadHistory})
              && r.branch == th.r.branch && r.ts == th.r.ts
              && (goal == th.goal || AfterRescan(goal) || goal == CheckBeforeScan) && (AfterRescan(th.goal) ==> AfterRescan(goal))
              && (if AfterRescan(goal) && !AfterRescan(th.goal) then th.goal == CheckBeforeScan && goal == CheckAfterScan && r.current == current
                  else r.current == th.r.current)
            case Loaded(r) => AfterRescan(th.goal) && r.branch == th.r.branch && r.ts == th.r.ts && r.current == th.r.current
            case Idle => true
            case Lost => true
            case _ => false
  {
  }

  lemma ReadHolds(states: seq<State>, steps: seq<Step>, t: Tid, n: nat, trail: Trail, ts: nat) returns (trail': Trail)
    requires n < |steps| && n + 1 < |states| && steps[n].ReadOn? && steps[n].t == t && Next(states[n], states[n + 1], steps[n])
    requires Holds(states, steps, t, n, ThreadAt(states[n], t), trail, ts)
    requires Holds(states, steps, t, n + 1, ThreadAt(states[n], t), trail, ts)
    ensures Holds(states, steps, t, n + 1, ThreadAt(states[n + 1], t), trail', ts)
  {
    var th, th' := ThreadAt(states[n], t), ThreadAt(states[n + 1], t);
    ReadKeeps(states[n].disk, th, steps[n].current);
    trail' := if th'.Reading? && AfterRescan(th'.goal) && !AfterRescan(th.goal) then trail.(rescan := n) else trail;
  }

  lemma CommitHolds(states: seq<State>, steps: seq<Step>, t: Tid, n: nat, th: Thread, th': Thread, trail: Trail, ts: nat)
    requires th.Committing? && Holds(states, steps, t, n, th, trail, ts)
    requires th'.Committing? && th' == th.(phase := th'.phase)
    ensures Holds(states, steps, t, n, th', trail, ts)
  {
  }

  lemma DropHolds(states: seq<State>, steps: seq<Step>, t: Tid, n: nat, th: Thread, trail: Trail, ts: nat)
    requires th.Committing? && Holds(states, steps, t, n, th, trail, ts)
    ensures var w := th.job.write;
            Holds(states, steps, t, n, if th.job.byScan then ScanRecorded(w.branch, w.scan.now) else Recaptured(w.scan.now), trail, ts)
  {
    if th.job.byScan {
      assert OwnScan(steps, t, n, trail, th.job.write);
    } else {
      assert OwnRecapture(states, steps, t, n, trail, ts, th.job.write);
    }
  }

  /** What a step turns its thread into, unless the thread starts or reads. */
  ghost predicate Shape(disk: Disk, step: Step, th: Thread, th': Thread) {
    match th
    case Committing(job, _) =>
      if step.DropLegacy? then th' == if job.byScan then ScanRecorded(job.write.branch, job.write.scan.now) else Recaptured(job.write.scan.now)
      else th'.Committing? && th' == th.(phase := th'.phase)
    case ScanWaits(w) => th' == ScanRecorded(w.branch, w.scan.now) || (th'.Committing? && th'.job.byScan && th'.job.write == w)
    case Loaded(r) =>
      step.AgeLoaded? && th'.RecaptureWaits? && th'.r == r && th'.write == Write(r.branch, Scan(r.current, step.now, step.ignore))
    case RecaptureWaits(r, w, _) =>
      th' == Idle || th' == Lost ||
      (step.RecaptureLocks? && th'.Committing? && !th'.job.byScan && th'.job.write == w
       && r.branch in LoadIndex(disk) && LoadIndex(disk)[r.branch].updated == r.ts)
    case Reading(_, _, _) => step.ReadOn?
    case Idle => step.StartScan? || step.StartRecapture?
    case _ => th' == Idle
  }

  lemma Shapes(s: State, s': State, step: Step)
    requires Next(s, s', step)
    ensures Shape(s.disk, step, ThreadAt(s, step.t), ThreadAt(s', step.t))
  {
  }

  lemma ShapeHolds(states: seq<State>, steps: seq<Step>, t: Tid, n: nat, th: Thread, th': Thread, trail: Trail, ts: nat) returns (trail': Trail)
    requires n < |steps| && n < |states| && StepAt(steps, n, steps[n]) && steps[n].t == t && Shape(states[n].disk, steps[n], th, th')
    requires !steps[n].StartScan? && !steps[n].StartRecapture? && !steps[n].ReadOn?
    requires Holds(states, steps, t, n, th, trail, ts) && Holds(states, steps, t, n + 1, th, trail, ts)
    ensures Holds(states, steps, t, n + 1, th', trail', ts)
  {
    trail' := trail;
    match th {
      case Committing(_, _) =>
        if th'.Committing? {
          CommitHolds(states, steps, t, n + 1, th, th', trail, ts);
        } else {
          DropHolds(states, steps, t, n + 1, th, trail, ts);
        }
      case ScanWaits(w) =>
        assert OwnScan(steps, t, n + 1, trail, w);
      case Loaded(_) =>
        trail' := AgeHolds(states, steps, t, n, th, th', trail, ts);
      case RecaptureWaits(_, _, _) =>
        if th'.Committing? {
          trail' := LockHolds(states, steps, t, n, th, th', trail, ts);
        }
      case _ =>
    }
  }

  lemma AgeHolds(states: seq<State>, steps: seq<Step>, t: Tid, n: nat, th: Thread, th': Thread, trail: Trail, ts: nat) returns (trail': Trail)
    requires th.Loaded? && th'.RecaptureWaits? && th'.r == th.r && n < |steps|
    requires th'.write.branch == th.r.branch && th'.write.scan.prints == th.r.current
    requires steps[n] == AgeLoaded(t, th'.write.scan.now, th'.write.scan.ignore)
    requires Holds(states, steps, t, n, th, trail, ts) && Holds(states, steps, t, n + 1, th, trail, ts)
    ensures Holds(states, steps, t, n + 1, th', trail', ts)
  {
    trail' := trail.(aged := n);
  }

  lemma LockHolds(states: seq<State>, steps: seq<Step>, t: Tid, n: nat, th: Thread, th': Thread, trail: Trail, ts: nat) returns (trail': Trail)
    requires th.RecaptureWaits? && th'.Committing? && !th'.job.byScan && th'.job.write == th.write && n < |steps| && n < |states|
    requires steps[n] == RecaptureLocks(t)
    requires th.r.branch in LoadIndex(states[n].disk) && LoadIndex(states[n].disk)[th.r.branch].updated == th.r.ts
    requires Holds(states, steps, t, n, th, trail, ts) && Holds(states, steps, t, n + 1, th, trail, ts)
    ensures Holds(states, steps, t, n + 1, th', trail', ts)
  {
    trail' := trail.(locked := n);
  }

  /** At every point of every run a thread holds only what is its own. */
  lemma {:induction false} ThreadHolds(states: seq<State>, steps: seq<Step>, t: Tid, n: nat) returns (trail: Trail, ts: nat)
    requires IsRun(states, steps) && n < |states|
    ensures Holds(states, steps, t, n, ThreadAt(states[n], t), trail, ts)
  {
    if n == 0 {
      trail, ts := Trail(0, 0, 0, 0), 0;
    } else {
      trail, ts := ThreadHolds(states, steps, t, n - 1);
      trail, ts := HoldsAfter(states, steps, t, n - 1, trail, ts);
    }
  }

  lemma HoldsAfter(states: seq<State>, steps: seq<Step>, t: Tid, n: nat, trail: Trail, ts: nat) returns (trail': Trail, ts': nat)
    requires IsRun(states, steps) && n < |steps|
    requires Holds(states, steps, t, n, ThreadAt(states[n], t), trail, ts)
    ensures Holds(states, steps, t, n + 1, ThreadAt(states[n + 1], t), trail', ts')
  {
    var step := steps[n];
    if step.t == t && (step.StartScan? || step.StartRecapture?) {
      trail', ts' := StartStep(states, steps, t, n);
    } else {
      ts' := ts;
      trail' := HoldsNext(states, steps, t, n, trail, ts);
    }
  }

  lemma HoldsNext(states: seq<State>, steps: seq<Step>, t: Tid, n: nat, trail: Trail, ts: nat) returns (trail': Trail)
    requires n < |steps| && n + 1 < |states| && Next(states[n], states[n + 1], steps[n])
    requires steps[n].t == t ==> !steps[n].StartScan? && !steps[n].StartRecapture?
    requires Holds(states, steps, t, n, ThreadAt(states[n], t), trail, ts)
    ensures Holds(states, steps, t, n + 1, ThreadAt(states[n + 1], t), trail', ts)
  {
    trail' := trail;
    HoldsOn(states, steps, t, n, ThreadAt(states[n], t), trail, ts);
    if steps[n].t != t {
      OtherThread(states[n], states[n + 1], steps[n], t);
    } else if steps[n].ReadOn? {
      trail' := ReadHolds(states, steps, t, n, trail, ts);
    } else {
      Shapes(states[n], states[n + 1], steps[n]);
      trail' := ShapeHolds(states, steps, t, n, ThreadAt(states[n], t), ThreadAt(states[n + 1], t), trail, ts);
    }
  }

  // ---------------------------------------------------------------- committed writes

  lemma LogGrows(s: State, s': State, step: Step)
    requires Next(s, s', step)
    ensures if step.WriteIndexFile? then ThreadAt(s, step.t).Committing? && s'.writes == s.writes + [ThreadAt(s, step.t).job.write]
            else s'.writes == s.writes
  {
  }

  /** Where a committed write comes from: the thread that wrote the index at step `at` made it itself, as a scan or as a
      recapture that still found its baseline's stamp when it took the lock. */
  datatype Origin = Origin(at: nat, t: Tid, trail: Trail, ts: nat)

  ghost predicate CommittedBy(states: seq<State>, steps: seq<Step>, o: Origin, w: Write) {
    && StepAt(steps, o.at, WriteIndexFile(o.t))
    && (OwnScan(steps, o.t, o.at, o.trail, w) ||
        (OwnRecapture(states, steps, o.t, o.at, o.trail, o.ts, w) && LockedAt(states, steps, o.t, o.at, o.trail, w, o.ts)))
  }

  /** Every committed write of every run is a scan its own thread started with, or holds as its report exactly what its
      own thread was handed at its rescan, after it started its recapture and before it took the lock, with the reading
      and the ignored findings it was aged with. */
  lemma {:induction false} CommitsAreOwn(states: seq<State>, steps: seq<Step>, n: nat, k: nat) returns (o: Origin)
    requires IsRun(states, steps) && n < |states| && k < |states[n].writes|
    ensures o.at < n && |states[o.at].writes| == k && CommittedBy(states, steps, o, states[n].writes[k])
  {
    StartsWithout(states, steps, n);
    var before := states[n - 1];
    LogStep(states, steps, n - 1);
    if k < |before.writes| {
      o := CommitsAreOwn(states, steps, n - 1, k);
    } else {
      o := CommitIsOwn(states, steps, n - 1);
    }
  }

  lemma StartsWithout(states: seq<State>, steps: seq<Step>, n: nat)
    requires IsRun(states, steps) && n < |states| && states[n].writes != []
    ensures n > 0
  {
  }

  lemma LogStep(states: seq<State>, steps: seq<Step>, n: nat)
    requires IsRun(states, steps) && n < |steps|
    ensures if steps[n].WriteIndexFile?
            then ThreadAt(states[n], steps[n].t).Committing? && states[n + 1].writes == states[n].writes + [ThreadAt(states[n], steps[n].t).job.write]
            else states[n + 1].writes == states[n].writes
  {
    LogGrows(states[n], states[n + 1], steps[n]);
  }

  lemma CommitIsOwn(states: seq<State>, steps: seq<Step>, n: nat) returns (o: Origin)
    requires IsRun(states, steps) && n < |steps| && steps[n].WriteIndexFile? && ThreadAt(states[n], steps[n].t).Committing?
    ensures o.at == n && CommittedBy(states, steps, o, ThreadAt(states[n], steps[n].t).job.write)
  {
    var t := steps[n].t;
    var trail, ts := ThreadHolds(states, steps, t, n);
    o := Origin(n, t, trail, ts);
    assert StepAt(steps, n, WriteIndexFile(t));
  }

  /** The baseline a scan leaves to its process is of its own branch and reading. */
  lemma BaselineIsOwn(states: seq<State>, steps: seq<Step>, n: nat) returns (trail: Trail, w: Write)
    requires IsRun(states, steps) && n < |steps| && steps[n].SetBaseline?
    ensures OwnScan(steps, steps[n].t, n, trail, w)
    ensures states[n + 1].hubs == states[n].hubs[steps[n].t.process := HubBaseline(w.branch, w.scan.now)]
  {
    var ts;
    trail, ts := ThreadHolds(states, steps, steps[n].t, n);
    assert Next(states[n], states[n + 1], steps[n]);
    var th := ThreadAt(states[n], steps[n].t);
    w :| OwnScan(steps, steps[n].t, n, trail, w) && w.branch == th.branch && w.scan.now == th.now;
  }
}
