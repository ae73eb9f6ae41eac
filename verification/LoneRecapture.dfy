/** What a recapture does that no other thread gets in the way of. */
module LoneRecapture {
  import opened Options
  import opened Findings
  import opened Aging
  import opened Baselines
  import opened BranchRuns
  import opened Protocol
  import opened Serializability
  import opened RecaptureRuns

  /** From step `m` on, where the thread starts a recapture, only it takes steps, and it starts nothing else and does
      not give up. */
  ghost predicate Alone(states: seq<State>, steps: seq<Step>, t: Tid, m: nat, n: nat) {
    && m < n < |states| && n <= |steps| && StepAt(steps, m, StartRecapture(t)) && NoStart(steps, t, m, n)
    && forall j | m <= j < n :: steps[j].t == t && !steps[j].RecaptureGivesUp?
  }

  ghost predicate Untouched(s0: State, s: State) {
    s.disk == s0.disk && s.lock == None && s.writes == s0.writes && s.hubs == s0.hubs
  }

  /** The store at the start: it carries the branch with the baseline's stamp and findings, with another stamp, not at
      all, or without findings. */
  datatype Found = Fresh(data: BranchData) | Stale | Absent | Empty

  function FoundBy(disk: Disk, base: HubBaseline): Found {
    var index := LoadIndex(disk);
    if base.branch !in index then Absent
    else if index[base.branch].updated != base.ts then Stale
    else
      var data := LoadEntry(disk.files, base.branch, index[base.branch]);
      if data.prints == map[] then Empty else Fresh(data)
  }

  ghost predicate StageOk(disk: Disk, branch: Branch, goal: Goal, stage: Stage) {
    && (stage.ReadIndex? ==> stage.legacy == disk.index.None?)
    && (stage.ReadFile? ==> goal in {LoadPrints, LoadHistory} && branch in LoadIndex(disk) && LoadIndex(disk)[branch].inline.None?)
  }

  /** How far the recapture has come. */
  ghost predicate Goes(s0: State, s: State, base: HubBaseline, found: Found, th: Thread) {
    match th
    case Reading(r, goal, stage) =>
      && Untouched(s0, s) && r.branch == base.branch && r.ts == base.ts && StageOk(s0.disk, base.branch, goal, stage)
      && (goal != CheckInRun ==> !found.Stale?)
      && (goal == LoadHistory ==> found.Fresh? && r.previous == found.data.prints)
    case Lost => Untouched(s0, s) && found.Stale?
    case Loaded(r) => Untouched(s0, s) && found.Fresh? && r.branch == base.branch && r.ts == base.ts
    case RecaptureWaits(r, w, _) => Untouched(s0, s) && found.Fresh? && r.branch == w.branch == base.branch && r.ts == base.ts
    case Committing(job, phase) =>
      && found.Fresh? && !job.byScan && job.write.branch == base.branch && s.hubs == s0.hubs
      && s.writes == s0.writes + if phase.DroppingLegacy? then [job.write] else []
    case Recaptured(now) => found.Fresh? && s.hubs == s0.hubs && s.lock == None && CommitsOne(s0, s, base.branch, now)
    case _ => false
  }

  ghost predicate CommitsOne(s0: State, s: State, branch: Branch, now: nat) {
    |s.writes| == |s0.writes| + 1 && s.writes[..|s0.writes|] == s0.writes
    && s.writes[|s0.writes|].branch == branch && s.writes[|s0.writes|].scan.now == now
  }

  /** What is left when the thread is idle again. */
  ghost predicate Ends(s0: State, s: State, p: nat, base: HubBaseline, found: Found) {
    match found
    case Absent => Untouched(s0, s)
    case Empty => Untouched(s0, s)
    case Stale => s.disk == s0.disk && s.lock == None && s.writes == s0.writes && exists now :: s.hubs == s0.hubs[p := HubBaseline(base.branch, now)]
    case Fresh(_) => s.lock == None && exists now :: CommitsOne(s0, s, base.branch, now) && s.hubs == s0.hubs[p := HubBaseline(base.branch, now)]
  }

  /** Reads still to make: every read brings a recapture on, so it comes to its end whatever it finds. */
  function ReadsLeft(th: Thread): nat {
    if !th.Reading? then 0
    else
      var goals := match th.goal
        case CheckInRun => 5 case CheckBeforeScan => 4 case CheckAfterScan => 3 case LoadPrints => 2 case LoadHistory => 1;
      3 * goals - match th.stage case Probe => 0 case ReadIndex(_) => 1 case ReadFile => 2
  }

  lemma ReadsEnd(disk: Disk, th: Thread, current: Prints)
    requires th.Reading?
    ensures ReadsLeft(AfterRead(disk, th, current)) < ReadsLeft(th) <= 15
  {
  }

  lemma GoesStart(s0: State, s: State, t: Tid)
    requires Next(s0, s, StartRecapture(t)) && s0.lock == None
    ensures t.process in s0.hubs
    ensures var base := s0.hubs[t.process]; Goes(s0, s, base, FoundBy(s0.disk, base), ThreadAt(s, t))
  {
  }

  lemma ReadGoes(s0: State, s: State, base: HubBaseline, th: Thread, current: Prints)
    requires th.Reading? && Goes(s0, s, base, FoundBy(s0.disk, base), th)
    ensures var th' := AfterRead(s.disk, th, current); var found := FoundBy(s0.disk, base);
            if th'.Idle? then found.Absent? || found.Empty? else Goes(s0, s, base, found, th')
  {
  }

  lemma OwnStepGoes(s0: State, s: State, s': State, t: Tid, step: Step, base: HubBaseline)
    requires t.process in s0.hubs && base == s0.hubs[t.process]
    requires Next(s, s', step) && step.t == t && !step.RecaptureGivesUp? && !step.StartScan? && !step.StartRecapture? && !step.ReadOn?
    requires Goes(s0, s, base, FoundBy(s0.disk, base), ThreadAt(s, t))
    ensures var found := FoundBy(s0.disk, base);
            if ThreadAt(s', t).Idle? then Ends(s0, s', t.process, base, found) else Goes(s0, s', base, found, ThreadAt(s', t))
  {
    var found := FoundBy(s0.disk, base);
    match step
    case MarkLost(_, now) => assert s'.hubs == s0.hubs[t.process := HubBaseline(base.branch, now)];
    case MarkRescanned(_) =>
      var now := ThreadAt(s, t).now;
      assert CommitsOne(s0, s', base.branch, now) && s'.hubs == s0.hubs[t.process := HubBaseline(base.branch, now)];
    case _ =>
  }

  lemma StepGoes(s0: State, s: State, s': State, t: Tid, step: Step, base: HubBaseline)
    requires t.process in s0.hubs && base == s0.hubs[t.process]
    requires Next(s, s', step) && step.t == t && !step.RecaptureGivesUp? && !step.StartScan? && !step.StartRecapture?
    requires Goes(s0, s, base, FoundBy(s0.disk, base), ThreadAt(s, t))
    ensures var found := FoundBy(s0.disk, base);
            if ThreadAt(s', t).Idle? then Ends(s0, s', t.process, base, found) else Goes(s0, s', base, found, ThreadAt(s', t))
  {
    if step.ReadOn? {
      ReadGoes(s0, s, base, ThreadAt(s, t), step.current);
    } else {
      OwnStepGoes(s0, s, s', t, step, base);
    }
  }

  ghost predicate At(s0: State, s: State, t: Tid) {
    && t.process in s0.hubs
    && var base := s0.hubs[t.process];
       if ThreadAt(s, t).Idle? then Ends(s0, s, t.process, base, FoundBy(s0.disk, base))
       else Goes(s0, s, base, FoundBy(s0.disk, base), ThreadAt(s, t))
  }

  lemma NotIdle(states: seq<State>, steps: seq<Step>, t: Tid, m: nat, n: nat)
    requires IsRun(states, steps) && Alone(states, steps, t, m, n + 1) && m < n
    ensures !ThreadAt(states[n], t).Idle?
  {
    assert Next(states[n], states[n + 1], steps[n]);
  }

  lemma {:induction false} RunGoes(states: seq<State>, steps: seq<Step>, t: Tid, m: nat, n: nat)
    requires IsRun(states, steps) && Alone(states, steps, t, m, n) && states[m].lock == None
    ensures At(states[m], states[n], t)
  {
    if n == m + 1 {
      GoesStart(states[m], states[n], t);
    } else {
      assert Alone(states, steps, t, m, n - 1);
      RunGoes(states, steps, t, m, n - 1);
      NotIdle(states, steps, t, m, n - 1);
      OneStep(states, steps, t, m, n - 1);
    }
  }

  lemma OneStep(states: seq<State>, steps: seq<Step>, t: Tid, m: nat, n: nat)
    requires IsRun(states, steps) && m < n < |steps| && steps[n].t == t
    requires !steps[n].RecaptureGivesUp? && !steps[n].StartScan? && !steps[n].StartRecapture?
    requires At(states[m], states[n], t) && !ThreadAt(states[n], t).Idle?
    ensures At(states[m], states[n + 1], t)
  {
    StepGoes(states[m], states[n], states[n + 1], t, steps[n], states[m].hubs[t.process]);
  }

  /** The recapture that committed is the one that runs alone. */
  lemma OwnStart(states: seq<State>, steps: seq<Step>, t: Tid, m: nat, n: nat, o: Origin, w: Write)
    requires Alone(states, steps, t, m, n) && m <= o.at < n && CommittedBy(states, steps, o, w)
    ensures OwnRecapture(states, steps, t, o.at, o.trail, o.ts, w) && o.trail.start == m && o.t == t
  {
    assert steps[o.at].t == t && steps[o.at] == WriteIndexFile(o.t);
    assert steps[m] == StartRecapture(t);
    assert o.at != m;
  }

  /** A recapture nobody gets in the way of. When its branch still carries its baseline's stamp, and findings, it
      commits exactly the aging of the report it was handed at its rescan, and leaves its process the new stamp as the
      baseline. When the branch carries another stamp it only takes a new reading for its baseline; when the branch is
      gone or has no findings it changes nothing. */
  lemma RecaptureAlone(states: seq<State>, steps: seq<Step>, t: Tid, m: nat, n: nat) returns (o: Origin)
    requires IsRun(states, steps) && Alone(states, steps, t, m, n)
    requires states[m].lock == None && ThreadAt(states[n], t).Idle?
    ensures t.process in states[m].hubs
    ensures var s, s', base, view := states[m], states[n], states[m].hubs[t.process], ViewOf(states[m].disk);
            && (base.branch !in view || (view[base.branch].updated == base.ts && view[base.branch].data.prints == map[]) ==> Untouched(s, s'))
            && (base.branch in view && view[base.branch].updated != base.ts ==>
                  s'.disk == s.disk && s'.writes == s.writes && exists now :: s'.hubs == s.hubs[t.process := HubBaseline(base.branch, now)])
    ensures var s, s', base, view := states[m], states[n], states[m].hubs[t.process], ViewOf(states[m].disk);
            base.branch in view && view[base.branch].updated == base.ts && view[base.branch].data.prints != map[] ==>
              && |s'.writes| == |s.writes| + 1 && s'.writes[..|s.writes|] == s.writes
              && var w := s'.writes[|s.writes|];
                 && w.branch == base.branch && o.trail.start == m && OwnRecapture(states, steps, t, o.at, o.trail, o.ts, w)
                 && ViewOf(s'.disk) == Replace(view, w.branch, AfterScan(view[w.branch].data, w.scan), w.scan.now)
                 && s'.hubs == s.hubs[t.process := HubBaseline(w.branch, w.scan.now)]
  {
    var s, s' := states[m], states[n];
    RunGoes(states, steps, t, m, n);
    var base := s.hubs[t.process];
    FoundInView(s.disk, base);
    if FoundBy(s.disk, base).Fresh? {
      var k := |s.writes|;
      o := CommitsAreOwn(states, steps, n, k);
      LogOnlyGrows(states, steps, o.at, m, k);
      OwnStart(states, steps, t, m, n, o, s'.writes[k]);
      CommitApplied(states, steps, m, n, s'.writes[k]);
    } else {
      o := Origin(0, t, Trail(0, 0, 0, 0), 0);
    }
  }

  lemma FoundInView(disk: Disk, base: HubBaseline)
    ensures var view, found := ViewOf(disk), FoundBy(disk, base);
            && (found.Absent? <==> base.branch !in view)
            && (found.Stale? <==> base.branch in view && view[base.branch].updated != base.ts)
            && (found.Empty? <==> base.branch in view && view[base.branch].updated == base.ts && view[base.branch].data.prints == map[])
  {
  }

  /** The log is no shorter later. */
  lemma {:induction false} LogLength(states: seq<State>, steps: seq<Step>, i: nat, j: nat)
    requires IsRun(states, steps) && i <= j < |states|
    ensures |states[i].writes| <= |states[j].writes|
  {
    if i < j {
      LogLength(states, steps, i, j - 1);
      LogStep(states, steps, j - 1);
    }
  }

  lemma LogOnlyGrows(states: seq<State>, steps: seq<Step>, at: nat, m: nat, k: nat)
    requires IsRun(states, steps) && m < |states| && at < |steps| && |states[at].writes| == k == |states[m].writes| && steps[at].WriteIndexFile?
    ensures m <= at
  {
    if at < m {
      LogStep(states, steps, at);
      LogLength(states, steps, at + 1, m);
    }
  }

  lemma CommitApplied(states: seq<State>, steps: seq<Step>, m: nat, n: nat, w: Write)
    requires IsRun(states, steps) && m <= n < |states| && states[m].lock == None && states[n].lock == None
    requires |states[n].writes| == |states[m].writes| + 1 && states[n].writes[..|states[m].writes|] == states[m].writes
    requires w == states[n].writes[|states[m].writes|]
    ensures var view := ViewOf(states[m].disk);
            ViewOf(states[n].disk) == Replace(view, w.branch, AfterScan(DataIn(view, w.branch), w.scan), w.scan.now)
  {
    ReadsAsLog(states, steps, m);
    ReadsAsLog(states, steps, n);
    SameStart(states, steps, m, n);
    assert states[n].writes == states[m].writes + [w];
    SerialMovesOn(states[m].start, states[m].writes, w);
  }

  lemma ReadsAsLog(states: seq<State>, steps: seq<Step>, n: nat)
    requires IsRun(states, steps) && n < |states| && states[n].lock == None
    ensures ViewOf(states[n].disk) == Replay(states[n].start, states[n].writes)
  {
    Serializable(states, steps, n);
  }

  lemma {:induction false} SameStart(states: seq<State>, steps: seq<Step>, m: nat, n: nat)
    requires IsRun(states, steps) && m <= n < |states|
    ensures states[m].start == states[n].start
  {
    if m < n {
      SameStart(states, steps, m, n - 1);
      StartStays(states[n - 1], states[n], steps[n - 1]);
    }
  }

  lemma StartStays(s: State, s': State, step: Step)
    requires Next(s, s', step)
    ensures s'.start == s.start
  {
  }
}
