/** The language server's main loop as a state machine: change notifications, configuration changes and
    completed scans. Beside the program's own state it records which scans are in flight and when they
    were launched, what every result did, and what the client shows. */
module Scheduler {
  import opened Options
  import opened Schedule

  type Settings = string
  /** The diagnostics of one file; none is the empty array. */
  datatype Diagnostics = Diagnostics(items: seq<string>)

  const NO_DIAGNOSTICS := Diagnostics([])

  /** A launched scan: the `n`-th, of one generation of a root, under the settings and at the time of its launch. */
  datatype Job = Job(n: nat, root: Root, generation: nat, settings: Settings, since: nat)

  datatype Outcome = Failed | Scanned(diagnostics: map<Uri, Diagnostics>)

  datatype Machine = Machine(
    workspaces: Workspaces,
    settings: Settings,
    inFlight: set<Job>,
    client: map<Uri, Diagnostics>,
    time: nat,                              // change notifications so far
    changedAt: map<Root, nat>,              // the last change notification of each root
    applied: map<Root, nat>,                // the generation of each root's last completed scan
    accepted: map<Root, map<Uri, Diagnostics>>, // each root's last accepted successful result
    started: nat,
    finished: nat)

  function Start(settings: Settings): Machine {
    Machine(map[], settings, {}, map[], 0, map[], map[], map[], 0, 0)
  }

  function Spawn(m: Machine, root: Root, generation: nat): Machine {
    m.(inFlight := m.inFlight + {Job(m.started, root, generation, m.settings, m.time)}, started := m.started + 1)
  }

  /** A change notification for one root. */
  function Mark(m: Machine, root: Root): Machine {
    var (ws, now) := MarkDirty(m.workspaces, root);
    var marked := m.(workspaces := ws, time := m.time + 1, changedAt := m.changedAt[root := m.time + 1]);
    match now
    case None => marked
    case Some(generation) => Spawn(marked, root, generation)
  }

  function MarkAll(m: Machine, roots: seq<Root>): Machine {
    if roots == [] then m else Mark(MarkAll(m, roots[..|roots| - 1]), roots[|roots| - 1])
  }

  function LaunchOne(m: Machine, root: Root): Machine
    requires root in m.workspaces
  {
    Spawn(m.(workspaces := Launch(m.workspaces, root)), root, m.workspaces[root].generation)
  }

  /** Launching the given roots, one by one while there is capacity, leaves nothing launchable. */
  ghost predicate Launches(m: Machine, roots: seq<Root>, m': Machine)
    decreases |roots|
  {
    if roots == [] then m' == m && Settled(m.workspaces)
    else HasCapacity(m.workspaces) && Launchable(m.workspaces, roots[0]) && Launches(LaunchOne(m, roots[0]), roots[1..], m')
  }

  function Cleared(published: set<Uri>, next: set<Uri>): map<Uri, Diagnostics> {
    map u | u in published - next :: NO_DIAGNOSTICS
  }

  /** A completed scan: stale results are dropped, failed ones publish nothing. */
  function Finish(m: Machine, job: Job, out: Outcome): Machine
    requires job.root in m.workspaces
  {
    var w := m.workspaces[job.root].(running := false);
    var idle := m.(workspaces := m.workspaces[job.root := w], inFlight := m.inFlight - {job},
                   applied := m.applied[job.root := job.generation], finished := m.finished + 1);
    if job.generation != w.generation || out.Failed? then idle
    else
      var next := out.diagnostics;
      idle.(workspaces := m.workspaces[job.root := w.(published := next.Keys)],
            client := m.client + Cleared(w.published, next.Keys) + next,
            accepted := m.accepted[job.root := next])
  }

  datatype Turn =
    | Changed(roots: seq<Root>)
    | Configured(settings: Settings, order: seq<Root>)
    | Completed(job: Job, out: Outcome, launches: seq<Root>)

  /** One turn of the main loop. A configuration change rescans every workspace, in whatever order. */
  ghost predicate Next(m: Machine, m': Machine, turn: Turn) {
    match turn
    case Changed(roots) => m' == MarkAll(m, roots)
    case Configured(settings, order) =>
      (forall r :: r in order <==> r in m.workspaces) && m' == MarkAll(m.(settings := settings), order)
    case Completed(job, out, launches) =>
      job in m.inFlight && job.root in m.workspaces && Launches(Finish(m, job, out), launches, m')
  }

  ghost predicate IsRun(ms: seq<Machine>, turns: seq<Turn>) {
    && |ms| == |turns| + 1
    && forall i | 0 <= i < |turns| :: Next(ms[i], ms[i + 1], turns[i])
  }

  // ---------------------------------------------------------------- the invariant

  /** A root runs iff exactly one of its scans is in flight, and it is pending iff that scan is out of date. */
  ghost predicate JobsOk(ws: Workspaces, jobs: set<Job>, started: nat) {
    && (forall j | j in jobs :: j.root in ws && ws[j.root].running && j.n < started)
    && (forall j, k | j in jobs && k in jobs && j.root == k.root :: j == k)
    && (forall r | r in ws && ws[r].running :: exists j :: j in jobs && j.root == r)
    && (forall j | j in jobs && j.root in ws ::
          j.generation <= ws[j.root].generation && (ws[j.root].pending <==> j.generation < ws[j.root].generation))
  }

  /** A scan is of its root's current generation iff no change notification came after its launch, and
      then it runs under the current settings. Roots in `todo` still wait for their configuration rescan. */
  ghost predicate FreshOk(ws: Workspaces, jobs: set<Job>, changedAt: map<Root, nat>, time: nat, settings: Settings, todo: set<Root>) {
    && changedAt.Keys == ws.Keys
    && (forall r | r in changedAt :: changedAt[r] <= time)
    && (forall j | j in jobs && j.root in ws ::
          && j.since <= time
          && (j.generation == ws[j.root].generation <==> changedAt[j.root] <= j.since)
          && (j.generation == ws[j.root].generation && j.root !in todo ==> j.settings == settings))
  }

  /** An idle root that does not wait has had its current generation applied. */
  ghost predicate AppliedOk(ws: Workspaces, applied: map<Root, nat>, time: nat) {
    && (forall r | r in ws && !ws[r].running && !ws[r].pending :: r in applied && applied[r] == ws[r].generation)
    && (forall r | r in ws :: ws[r].generation <= time)
  }

  function Shown(client: map<Uri, Diagnostics>, u: Uri): Diagnostics {
    if u in client then client[u] else NO_DIAGNOSTICS
  }

  /** A root remembers having published exactly the files of its last accepted successful result. */
  ghost predicate PublishedOk(ws: Workspaces, accepted: map<Root, map<Uri, Diagnostics>>) {
    && (forall r | r in accepted :: r in ws)
    && (forall r | r in ws :: ws[r].published == if r in accepted then accepted[r].Keys else {})
  }

  function Measure(m: Machine): nat {
    |Pending(m.workspaces)| + |Running(m.workspaces)|
  }

  ghost predicate CountsOk(m: Machine) {
    && |Running(m.workspaces)| <= MAX_CONCURRENT_SCANS
    && m.started == m.finished + |Running(m.workspaces)|
    && m.finished + Measure(m) <= m.time
  }

  ghost predicate Core(m: Machine, todo: set<Root>) {
    && JobsOk(m.workspaces, m.inFlight, m.started)
    && FreshOk(m.workspaces, m.inFlight, m.changedAt, m.time, m.settings, todo)
    && AppliedOk(m.workspaces, m.applied, m.time)
    && PublishedOk(m.workspaces, m.accepted)
    && CountsOk(m)
  }

  ghost predicate Inv(m: Machine) {
    Core(m, {}) && Settled(m.workspaces)
  }

  // ---------------------------------------------------------------- steps

  lemma RunningWith(ws: Workspaces, root: Root, w: Workspace)
    ensures Running(ws[root := w]) == if w.running then Running(ws) + {root} else Running(ws) - {root}
    ensures Pending(ws[root := w]) == if w.pending then Pending(ws) + {root} else Pending(ws) - {root}
  {
  }

  // The two things that can happen to a root: it starts a scan of its current generation, or it waits.

  predicate Started(w: Workspace, w': Workspace) {
    w'.running && !w'.pending && !w.running && w.generation <= w'.generation && w'.published == w.published
  }

  predicate Waits(w: Workspace, w': Workspace) {
    w'.pending && w'.running == w.running && w'.generation == w.generation + 1 && w'.published == w.published
  }

  function At(ws: Workspaces, root: Root): Workspace {
    if root in ws then ws[root] else NEW_WORKSPACE
  }

  lemma MarkShape(ws: Workspaces, root: Root)
    requires Settled(ws) && At(ws, root).generation < MAX_GENERATION
    ensures var (ws', now) := MarkDirty(ws, root);
            && root in ws' && ws' == ws[root := ws'[root]]
            && ws'[root].generation == At(ws, root).generation + 1
            && (now.Some? ==> Started(At(ws, root), ws'[root]) && HasCapacity(ws) && !At(ws, root).pending && now.value == ws'[root].generation)
            && (now.None? ==> Waits(At(ws, root), ws'[root]) && (At(ws, root).running || !HasCapacity(ws)))
  {
    assert Launchable(ws, root) ==> !HasCapacity(ws);
  }

  lemma StartJobs(ws: Workspaces, jobs: set<Job>, started: nat, root: Root, w': Workspace, job: Job)
    requires JobsOk(ws, jobs, started) && Started(At(ws, root), w')
    requires job.n == started && job.root == root && job.generation == w'.generation
    ensures JobsOk(ws[root := w'], jobs + {job}, started + 1)
  {
    var ws' := ws[root := w'];
    forall r | r in ws' && ws'[r].running ensures exists j :: j in jobs + {job} && j.root == r {
      if r == root {
        assert job in jobs + {job};
      } else {
        var j :| j in jobs && j.root == r;
        assert j in jobs + {job};
      }
    }
  }

  lemma WaitJobs(ws: Workspaces, jobs: set<Job>, started: nat, root: Root, w': Workspace)
    requires JobsOk(ws, jobs, started) && Waits(At(ws, root), w')
    ensures JobsOk(ws[root := w'], jobs, started)
  {
  }

  lemma StartFresh(ws: Workspaces, jobs: set<Job>, changedAt: map<Root, nat>, time: nat, settings: Settings, todo: set<Root>,
                   root: Root, w': Workspace, job: Job)
    requires FreshOk(ws, jobs, changedAt, time, settings, todo) && Started(At(ws, root), w')
    requires forall j | j in jobs :: j.root in ws && ws[j.root].running
    requires job.root == root && job.generation == w'.generation && job.settings == settings
    ensures root in ws && job.since == time ==>
              FreshOk(ws[root := w'], jobs + {job}, changedAt, time, settings, todo)
    ensures job.since == time + 1 ==>
              FreshOk(ws[root := w'], jobs + {job}, changedAt[root := time + 1], time + 1, settings, todo - {root})
  {
  }

  lemma WaitFresh(ws: Workspaces, jobs: set<Job>, changedAt: map<Root, nat>, time: nat, settings: Settings, todo: set<Root>,
                  root: Root, w': Workspace, started: nat)
    requires FreshOk(ws, jobs, changedAt, time, settings, todo) && JobsOk(ws, jobs, started) && Waits(At(ws, root), w')
    ensures FreshOk(ws[root := w'], jobs, changedAt[root := time + 1], time + 1, settings, todo - {root})
  {
  }

  lemma MarkApplied(ws: Workspaces, applied: map<Root, nat>, time: nat, root: Root, w': Workspace)
    requires AppliedOk(ws, applied, time)
    requires Started(At(ws, root), w') || Waits(At(ws, root), w')
    ensures w'.generation <= At(ws, root).generation + 1 ==> AppliedOk(ws[root := w'], applied, time + 1)
    ensures w'.generation == At(ws, root).generation && root in ws ==> AppliedOk(ws[root := w'], applied, time)
  {
  }

  lemma MarkPublished(ws: Workspaces, accepted: map<Root, map<Uri, Diagnostics>>, root: Root, w': Workspace)
    requires PublishedOk(ws, accepted) && w'.published == At(ws, root).published
    ensures PublishedOk(ws[root := w'], accepted)
  {
  }

  lemma GrowingSize<T>(a: set<T>, x: T)
    ensures |a| <= |a + {x}| <= |a| + 1
    ensures x !in a ==> |a + {x}| == |a| + 1
  {
    if x in a {
      assert a + {x} == a;
    }
  }

  lemma MarkCounts(m: Machine, root: Root)
    requires CountsOk(m) && Settled(m.workspaces) && At(m.workspaces, root).generation < MAX_GENERATION
    ensures CountsOk(Mark(m, root)) && Measure(Mark(m, root)) <= Measure(m) + 1
  {
    MarkSizes(m.workspaces, root);
  }

  lemma MarkSizes(ws: Workspaces, root: Root)
    requires Settled(ws) && At(ws, root).generation < MAX_GENERATION
    ensures var (ws', now) := MarkDirty(ws, root);
            && (now.Some? ==> HasCapacity(ws) && |Running(ws')| == |Running(ws)| + 1 && |Pending(ws')| == |Pending(ws)|)
            && (now.None? ==> |Running(ws')| == |Running(ws)| && |Pending(ws')| <= |Pending(ws)| + 1)
  {
    var (ws', now) := MarkDirty(ws, root);
    MarkShape(ws, root);
    RunningWith(ws, root, ws'[root]);
    GrowingSize(Running(ws), root);
    GrowingSize(Pending(ws), root);
    if now.Some? {
      assert Pending(ws') == Pending(ws);
    } else {
      assert Running(ws') == Running(ws);
    }
  }

  lemma MarkSettles(m: Machine, root: Root)
    requires Settled(m.workspaces) && At(m.workspaces, root).generation < MAX_GENERATION
    ensures Settled(Mark(m, root).workspaces)
  {
    var ws := m.workspaces;
    var ws' := MarkDirty(ws, root).0;
    MarkShape(ws, root);
    RunningWith(ws, root, ws'[root]);
    GrowingSize(Running(ws), root);
    forall r | HasCapacity(ws') ensures !Launchable(ws', r) {
      assert !Launchable(ws, r);
    }
  }

  lemma MarkKeepsJobs(m: Machine, root: Root)
    requires JobsOk(m.workspaces, m.inFlight, m.started) && Settled(m.workspaces)
    requires At(m.workspaces, root).generation < MAX_GENERATION
    ensures var m' := Mark(m, root); JobsOk(m'.workspaces, m'.inFlight, m'.started)
  {
    MarkShape(m.workspaces, root);
    if MarkDirty(m.workspaces, root).1.Some? {
      MarkStartsJob(m, root);
    } else {
      WaitJobs(m.workspaces, m.inFlight, m.started, root, MarkDirty(m.workspaces, root).0[root]);
    }
  }

  lemma MarkStartsJob(m: Machine, root: Root)
    requires JobsOk(m.workspaces, m.inFlight, m.started)
    requires var (ws', now) := MarkDirty(m.workspaces, root);
             && now.Some? && root in ws' && ws' == m.workspaces[root := ws'[root]]
             && Started(At(m.workspaces, root), ws'[root]) && now.value == ws'[root].generation
    ensures var m' := Mark(m, root); JobsOk(m'.workspaces, m'.inFlight, m'.started)
  {
    var w' := MarkDirty(m.workspaces, root).0[root];
    StartJobs(m.workspaces, m.inFlight, m.started, root, w',
              Job(m.started, root, w'.generation, m.settings, m.time + 1));
  }

  lemma MarkKeepsFresh(m: Machine, root: Root, todo: set<Root>)
    requires JobsOk(m.workspaces, m.inFlight, m.started) && Settled(m.workspaces)
    requires FreshOk(m.workspaces, m.inFlight, m.changedAt, m.time, m.settings, todo)
    requires At(m.workspaces, root).generation < MAX_GENERATION
    ensures var m' := Mark(m, root); FreshOk(m'.workspaces, m'.inFlight, m'.changedAt, m'.time, m'.settings, todo - {root})
  {
    MarkShape(m.workspaces, root);
    if MarkDirty(m.workspaces, root).1.Some? {
      MarkStartsFresh(m, root, todo);
    } else {
      WaitFresh(m.workspaces, m.inFlight, m.changedAt, m.time, m.settings, todo, root,
                MarkDirty(m.workspaces, root).0[root], m.started);
    }
  }

  lemma MarkStartsFresh(m: Machine, root: Root, todo: set<Root>)
    requires forall j | j in m.inFlight :: j.root in m.workspaces && m.workspaces[j.root].running
    requires FreshOk(m.workspaces, m.inFlight, m.changedAt, m.time, m.settings, todo)
    requires var (ws', now) := MarkDirty(m.workspaces, root);
             && now.Some? && root in ws' && ws' == m.workspaces[root := ws'[root]]
             && Started(At(m.workspaces, root), ws'[root]) && now.value == ws'[root].generation
    ensures var m' := Mark(m, root); FreshOk(m'.workspaces, m'.inFlight, m'.changedAt, m'.time, m'.settings, todo - {root})
  {
    var w' := MarkDirty(m.workspaces, root).0[root];
    StartFresh(m.workspaces, m.inFlight, m.changedAt, m.time, m.settings, todo, root, w',
               Job(m.started, root, w'.generation, m.settings, m.time + 1));
  }

  lemma MarkKeepsResults(m: Machine, root: Root)
    requires AppliedOk(m.workspaces, m.applied, m.time) && PublishedOk(m.workspaces, m.accepted)
    requires Settled(m.workspaces) && At(m.workspaces, root).generation < MAX_GENERATION
    ensures var m' := Mark(m, root);
            AppliedOk(m'.workspaces, m'.applied, m'.time) && PublishedOk(m'.workspaces, m'.accepted)
  {
    var ws' := MarkDirty(m.workspaces, root).0;
    MarkShape(m.workspaces, root);
    MarkApplied(m.workspaces, m.applied, m.time, root, ws'[root]);
    MarkPublished(m.workspaces, m.accepted, root, ws'[root]);
  }

  lemma GenerationBound(m: Machine, root: Root)
    requires AppliedOk(m.workspaces, m.applied, m.time) && m.time < MAX_GENERATION
    ensures At(m.workspaces, root).generation < MAX_GENERATION
  {
  }

  /** A change notification keeps the invariant, and adds at most one scan to do. */
  lemma MarkKeeps(m: Machine, root: Root, todo: set<Root>)
    requires Core(m, todo) && Settled(m.workspaces) && m.time < MAX_GENERATION
    ensures Core(Mark(m, root), todo - {root}) && Settled(Mark(m, root).workspaces)
    ensures Measure(Mark(m, root)) <= Measure(m) + 1
  {
    GenerationBound(m, root);
    MarkCounts(m, root);
    MarkSettles(m, root);
    MarkKeepsJobs(m, root);
    MarkKeepsFresh(m, root, todo);
    MarkKeepsResults(m, root);
  }

  function SetOf(roots: seq<Root>): set<Root> {
    set r | r in roots
  }

  lemma SetOfSnoc(roots: seq<Root>)
    requires roots != []
    ensures SetOf(roots) == SetOf(roots[..|roots| - 1]) + {roots[|roots| - 1]}
  {
    assert roots == roots[..|roots| - 1] + [roots[|roots| - 1]];
  }

  lemma MarkNext(m: Machine, roots: seq<Root>, mid: Machine, todo: set<Root>)
    requires roots != [] && mid == MarkAll(m, roots[..|roots| - 1])
    requires Core(mid, todo - SetOf(roots[..|roots| - 1])) && Settled(mid.workspaces) && mid.time < MAX_GENERATION
    ensures Core(MarkAll(m, roots), todo - SetOf(roots)) && Settled(MarkAll(m, roots).workspaces)
    ensures Measure(MarkAll(m, roots)) <= Measure(mid) + 1
  {
    var before, root := roots[..|roots| - 1], roots[|roots| - 1];
    SetOfSnoc(roots);
    assert (todo - SetOf(before)) - {root} == todo - SetOf(roots);
    MarkKeeps(mid, root, todo - SetOf(before));
  }

  lemma {:induction false} MarkAllKeeps(m: Machine, roots: seq<Root>, todo: set<Root>)
    requires Core(m, todo) && Settled(m.workspaces) && m.time + |roots| <= MAX_GENERATION
    ensures Core(MarkAll(m, roots), todo - SetOf(roots)) && Settled(MarkAll(m, roots).workspaces)
    ensures Measure(MarkAll(m, roots)) <= Measure(m) + |roots|
  {
    if roots != [] {
      var mid := MarkAll(m, roots[..|roots| - 1]);
      MarkAllTime(m, roots[..|roots| - 1]);
      MarkAllKeeps(m, roots[..|roots| - 1], todo);
      MarkNext(m, roots, mid, todo);
    } else {
      assert todo - SetOf(roots) == todo;
    }
  }

  lemma {:induction false} MarkAllTime(m: Machine, roots: seq<Root>)
    ensures MarkAll(m, roots).time == m.time + |roots| && MarkAll(m, roots).finished == m.finished
  {
    if roots != [] {
      MarkAllTime(m, roots[..|roots| - 1]);
    }
  }

  // ---------------------------------------------------------------- completed scans

  lemma LaunchCounts(m: Machine, root: Root)
    requires CountsOk(m) && HasCapacity(m.workspaces) && Launchable(m.workspaces, root)
    ensures CountsOk(LaunchOne(m, root)) && Measure(LaunchOne(m, root)) == Measure(m)
  {
    RunningWith(m.workspaces, root, m.workspaces[root].(pending := false, running := true));
    assert root in Pending(m.workspaces) && root !in Running(m.workspaces);
  }

  lemma LaunchKeepsJobs(m: Machine, root: Root)
    requires JobsOk(m.workspaces, m.inFlight, m.started) && Launchable(m.workspaces, root)
    requires FreshOk(m.workspaces, m.inFlight, m.changedAt, m.time, m.settings, {})
    ensures var m' := LaunchOne(m, root);
            && JobsOk(m'.workspaces, m'.inFlight, m'.started)
            && FreshOk(m'.workspaces, m'.inFlight, m'.changedAt, m'.time, m'.settings, {})
  {
    var w' := m.workspaces[root].(pending := false, running := true);
    var job := Job(m.started, root, w'.generation, m.settings, m.time);
    StartJobs(m.workspaces, m.inFlight, m.started, root, w', job);
    StartFresh(m.workspaces, m.inFlight, m.changedAt, m.time, m.settings, {}, root, w', job);
  }

  lemma LaunchKeepsResults(m: Machine, root: Root)
    requires AppliedOk(m.workspaces, m.applied, m.time) && PublishedOk(m.workspaces, m.accepted)
    requires Launchable(m.workspaces, root)
    ensures var m' := LaunchOne(m, root);
            AppliedOk(m'.workspaces, m'.applied, m'.time) && PublishedOk(m'.workspaces, m'.accepted)
  {
    var w' := m.workspaces[root].(pending := false, running := true);
    MarkApplied(m.workspaces, m.applied, m.time, root, w');
    MarkPublished(m.workspaces, m.accepted, root, w');
  }

  lemma LaunchKeeps(m: Machine, root: Root)
    requires Core(m, {}) && HasCapacity(m.workspaces) && Launchable(m.workspaces, root)
    ensures Core(LaunchOne(m, root), {}) && Measure(LaunchOne(m, root)) == Measure(m)
  {
    LaunchCounts(m, root);
    LaunchKeepsJobs(m, root);
    LaunchKeepsResults(m, root);
  }

  lemma {:induction false} LaunchesKeep(m: Machine, roots: seq<Root>, m': Machine)
    requires Core(m, {}) && Launches(m, roots, m')
    ensures Inv(m') && Measure(m') == Measure(m)
    ensures m'.finished == m.finished && m'.time == m.time && m'.client == m.client && m'.accepted == m.accepted
    decreases |roots|
  {
    if roots != [] {
      LaunchKeeps(m, roots[0]);
      LaunchesKeep(LaunchOne(m, roots[0]), roots[1..], m');
    }
  }

  lemma FinishJobs(ws: Workspaces, jobs: set<Job>, started: nat, job: Job, w': Workspace)
    requires JobsOk(ws, jobs, started) && job in jobs
    requires !w'.running && w'.generation == ws[job.root].generation && w'.pending == ws[job.root].pending
    ensures JobsOk(ws[job.root := w'], jobs - {job}, started)
  {
    var ws' := ws[job.root := w'];
    forall r | r in ws' && ws'[r].running ensures exists j :: j in jobs - {job} && j.root == r {
      var j :| j in jobs && j.root == r;
      assert j in jobs - {job};
    }
  }

  lemma FinishCounts(m: Machine, job: Job, out: Outcome)
    requires JobsOk(m.workspaces, m.inFlight, m.started) && CountsOk(m) && job in m.inFlight
    ensures CountsOk(Finish(m, job, out)) && Measure(Finish(m, job, out)) == Measure(m) - 1
  {
    RunningWith(m.workspaces, job.root, Finish(m, job, out).workspaces[job.root]);
    assert job.root in Running(m.workspaces);
  }

  lemma FinishPublished(m: Machine, job: Job, out: Outcome)
    requires PublishedOk(m.workspaces, m.accepted) && job.root in m.workspaces
    ensures var m' := Finish(m, job, out); PublishedOk(m'.workspaces, m'.accepted)
  {
  }

  lemma FinishKeepsJobs(m: Machine, job: Job, out: Outcome)
    requires JobsOk(m.workspaces, m.inFlight, m.started) && job in m.inFlight
    requires FreshOk(m.workspaces, m.inFlight, m.changedAt, m.time, m.settings, {})
    ensures var m' := Finish(m, job, out);
            && JobsOk(m'.workspaces, m'.inFlight, m'.started)
            && FreshOk(m'.workspaces, m'.inFlight, m'.changedAt, m'.time, m'.settings, {})
  {
    FinishJobs(m.workspaces, m.inFlight, m.started, job, Finish(m, job, out).workspaces[job.root]);
  }

  lemma FinishKeepsApplied(m: Machine, job: Job, out: Outcome)
    requires JobsOk(m.workspaces, m.inFlight, m.started) && job in m.inFlight && AppliedOk(m.workspaces, m.applied, m.time)
    ensures var m' := Finish(m, job, out); AppliedOk(m'.workspaces, m'.applied, m'.time)
  {
  }

  lemma FinishKeeps(m: Machine, job: Job, out: Outcome)
    requires Core(m, {}) && job in m.inFlight
    ensures Core(Finish(m, job, out), {}) && Measure(Finish(m, job, out)) == Measure(m) - 1
  {
    FinishCounts(m, job, out);
    FinishPublished(m, job, out);
    FinishKeepsJobs(m, job, out);
    FinishKeepsApplied(m, job, out);
  }

  // ---------------------------------------------------------------- main results

  lemma ChangedKeeps(m: Machine, roots: seq<Root>)
    requires Inv(m) && m.time + |roots| <= MAX_GENERATION
    ensures Inv(MarkAll(m, roots)) && Measure(MarkAll(m, roots)) <= Measure(m) + |roots|
  {
    MarkAllKeeps(m, roots, {});
    assert {} - SetOf(roots) == {};
  }

  lemma Reconfigured(m: Machine, settings: Settings)
    requires Inv(m)
    ensures Core(m.(settings := settings), m.workspaces.Keys)
  {
  }

  lemma ConfiguredKeeps(m: Machine, settings: Settings, order: seq<Root>)
    requires Inv(m) && (forall r :: r in order <==> r in m.workspaces) && m.time + |order| <= MAX_GENERATION
    ensures Inv(MarkAll(m.(settings := settings), order))
  {
    Reconfigured(m, settings);
    MarkAllKeeps(m.(settings := settings), order, m.workspaces.Keys);
    assert m.workspaces.Keys - SetOf(order) == {};
  }

  lemma CompletedKeeps(m: Machine, m': Machine, turn: Turn)
    requires Inv(m) && turn.Completed? && Next(m, m', turn)
    ensures Inv(m') && Measure(m') == Measure(m) - 1 && m'.finished == m.finished + 1
  {
    FinishKeeps(m, turn.job, turn.out);
    LaunchesKeep(Finish(m, turn.job, turn.out), turn.launches, m');
  }

  /** The scheduler invariant holds after every turn: at most two scans run, a root runs iff exactly one of
      its scans is in flight, a running root is pending iff that scan is out of date, and no idle root waits
      while there is capacity. */
  lemma TurnKeeps(m: Machine, m': Machine, turn: Turn)
    requires Inv(m) && Next(m, m', turn) && m'.time <= MAX_GENERATION
    ensures Inv(m')
  {
    match turn
    case Changed(roots) =>
      MarkAllTime(m, roots);
      ChangedKeeps(m, roots);
    case Configured(settings, order) =>
      MarkAllTime(m.(settings := settings), order);
      ConfiguredKeeps(m, settings, order);
    case Completed(_, _, _) =>
      CompletedKeeps(m, m', turn);
  }

  ghost predicate StartsEmpty(ms: seq<Machine>) {
    |ms| > 0 && exists settings :: ms[0] == Start(settings)
  }

  /** The invariant holds in every state of every run, and scans started never outnumber change notifications,
      even counting the work still to do. */
  lemma {:induction false} RunKeeps(ms: seq<Machine>, turns: seq<Turn>, n: nat)
    requires IsRun(ms, turns) && StartsEmpty(ms) && n < |ms|
    requires forall i | 0 <= i < |ms| :: ms[i].time <= MAX_GENERATION
    ensures Inv(ms[n])
    ensures ms[n].started <= ms[n].time && ms[n].finished + Measure(ms[n]) <= ms[n].time
  {
    if n > 0 {
      RunKeeps(ms, turns, n - 1);
      TurnKeeps(ms[n - 1], ms[n], turns[n - 1]);
    }
  }

  /** What a successful result of a root makes the client show: its files as found, the files of the root's last
      accepted result that it no longer names as empty, and every other file as before. */
  function ShownAfter(m: Machine, root: Root, found: map<Uri, Diagnostics>, u: Uri): Diagnostics {
    if u in found then found[u]
    else if root in m.accepted && u in m.accepted[root] then NO_DIAGNOSTICS
    else Shown(m.client, u)
  }

  /** What is published was scanned after the last change notification for its root and under the settings
      now in force; a scan overtaken by a change publishes nothing and leaves what the client shows alone. */
  lemma PublishedIsCurrent(m: Machine, m': Machine, turn: Turn)
    requires Inv(m) && turn.Completed? && turn.out.Scanned? && Next(m, m', turn)
    ensures var job := turn.job;
            if m.changedAt[job.root] <= job.since
            then && job.settings == m.settings
                 && m'.accepted == m.accepted[job.root := turn.out.diagnostics]
                 && forall u :: Shown(m'.client, u) == ShownAfter(m, job.root, turn.out.diagnostics, u)
            else m'.client == m.client && m'.accepted == m.accepted
  {
    var job := turn.job;
    LaunchesShowNothing(Finish(m, job, turn.out), turn.launches, m');
    FreshIff(m.workspaces, m.inFlight, m.changedAt, m.time, m.settings, job);
    FinishResults(m, job, turn.out.diagnostics);
  }

  lemma FreshIff(ws: Workspaces, jobs: set<Job>, changedAt: map<Root, nat>, time: nat, settings: Settings, job: Job)
    requires FreshOk(ws, jobs, changedAt, time, settings, {}) && job in jobs && job.root in ws
    ensures job.root in changedAt && (job.generation == ws[job.root].generation <==> changedAt[job.root] <= job.since)
    ensures changedAt[job.root] <= job.since ==> job.settings == settings
  {
  }

  lemma FinishResults(m: Machine, job: Job, found: map<Uri, Diagnostics>)
    requires job.root in m.workspaces && PublishedOk(m.workspaces, m.accepted)
    ensures var m' := Finish(m, job, Scanned(found));
            if job.generation == m.workspaces[job.root].generation
            then m'.accepted == m.accepted[job.root := found] && forall u :: Shown(m'.client, u) == ShownAfter(m, job.root, found, u)
            else SameResults(m, m')
  {
    if job.generation == m.workspaces[job.root].generation {
      forall u ensures Shown(Finish(m, job, Scanned(found)).client, u) == ShownAfter(m, job.root, found, u) {
        FinishShows(m, job, Scanned(found), u);
      }
    }
  }

  lemma NothingWaits(ws: Workspaces)
    requires Settled(ws) && Running(ws) == {}
    ensures Pending(ws) == {}
  {
    forall r ensures r !in Pending(ws) {
      assert !Launchable(ws, r);
      assert r !in Running(ws);
    }
  }

  /** Work is left exactly while a scan is in flight; without work every root's last applied generation is
      its current one. */
  lemma WorkOrFresh(m: Machine)
    requires Inv(m)
    ensures Measure(m) > 0 <==> m.inFlight != {}
    ensures Measure(m) == 0 ==>
              forall r | r in m.workspaces :: r in m.applied && m.applied[r] == m.workspaces[r].generation
  {
    if m.inFlight == {} {
      assert Running(m.workspaces) == {};
      NothingWaits(m.workspaces);
    } else {
      var j :| j in m.inFlight;
      assert j.root in Running(m.workspaces);
    }
    if Measure(m) == 0 {
      forall r | r in m.workspaces ensures !m.workspaces[r].running && !m.workspaces[r].pending {
        assert r !in Running(m.workspaces) && r !in Pending(m.workspaces);
      }
    }
  }

  /** Any scan in flight can complete, with any outcome. */
  lemma CanComplete(m: Machine, job: Job, out: Outcome) returns (m': Machine, turn: Turn)
    requires Inv(m) && job in m.inFlight
    ensures turn.Completed? && turn.job == job && turn.out == out && Next(m, m', turn)
  {
    var launched;
    launched, m' := CanLaunch(Finish(m, job, out));
    turn := Completed(job, out, launched);
  }

  lemma {:induction false} CanLaunch(m: Machine) returns (launched: seq<Root>, m': Machine)
    ensures Launches(m, launched, m')
    decreases |Pending(m.workspaces)|
  {
    if Settled(m.workspaces) {
      launched, m' := [], m;
    } else {
      var root :| Launchable(m.workspaces, root);
      RunningWith(m.workspaces, root, Launch(m.workspaces, root)[root]);
      assert root in Pending(m.workspaces);
      launched, m' := CanLaunch(LaunchOne(m, root));
      launched := [root] + launched;
    }
  }

  /** Once changes stop, the machine drains: every completed scan lowers the measure by exactly one, another
      scan can always complete until it is zero, and then every root is up to date. */
  lemma Drains(ms: seq<Machine>, turns: seq<Turn>)
    requires IsRun(ms, turns) && Inv(ms[0])
    requires forall i | 0 <= i < |turns| :: turns[i].Completed?
    ensures var last := ms[|turns|];
            && Inv(last)
            && Measure(last) == Measure(ms[0]) - |turns|
            && (Measure(last) > 0 <==> last.inFlight != {})
            && (|turns| == Measure(ms[0]) ==>
                  forall r | r in last.workspaces :: r in last.applied && last.applied[r] == last.workspaces[r].generation)
  {
    DrainsBy(ms, turns, |turns|);
    WorkOrFresh(ms[|turns|]);
  }

  lemma {:induction false} DrainsBy(ms: seq<Machine>, turns: seq<Turn>, n: nat)
    requires IsRun(ms, turns) && Inv(ms[0]) && n <= |turns|
    requires forall i | 0 <= i < |turns| :: turns[i].Completed?
    ensures Inv(ms[n]) && Measure(ms[n]) == Measure(ms[0]) - n
  {
    if n > 0 {
      DrainsBy(ms, turns, n - 1);
      CompletedKeeps(ms[n - 1], ms[n], turns[n - 1]);
    }
  }

  // ---------------------------------------------------------------- roots that share no files

  /** Scans never report files of another root. */
  ghost predicate Disjoint(turn: Turn, owner: Uri -> Root) {
    turn.Completed? && turn.out.Scanned? ==> forall u | u in turn.out.diagnostics :: owner(u) == turn.job.root
  }

  function Expected(accepted: map<Root, map<Uri, Diagnostics>>, r: Root, u: Uri): Diagnostics {
    if r in accepted && u in accepted[r] then accepted[r][u] else NO_DIAGNOSTICS
  }

  /** The client shows exactly the last accepted successful result of every root. */
  ghost predicate ClientOk(m: Machine, owner: Uri -> Root) {
    && (forall r, u | r in m.accepted && u in m.accepted[r] :: owner(u) == r)
    && (forall u :: Shown(m.client, u) == Expected(m.accepted, owner(u), u))
  }

  /** Marks and launches neither publish nor accept anything. */
  predicate SameResults(m: Machine, m': Machine) {
    m'.client == m.client && m'.accepted == m.accepted
  }

  lemma {:induction false} MarksShowNothing(m: Machine, roots: seq<Root>)
    ensures SameResults(m, MarkAll(m, roots))
  {
    if roots != [] {
      MarksShowNothing(m, roots[..|roots| - 1]);
    }
  }

  lemma ClientKeeps(m: Machine, m': Machine, turn: Turn, owner: Uri -> Root)
    requires Inv(m) && ClientOk(m, owner) && Next(m, m', turn) && Disjoint(turn, owner)
    ensures ClientOk(m', owner)
  {
    match turn
    case Changed(roots) => MarksShowNothing(m, roots);
    case Configured(settings, order) => MarksShowNothing(m.(settings := settings), order);
    case Completed(job, out, launches) =>
      if out.Failed? {
        LaunchesShowNothing(Finish(m, job, out), launches, m');
      } else {
        PublishedIsCurrent(m, m', turn);
        if !SameResults(m, m') {
          ClientNext(m, m', job.root, out.diagnostics, owner);
        }
      }
  }

  lemma ClientNext(m: Machine, m': Machine, root: Root, found: map<Uri, Diagnostics>, owner: Uri -> Root)
    requires ClientOk(m, owner) && m'.accepted == m.accepted[root := found]
    requires forall u :: Shown(m'.client, u) == ShownAfter(m, root, found, u)
    requires forall u | u in found :: owner(u) == root
    ensures ClientOk(m', owner)
  {
    forall u ensures Shown(m'.client, u) == Expected(m'.accepted, owner(u), u) {
      assert Shown(m.client, u) == Expected(m.accepted, owner(u), u);
      assert Shown(m'.client, u) == ShownAfter(m, root, found, u);
    }
  }

  /** The client view: after any run every file shows its root's last accepted successful result. */
  lemma {:induction false} ClientShowsLastAccepted(ms: seq<Machine>, turns: seq<Turn>, n: nat, owner: Uri -> Root)
    requires IsRun(ms, turns) && StartsEmpty(ms) && n < |ms|
    requires forall i | 0 <= i < |turns| :: Disjoint(turns[i], owner)
    requires forall i | 0 <= i < |ms| :: ms[i].time <= MAX_GENERATION
    ensures ClientOk(ms[n], owner)
  {
    if n > 0 {
      ClientShowsLastAccepted(ms, turns, n - 1, owner);
      RunKeeps(ms, turns, n - 1);
      ClientKeeps(ms[n - 1], ms[n], turns[n - 1], owner);
    }
  }

  // ---------------------------------------------------------------- roots that share files

  /** Turn `i` accepts a successful result. */
  predicate AcceptedAt(ms: seq<Machine>, turns: seq<Turn>, i: nat) {
    && i < |turns| && i < |ms| && turns[i].Completed? && turns[i].out.Scanned?
    && turns[i].job.root in ms[i].workspaces && turns[i].job.generation == ms[i].workspaces[turns[i].job.root].generation
  }

  /** Turn `i` publishes something for `u`: its result names the file, or the root's last one did. */
  predicate Touches(ms: seq<Machine>, turns: seq<Turn>, u: Uri, i: nat) {
    AcceptedAt(ms, turns, i) && (u in turns[i].out.diagnostics || u in ms[i].workspaces[turns[i].job.root].published)
  }

  function Said(turns: seq<Turn>, u: Uri, i: nat): Diagnostics
    requires i < |turns| && turns[i].Completed? && turns[i].out.Scanned?
  {
    if u in turns[i].out.diagnostics then turns[i].out.diagnostics[u] else NO_DIAGNOSTICS
  }

  lemma {:induction false} LaunchesShowNothing(m: Machine, roots: seq<Root>, m': Machine)
    requires Launches(m, roots, m')
    ensures SameResults(m, m')
    decreases |roots|
  {
    if roots != [] {
      LaunchesShowNothing(LaunchOne(m, roots[0]), roots[1..], m');
    }
  }

  lemma TurnShows(ms: seq<Machine>, turns: seq<Turn>, u: Uri, i: nat)
    requires IsRun(ms, turns) && i < |turns|
    ensures Shown(ms[i + 1].client, u) == if Touches(ms, turns, u, i) then Said(turns, u, i) else Shown(ms[i].client, u)
  {
    var m, m', turn := ms[i], ms[i + 1], turns[i];
    assert Next(m, m', turn);
    match turn
    case Changed(roots) => MarksShowNothing(m, roots);
    case Configured(settings, order) => MarksShowNothing(m.(settings := settings), order);
    case Completed(job, out, launches) =>
      LaunchesShowNothing(Finish(m, job, out), launches, m');
      FinishShows(m, job, out, u);
  }

  lemma FinishShows(m: Machine, job: Job, out: Outcome, u: Uri)
    requires job.root in m.workspaces
    ensures Shown(Finish(m, job, out).client, u) ==
            if out.Failed? || job.generation != m.workspaces[job.root].generation then Shown(m.client, u)
            else if u in out.diagnostics then out.diagnostics[u]
            else if u in m.workspaces[job.root].published then NO_DIAGNOSTICS
            else Shown(m.client, u)
  {
  }

  /** The last turn before `n` that published something for `u`. */
  function LastTouch(ms: seq<Machine>, turns: seq<Turn>, u: Uri, n: nat): (last: Option<nat>)
    ensures last.Some? ==> last.value < n && Touches(ms, turns, u, last.value)
    ensures forall j: nat | j < n && (last.Some? ==> last.value < j) :: !Touches(ms, turns, u, j)
  {
    if n == 0 then None else if Touches(ms, turns, u, n - 1) then Some(n - 1) else LastTouch(ms, turns, u, n - 1)
  }

  ghost predicate TurnSays(ms: seq<Machine>, turns: seq<Turn>, u: Uri, i: nat) {
    i < |turns| && i + 1 < |ms| &&
    Shown(ms[i + 1].client, u) == if Touches(ms, turns, u, i) then Said(turns, u, i) else Shown(ms[i].client, u)
  }

  lemma {:induction false} LastWordAmong(ms: seq<Machine>, turns: seq<Turn>, u: Uri, n: nat)
    requires n < |ms| && Shown(ms[0].client, u) == NO_DIAGNOSTICS
    requires forall i: nat | i < n :: TurnSays(ms, turns, u, i)
    ensures var last := LastTouch(ms, turns, u, n);
            Shown(ms[n].client, u) == if last.Some? then Said(turns, u, last.value) else NO_DIAGNOSTICS
  {
    if n > 0 {
      LastWordAmong(ms, turns, u, n - 1);
      assert TurnSays(ms, turns, u, n - 1);
    }
  }

  /** Even when roots are nested and report the same files, the client shows of every file what was last said of
      it: by the last accepted result that names it, or whose root's result before that did. */
  lemma LastWordIsShown(ms: seq<Machine>, turns: seq<Turn>, u: Uri, n: nat)
    requires IsRun(ms, turns) && StartsEmpty(ms) && n < |ms|
    ensures var last := LastTouch(ms, turns, u, n);
            Shown(ms[n].client, u) == if last.Some? then Said(turns, u, last.value) else NO_DIAGNOSTICS
  {
    forall i: nat | i < n ensures TurnSays(ms, turns, u, i) {
      TurnShows(ms, turns, u, i);
    }
    LastWordAmong(ms, turns, u, n);
  }

  // Clearing a file for one root hides what a root inside it still finds there.

  predicate Idle(ws: Workspaces) {
    Running(ws) == {} && Pending(ws) == {}
  }

  predicate Round(m: Machine, m': Machine, root: Root, found: map<Uri, Diagnostics>) {
    && m'.accepted == m.accepted[root := found]
    && m'.client == m.client + Cleared(At(m.workspaces, root).published, found.Keys) + found
    && m'.workspaces == m.workspaces[root := Workspace(Bump(At(m.workspaces, root).generation), false, false, found.Keys)]
  }

  /** A change of one root of an idle machine, and the scan it starts. */
  lemma ScanOnce(m: Machine, root: Root, found: map<Uri, Diagnostics>) returns (marked: Machine, job: Job, m': Machine)
    requires Idle(m.workspaces)
    ensures Next(m, marked, Changed([root])) && Next(marked, m', Completed(job, Scanned(found), []))
    ensures Round(m, m', root, found) && Idle(m'.workspaces)
  {
    job := Job(m.started, root, Bump(At(m.workspaces, root).generation), m.settings, m.time + 1);
    marked := ScanStarts(m, root, job);
    m' := Finish(marked, job, Scanned(found));
    assert m'.workspaces == m.workspaces[root := m'.workspaces[root]];
    StaysIdle(m.workspaces, root, m'.workspaces[root]);
  }

  lemma ScanStarts(m: Machine, root: Root, job: Job) returns (marked: Machine)
    requires Idle(m.workspaces)
    requires job == Job(m.started, root, Bump(At(m.workspaces, root).generation), m.settings, m.time + 1)
    ensures Next(m, marked, Changed([root])) && job in marked.inFlight && SameResults(m, marked)
    ensures marked.workspaces == m.workspaces[root := Workspace(job.generation, true, false, At(m.workspaces, root).published)]
  {
    assert [root][..0] == [];
    marked := Mark(m, root);
    if root in m.workspaces {
      assert root !in Running(m.workspaces) && root !in Pending(m.workspaces);
    }
  }

  lemma StaysIdle(ws: Workspaces, root: Root, w: Workspace)
    requires Idle(ws) && !w.running && !w.pending
    ensures Idle(ws[root := w]) && Settled(ws[root := w])
  {
    var ws' := ws[root := w];
    RunningWith(ws, root, w);
    forall r ensures !Launchable(ws', r) {
      assert r !in Pending(ws');
    }
  }

  function Last(ms: seq<Machine>): Machine
    requires ms != []
  {
    ms[|ms| - 1]
  }

  lemma RunGrows(ms: seq<Machine>, turns: seq<Turn>, m: Machine, turn: Turn)
    requires IsRun(ms, turns) && Next(Last(ms), m, turn)
    ensures IsRun(ms + [m], turns + [turn])
  {
    forall i | 0 <= i < |turns + [turn]| ensures Next((ms + [m])[i], (ms + [m])[i + 1], (turns + [turn])[i]) {
      assert i < |turns| ==> Next(ms[i], ms[i + 1], turns[i]);
    }
  }

  lemma ScanMore(ms: seq<Machine>, turns: seq<Turn>, root: Root, found: map<Uri, Diagnostics>)
    returns (ms': seq<Machine>, turns': seq<Turn>)
    requires IsRun(ms, turns) && Idle(Last(ms).workspaces)
    ensures IsRun(ms', turns') && ms' != [] && ms'[0] == ms[0]
    ensures Round(Last(ms), Last(ms'), root, found) && Idle(Last(ms').workspaces)
  {
    var marked, job, m := ScanOnce(Last(ms), root, found);
    RunGrows(ms, turns, marked, Changed([root]));
    RunGrows(ms + [marked], turns + [Changed([root])], m, Completed(job, Scanned(found), []));
    ms', turns' := ms + [marked] + [m], turns + [Changed([root])] + [Completed(job, Scanned(found), [])];
  }

  /** A run in which the client shows nothing for a file in which the inner of two nested roots still holds
      findings, because a later scan of the outer one no longer names it. */
  lemma ClearingHides(outer: Root, inner: Root, u: Uri, x: Diagnostics, y: Diagnostics)
    returns (ms: seq<Machine>, turns: seq<Turn>)
    requires outer.parts < inner.parts
    ensures IsRun(ms, turns) && StartsEmpty(ms)
    ensures Idle(Last(ms).workspaces) && inner in Last(ms).accepted && Last(ms).accepted[inner] == map[u := y]
    ensures Shown(Last(ms).client, u) == NO_DIAGNOSTICS
  {
    ms, turns := [Start("")], [];
    ms, turns := ScanMore(ms, turns, outer, map[u := x]);
    var m2 := Last(ms);
    ms, turns := ScanMore(ms, turns, inner, map[u := y]);
    var m4 := Last(ms);
    ms, turns := ScanMore(ms, turns, outer, map[]);
    PublishedBefore(m2, m4, outer, inner, u, y);
    Hidden(m4, Last(ms), outer, inner, u, y);
  }

  lemma PublishedBefore(m: Machine, m': Machine, outer: Root, inner: Root, u: Uri, y: Diagnostics)
    requires outer != inner && At(m.workspaces, outer).published == {u} && Round(m, m', inner, map[u := y])
    ensures At(m'.workspaces, outer).published == {u} && inner in m'.accepted && m'.accepted[inner] == map[u := y]
  {
  }

  lemma Hidden(m: Machine, m': Machine, outer: Root, inner: Root, u: Uri, y: Diagnostics)
    requires outer != inner && At(m.workspaces, outer).published == {u} && Round(m, m', outer, map[])
    requires inner in m.accepted && m.accepted[inner] == map[u := y]
    ensures inner in m'.accepted && m'.accepted[inner] == map[u := y] && Shown(m'.client, u) == NO_DIAGNOSTICS
  {
    assert u in Cleared({u}, {});
  }
}
