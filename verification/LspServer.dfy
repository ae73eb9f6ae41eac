/** The language server's scan state: an object whose methods react to notifications and completed scans by
    starting scans and sending messages. It refines the scheduler's state machine. */
module LspServer {
  import opened Options
  import opened Recency
  import opened Schedule
  import opened Scheduler

  datatype Message =
    | Publish(uri: Uri, diagnostics: Diagnostics)
    | Status(root: Root, state: string)
    | Info(text: string)
    | Health(text: string)
    | Log(text: string)

  datatype ScanResult = ScanResult(
    root: Root,
    generation: nat,
    diagnostics: map<Uri, Diagnostics>,
    health: Option<string>,
    error: Option<string>,
    notice: Option<string>)

  datatype Notification =
    | DidChangeConfiguration(settings: Settings)
    | DidChangeFiles(paths: seq<seq<string>>)
    | RescanCommand

  /** The arguments of a scan that was started. */
  datatype Spawned = Spawned(root: Root, generation: nat, settings: Settings)

  function OutcomeOf(result: ScanResult): Outcome {
    if result.error.Some? then Failed else Scanned(result.diagnostics)
  }

  // ---------------------------------------------------------------- what a client does with messages

  /** What a client shows after handling the messages in order. */
  function Replay(client: map<Uri, Diagnostics>, sent: seq<Message>): map<Uri, Diagnostics> {
    if sent == [] then client
    else
      var shown := Replay(client, sent[..|sent| - 1]);
      match sent[|sent| - 1]
      case Publish(uri, diagnostics) => shown[uri := diagnostics]
      case _ => shown
  }

  lemma ReplaySnoc(client: map<Uri, Diagnostics>, sent: seq<Message>, m: Message)
    ensures Replay(client, sent + [m]) ==
            if m.Publish? then Replay(client, sent)[m.uri := m.diagnostics] else Replay(client, sent)
  {
    assert (sent + [m])[..|sent|] == sent;
  }

  function Maybe(m: Option<Message>): seq<Message> {
    if m.Some? then [m.value] else []
  }

  function NoticeOf(result: ScanResult): Option<Message> {
    if result.notice.Some? then Some(Info(result.notice.value)) else None
  }

  function HealthOf(result: ScanResult): Option<Message> {
    if result.health.Some? then Some(Health(result.health.value)) else None
  }

  function FailureReport(result: ScanResult): seq<Message>
    requires result.error.Some?
  {
    Maybe(HealthOf(result)) + [Status(result.root, "error"), Log(result.error.value)]
  }

  /** `order` lists exactly `all`, by the bytes of their text. */
  ghost predicate InUriOrder(order: seq<Uri>, all: set<Uri>) {
    && (forall u :: u in order <==> u in all)
    && (forall i, j | 0 <= i < j < |order| :: Before(order[i].text, order[j].text))
  }

  /** One publish message for each listed file. */
  function Publications(order: seq<Uri>, files: map<Uri, Diagnostics>): seq<Message>
    requires forall u | u in order :: u in files
  {
    if order == [] then []
    else
      var last := order[|order| - 1];
      assert forall u | u in order[..|order| - 1] :: u in order;
      Publications(order[..|order| - 1], files) + [Publish(last, files[last])]
  }

  function Listed(order: seq<Uri>, files: map<Uri, Diagnostics>): map<Uri, Diagnostics>
    requires forall u | u in order :: u in files
  {
    map u | u in order :: files[u]
  }

  lemma PublicationsSnoc(sent: seq<Message>, most: seq<Uri>, last: Uri, files: map<Uri, Diagnostics>)
    requires last in files && forall u | u in most :: u in files
    ensures sent + Publications(most + [last], files) == sent + Publications(most, files) + [Publish(last, files[last])]
  {
    assert (most + [last])[..|most|] == most;
  }

  lemma ListedSnoc(most: seq<Uri>, last: Uri, files: map<Uri, Diagnostics>)
    requires last in files && forall u | u in most :: u in files
    ensures Listed(most + [last], files) == Listed(most, files)[last := files[last]]
  {
  }

  /** Publishing listed files makes a client show them, whatever the order. */
  lemma {:induction false} ReplayPublications(sent: seq<Message>, order: seq<Uri>, files: map<Uri, Diagnostics>)
    requires forall u | u in order :: u in files
    ensures Replay(map[], sent + Publications(order, files)) == Replay(map[], sent) + Listed(order, files)
  {
    if order == [] {
      assert sent + [] == sent;
    } else {
      var most, last := order[..|order| - 1], order[|order| - 1];
      assert order == most + [last];
      ReplayPublications(sent, most, files);
      ListedSnoc(most, last, files);
      PublicationsSnoc(sent, most, last, files);
      ReplaySnoc(map[], sent + Publications(most, files), Publish(last, files[last]));
    }
  }

  lemma AllPublished(sent: seq<Message>, order: seq<Uri>, files: map<Uri, Diagnostics>)
    requires forall u :: u in order <==> u in files.Keys
    ensures Replay(map[], sent + Publications(order, files)) == Replay(map[], sent) + files
  {
    ReplayPublications(sent, order, files);
    assert Listed(order, files) == files;
  }

  /** What a result of the current generation is reported as: a notice, then either a failure, or the files no
      longer found as empty, the files found, the health and the idle state. */
  ghost predicate Reports(messages: seq<Message>, result: ScanResult, before: set<Uri>) {
    if result.error.Some? then messages == Maybe(NoticeOf(result)) + FailureReport(result)
    else exists rest :: SuccessReport(rest, result, before) && messages == Maybe(NoticeOf(result)) + rest
  }

  ghost predicate SuccessReport(messages: seq<Message>, result: ScanResult, before: set<Uri>) {
    exists gone, found ::
      && InUriOrder(gone, Cleared(before, result.diagnostics.Keys).Keys) && InUriOrder(found, result.diagnostics.Keys)
      && messages == Publications(gone, Cleared(before, result.diagnostics.Keys)) + Publications(found, result.diagnostics)
                     + Maybe(HealthOf(result)) + [Status(result.root, "idle")]
  }

  lemma {:induction false} PublicationsAre(order: seq<Uri>, files: map<Uri, Diagnostics>, m: Message)
    requires forall u | u in order :: u in files
    ensures m in Publications(order, files) <==> m.Publish? && m.uri in order && m.diagnostics == files[m.uri]
  {
    if order != [] {
      var most, last := order[..|order| - 1], order[|order| - 1];
      assert order == most + [last];
      PublicationsAre(most, files, m);
    }
  }

  /** What a report is made of, message by message: the result's notice, health and error text if there are any, one
      final status, and on success the files found and the files no longer found. */
  lemma ReportsMean(messages: seq<Message>, result: ScanResult, before: set<Uri>, m: Message)
    requires Reports(messages, result, before)
    ensures m in messages <==>
            match m
            case Info(text) => result.notice == Some(text)
            case Health(text) => result.health == Some(text)
            case Log(text) => result.error == Some(text)
            case Status(root, state) => root == result.root && state == if result.error.Some? then "error" else "idle"
            case Publish(u, d) =>
              result.error.None? &&
              if u in result.diagnostics then d == result.diagnostics[u] else u in before && d == Diagnostics([])
  {
    if result.error.None? {
      var rest :| SuccessReport(rest, result, before) && messages == Maybe(NoticeOf(result)) + rest;
      SuccessMeans(rest, result, before, m);
    }
  }

  lemma SuccessMeans(messages: seq<Message>, result: ScanResult, before: set<Uri>, m: Message)
    requires SuccessReport(messages, result, before)
    ensures m in messages <==>
            match m
            case Info(text) => false
            case Health(text) => result.health == Some(text)
            case Log(text) => false
            case Status(root, state) => root == result.root && state == "idle"
            case Publish(u, d) =>
              if u in result.diagnostics then d == result.diagnostics[u] else u in before && d == Diagnostics([])
  {
    var cleared := Cleared(before, result.diagnostics.Keys);
    var gone, found :| InUriOrder(gone, cleared.Keys) && InUriOrder(found, result.diagnostics.Keys) &&
      messages == Publications(gone, cleared) + Publications(found, result.diagnostics) + Maybe(HealthOf(result)) + [Status(result.root, "idle")];
    PublicationsAre(gone, cleared, m);
    PublicationsAre(found, result.diagnostics, m);
  }

  method FirstUri(all: set<Uri>) returns (first: Uri)
    requires all != {}
    ensures first in all && forall u | u in all && u != first :: Before(first.text, u.text)
  {
    first :| first in all;
    var rest := all - {first};
    while rest != {}
      invariant rest <= all && first in all && first !in rest
      invariant forall u | u in all && u !in rest && u != first :: Before(first.text, u.text)
      decreases |rest|
    {
      var u :| u in rest;
      rest := rest - {u};
      BeforeIsTotal(first.text, u.text);
      if Before(u.text, first.text) {
        forall x | x in all && x !in rest && x != u && x != first ensures Before(u.text, x.text) {
          BeforeIsTransitive(u.text, first.text, x.text);
        }
        first := u;
      }
    }
  }

  method SortUris(all: set<Uri>) returns (order: seq<Uri>)
    ensures InUriOrder(order, all)
  {
    order := [];
    var rest := all;
    while rest != {}
      invariant rest <= all
      invariant InUriOrder(order, all - rest)
      invariant forall a, b | a in all - rest && b in rest :: Before(a.text, b.text)
      decreases |rest|
    {
      var u := FirstUri(rest);
      var was := order;
      rest := rest - {u};
      order := order + [u];
      assert forall x :: x in order <==> x in was || x == u;
    }
  }

  // ---------------------------------------------------------------- paths in order

  /** Paths are ordered component by component. */
  predicate PathBefore(a: seq<string>, b: seq<string>) {
    |b| > 0 && (|a| == 0 || Before(a[0], b[0]) || (a[0] == b[0] && PathBefore(a[1..], b[1..])))
  }

  /** Paths differ first at some component, where one ends or has the component that comes first. */
  lemma {:induction false} PathBeforeExactly(a: seq<string>, b: seq<string>)
    ensures PathBefore(a, b) <==>
            exists n: nat {:trigger a[..n]} | n <= |a| && n < |b| && a[..n] == b[..n] :: n == |a| || Before(a[n], b[n])
  {
    if |b| > 0 && |a| > 0 && a[0] == b[0] {
      PathBeforeExactly(a[1..], b[1..]);
      BeforeIsTotal(a[0], b[0]);
      if PathBefore(a, b) {
        var n: nat :| n <= |a| - 1 && n < |b| - 1 && a[1..][..n] == b[1..][..n] && (n == |a| - 1 || Before(a[1..][n], b[1..][n]));
        assert a[..n + 1] == [a[0]] + a[1..][..n] && b[..n + 1] == [b[0]] + b[1..][..n];
      }
      if n: nat :| n <= |a| && n < |b| && a[..n] == b[..n] && (n == |a| || Before(a[n], b[n])) {
        assert a[1..][..n - 1] == a[..n][1..] && b[1..][..n - 1] == b[..n][1..];
      }
    } else if PathBefore(a, b) {
      assert a[..0] == b[..0];
    } else {
      forall n: nat | 0 < n <= |a| && n < |b| ensures a[..n] != b[..n] {
        assert a[..n][0] == a[0] && b[..n][0] == b[0];
      }
    }
  }

  lemma {:induction false} PathBeforeIsTotal(a: seq<string>, b: seq<string>)
    ensures a == b || PathBefore(a, b) || PathBefore(b, a)
  {
    if |a| > 0 && |b| > 0 {
      BeforeIsTotal(a[0], b[0]);
      PathBeforeIsTotal(a[1..], b[1..]);
      assert a == [a[0]] + a[1..] && b == [b[0]] + b[1..];
    }
  }

  lemma {:induction false} PathBeforeIsTransitive(a: seq<string>, b: seq<string>, c: seq<string>)
    requires PathBefore(a, b) && PathBefore(b, c)
    ensures PathBefore(a, c)
  {
    if |a| > 0 {
      BeforeIsTotal(a[0], b[0]);
      BeforeIsTotal(b[0], c[0]);
      if a[0] == b[0] == c[0] {
        PathBeforeIsTransitive(a[1..], b[1..], c[1..]);
      } else if a[0] != b[0] && b[0] != c[0] {
        BeforeIsTransitive(a[0], b[0], c[0]);
      }
    }
  }

  /** `roots` lists exactly `all`, in path order. */
  ghost predicate InPathOrder(roots: seq<Root>, all: set<Root>) {
    && (forall r :: r in roots <==> r in all)
    && (forall i, j | 0 <= i < j < |roots| :: PathBefore(roots[i].parts, roots[j].parts))
  }

  method First(all: set<Root>) returns (first: Root)
    requires all != {}
    ensures first in all && forall r | r in all && r != first :: PathBefore(first.parts, r.parts)
  {
    first :| first in all;
    var rest := all - {first};
    while rest != {}
      invariant rest <= all && first in all && first !in rest
      invariant forall r | r in all && r !in rest && r != first :: PathBefore(first.parts, r.parts)
      decreases |rest|
    {
      var r :| r in rest;
      rest := rest - {r};
      PathBeforeIsTotal(first.parts, r.parts);
      if PathBefore(r.parts, first.parts) {
        forall x | x in all && x !in rest && x != r && x != first ensures PathBefore(r.parts, x.parts) {
          PathBeforeIsTransitive(r.parts, first.parts, x.parts);
        }
        first := r;
      }
    }
  }

  /** The order in which an ordered set is iterated. */
  method Enumerate(all: set<Root>) returns (roots: seq<Root>)
    ensures InPathOrder(roots, all)
  {
    roots := [];
    var rest := all;
    while rest != {}
      invariant rest <= all
      invariant InPathOrder(roots, all - rest)
      invariant forall a, b | a in all - rest && b in rest :: PathBefore(a.parts, b.parts)
      decreases |rest|
    {
      var r := First(rest);
      var was := roots;
      rest := rest - {r};
      roots := roots + [r];
      assert forall x :: x in roots <==> x in was || x == r;
    }
  }

  // ---------------------------------------------------------------- the workspace a path belongs to

  /** `found` is the deepest of `roots` that contains `path`. */
  ghost predicate IsRootFor(found: Option<Root>, roots: set<Root>, path: seq<string>) {
    match found
    case None => forall r | r in roots :: !(r.parts <= path)
    case Some(best) =>
      best in roots && best.parts <= path && forall r | r in roots && r.parts <= path && r != best :: |r.parts| < |best.parts|
  }

  lemma OneRootPerPath(a: Option<Root>, b: Option<Root>, roots: set<Root>, path: seq<string>)
    requires IsRootFor(a, roots, path) && IsRootFor(b, roots, path)
    ensures a == b
  {
  }

  /** The roots whose scan a change to `paths` can alter. */
  ghost predicate IsAffected(affected: set<Root>, roots: set<Root>, paths: seq<seq<string>>, affectsScan: seq<string> -> bool) {
    forall r :: r in affected <==> exists p :: p in paths && affectsScan(p) && IsRootFor(Some(r), roots, p)
  }

  // ---------------------------------------------------------------- the server

  class Scans {
    var workspaces: Workspaces
    var settings: Settings
    var spawned: seq<Spawned>
    var sent: seq<Message>
    /** The state machine this object follows. */
    ghost var run: Machine

    ghost predicate Valid()
      reads this
    {
      && run.workspaces == workspaces
      && run.settings == settings
      && run.started == |spawned|
      && run.client == Replay(map[], sent)
      && forall job | job in run.inFlight :: job.n < |spawned| && spawned[job.n] == Spawned(job.root, job.generation, job.settings)
    }

    constructor (settings: Settings)
      ensures Valid() && run == Start(settings)
    {
      workspaces := map[];
      this.settings := settings;
      spawned := [];
      sent := [];
      run := Start(settings);
    }

    method MarkDirty(root: Root) returns (generation: Option<nat>)
      modifies this`workspaces
      ensures (workspaces, generation) == Schedule.MarkDirty(old(workspaces), root)
      ensures workspaces.Keys == old(workspaces).Keys + {root} && forall r | r in old(workspaces) && r != root :: workspaces[r] == old(workspaces)[r]
      ensures workspaces[root].generation ==
              if root !in old(workspaces) then 1
              else if old(workspaces)[root].generation == 0xFFFF_FFFF_FFFF_FFFF then 0xFFFF_FFFF_FFFF_FFFF
              else if old(workspaces)[root].generation < 0xFFFF_FFFF_FFFF_FFFF then old(workspaces)[root].generation + 1
              else old(workspaces)[root].generation
      ensures generation == if (root in old(workspaces) && old(workspaces)[root].running) || |Running(old(workspaces))| >= 2 then None
                            else Some(workspaces[root].generation)
    {
      var inFlight := CountRunning();
      if root !in workspaces {
        workspaces := workspaces[root := NEW_WORKSPACE];
      }
      var workspace := workspaces[root];
      workspace := workspace.(generation := Bump(workspace.generation));
      if workspace.running || inFlight >= MAX_CONCURRENT_SCANS {
        workspaces := workspaces[root := workspace.(pending := true)];
        assert workspaces == old(workspaces)[root := workspace.(pending := true)];
        return None;
      }
      workspaces := workspaces[root := workspace.(running := true)];
      assert workspaces == old(workspaces)[root := workspace.(running := true)];
      return Some(workspace.generation);
    }

    method CountRunning() returns (count: nat)
      ensures count == |Running(workspaces)|
    {
      count := 0;
      var rest := workspaces.Keys;
      while rest != {}
        invariant rest <= workspaces.Keys
        invariant count == |Running(workspaces) - rest|
        decreases |rest|
      {
        var r :| r in rest;
        var before := Running(workspaces) - rest;
        rest := rest - {r};
        if workspaces[r].running {
          assert Running(workspaces) - rest == before + {r};
          count := count + 1;
        } else {
          assert Running(workspaces) - rest == before;
        }
      }
      assert Running(workspaces) - {} == Running(workspaces);
    }

    /** The first waiting workspace in path order, while capacity remains. */
    method TakePending() returns (root: Option<Root>)
      modifies this`workspaces
      ensures root.None? ==> workspaces == old(workspaces) && Settled(workspaces)
      ensures root.Some? ==> HasCapacity(old(workspaces)) && Launchable(old(workspaces), root.value)
                             && workspaces == Launch(old(workspaces), root.value)
                             && forall r | Launchable(old(workspaces), r) && r != root.value :: PathBefore(root.value.parts, r.parts)
    {
      var inFlight := CountRunning();
      if inFlight >= MAX_CONCURRENT_SCANS {
        return None;
      }
      var waiting := set r | r in workspaces && workspaces[r].pending && !workspaces[r].running;
      if waiting == {} {
        assert forall r :: Launchable(workspaces, r) ==> r in waiting;
        return None;
      }
      var first := First(waiting);
      workspaces := Launch(workspaces, first);
      return Some(first);
    }

    method Send(m: Message)
      modifies this`sent
      ensures sent == old(sent) + [m]
      ensures Replay(map[], sent) == if m.Publish? then Replay(map[], old(sent))[m.uri := m.diagnostics] else Replay(map[], old(sent))
    {
      ReplaySnoc(map[], sent, m);
      sent := sent + [m];
    }

    /** Since the given messages and scans, each started scan was announced, in order, and nothing else was sent. */
    ghost predicate Announced(before: seq<Message>, started: seq<Spawned>)
      reads this
    {
      && before <= sent && started <= spawned && |sent| - |before| == |spawned| - |started|
      && forall i | |started| <= i < |spawned| :: sent[|before| - |started| + i] == Status(spawned[i].root, "scanning")
    }

    /** Starts a scan of a workspace just marked as running. */
    method Launches(root: Root, generation: nat)
      modifies this`sent, this`spawned
      ensures spawned == old(spawned) + [Spawned(root, generation, settings)]
      ensures Announced(old(sent), old(spawned)) && Replay(map[], sent) == Replay(map[], old(sent))
    {
      Send(Status(root, "scanning"));
      spawned := spawned + [Spawned(root, generation, settings)];
    }

    method Queue(root: Root)
      requires Valid()
      modifies this
      ensures Valid() && run == Mark(old(run), root) && Announced(old(sent), old(spawned))
    {
      var generation := MarkDirty(root);
      run := Mark(run, root);
      if generation.Some? {
        Launches(root, generation.value);
      }
    }

    method QueueAll(roots: seq<Root>)
      requires Valid()
      modifies this
      ensures Valid() && run == MarkAll(old(run), roots) && Announced(old(sent), old(spawned))
    {
      for i := 0 to |roots|
        invariant Valid() && run == MarkAll(old(run), roots[..i]) && Announced(old(sent), old(spawned))
      {
        assert roots[..i + 1][..i] == roots[..i];
        Queue(roots[i]);
      }
      assert roots[..|roots|] == roots;
    }

    method RescanAll() returns (roots: seq<Root>)
      requires Valid()
      modifies this
      ensures InPathOrder(roots, old(workspaces.Keys))
      ensures Valid() && run == MarkAll(old(run), roots) && Announced(old(sent), old(spawned))
    {
      roots := Enumerate(workspaces.Keys);
      QueueAll(roots);
    }

    /** The deepest workspace that holds a path: every workspace holds what is below it, however far. */
    method RootForPath(path: seq<string>) returns (best: Option<Root>)
      ensures IsRootFor(best, workspaces.Keys, path)
      ensures best.Some? ==> best.value in workspaces && exists rest :: path == best.value.parts + rest
      ensures forall r, rest | r in workspaces && path == r.parts + rest :: best.Some? && |r.parts| <= |best.value.parts|
    {
      best := None;
      var rest := workspaces.Keys;
      while rest != {}
        invariant rest <= workspaces.Keys && IsRootFor(best, workspaces.Keys - rest, path)
        decreases |rest|
      {
        var r :| r in rest;
        rest := rest - {r};
        if r.parts <= path && (best.None? || |r.parts| >= |best.value.parts|) {
          best := Some(r);
        }
      }
      assert workspaces.Keys - {} == workspaces.Keys;
      assert best.Some? ==> path == best.value.parts + path[|best.value.parts|..];
    }

    method RescanAffected(paths: seq<seq<string>>, affectsScan: seq<string> -> bool) returns (roots: seq<Root>)
      requires Valid()
      modifies this
      ensures exists affected :: IsAffected(affected, old(workspaces.Keys), paths, affectsScan) && InPathOrder(roots, affected)
      ensures Valid() && run == MarkAll(old(run), roots) && Announced(old(sent), old(spawned))
    {
      var affected := {};
      for i := 0 to |paths|
        invariant Valid() && run == old(run) && workspaces == old(workspaces) && sent == old(sent) && spawned == old(spawned)
        invariant IsAffected(affected, workspaces.Keys, paths[..i], affectsScan)
      {
        ghost var was := affected;
        var root := None;
        if affectsScan(paths[i]) {
          root := RootForPath(paths[i]);
          if root.Some? {
            affected := affected + {root.value};
          }
        }
        AffectedSnoc(was, workspaces.Keys, paths, i, affectsScan, root);
      }
      assert paths[..|paths|] == paths;
      roots := Enumerate(affected);
      QueueAll(roots);
    }

    /** Takes one waiting workspace, if it may run, and starts its scan. */
    method LaunchNext() returns (root: Option<Root>)
      requires Valid()
      modifies this
      ensures Valid() && Announced(old(sent), old(spawned))
      ensures root.None? ==> run == old(run) && Settled(run.workspaces)
      ensures root.Some? ==> HasCapacity(old(run.workspaces)) && Launchable(old(run.workspaces), root.value)
                             && run == LaunchOne(old(run), root.value)
    {
      root := TakePending();
      if root.Some? {
        run := LaunchOne(run, root.value);
        Launches(root.value, workspaces[root.value].generation);
      }
    }

    method LaunchPending() returns (ghost launched: seq<Root>)
      requires Valid()
      modifies this
      ensures Valid() && Scheduler.Launches(old(run), launched, run) && Announced(old(sent), old(spawned))
    {
      launched := [];
      ghost var was := run;
      assert forall rest: seq<Root> :: launched + rest == rest;
      var next := LaunchNext();
      while next.Some?
        invariant Valid() && Announced(old(sent), old(spawned))
        invariant next.None? ==> run == was && Settled(run.workspaces)
        invariant next.Some? ==> HasCapacity(was.workspaces) && Launchable(was.workspaces, next.value) && run == LaunchOne(was, next.value)
        invariant forall rest, m' :: Scheduler.Launches(was, rest, m') ==> Scheduler.Launches(old(run), launched + rest, m')
        decreases |Pending(was.workspaces)|
      {
        LaunchesExtend(old(run), launched, was, next.value);
        PendingShrinks(was.workspaces, next.value);
        launched := launched + [next.value];
        was := run;
        next := LaunchNext();
      }
      assert Scheduler.Launches(run, [], run);
      assert launched + [] == launched;
    }

    /** Sends one publish message for each file of `files`. */
    method PublishAll(files: map<Uri, Diagnostics>) returns (ghost order: seq<Uri>)
      modifies this`sent
      ensures InUriOrder(order, files.Keys) && sent == old(sent) + Publications(order, files)
      ensures Replay(map[], sent) == Replay(map[], old(sent)) + files
    {
      var uris := SortUris(files.Keys);
      for i := 0 to |uris|
        invariant sent == old(sent) + Publications(uris[..i], files)
      {
        assert uris[..i + 1][..i] == uris[..i];
        Send(Publish(uris[i], files[uris[i]]));
      }
      assert uris[..|uris|] == uris;
      AllPublished(old(sent), uris, files);
      order := uris;
    }

    /** Takes over a completed scan, unless a change since its launch made it stale. */
    method ApplyResult(result: ScanResult, ghost job: Job)
      requires Valid() && job in run.inFlight && (job.root, job.generation) == (result.root, result.generation)
      modifies this
      ensures Valid() && settings == old(settings)
      ensures result.root !in old(workspaces) ==> unchanged(this)
      ensures result.root in old(workspaces) ==> run == Finish(old(run), job, OutcomeOf(result))
      ensures old(sent) <= sent && spawned == old(spawned)
      ensures result.root in old(workspaces) ==>
                if result.generation != old(workspaces)[result.root].generation then sent == old(sent)
                else Reports(sent[|old(sent)|..], result, old(workspaces)[result.root].published)
    {
      if result.root in workspaces {
        Apply(result, job);
        run := Finish(run, job, OutcomeOf(result));
      }
    }

    method Apply(result: ScanResult, ghost job: Job)
      requires Valid() && (job.root, job.generation) == (result.root, result.generation) && result.root in workspaces
      modifies this`workspaces, this`sent
      ensures workspaces == Finish(run, job, OutcomeOf(result)).workspaces
      ensures old(sent) <= sent && Replay(map[], sent) == Finish(run, job, OutcomeOf(result)).client
      ensures if result.generation != old(workspaces)[result.root].generation then sent == old(sent)
              else Reports(sent[|old(sent)|..], result, old(workspaces)[result.root].published)
    {
      var workspace := workspaces[result.root].(running := false);
      workspaces := workspaces[result.root := workspace];
      if result.generation != workspace.generation {
        return;
      }
      var published := ReportResult(result, workspace.published);
      workspaces := workspaces[result.root := workspace.(published := published)];
      assert workspaces == old(workspaces)[result.root := workspace.(published := published)];
    }

    /** Sends what a result of the current generation has to say; returns the files now published. */
    method ReportResult(result: ScanResult, before: set<Uri>) returns (published: set<Uri>)
      modifies this`sent
      ensures old(sent) <= sent && Reports(sent[|old(sent)|..], result, before)
      ensures result.error.Some? ==> published == before && Replay(map[], sent) == Replay(map[], old(sent))
      ensures result.error.None? ==>
                && published == result.diagnostics.Keys
                && Replay(map[], sent) == Replay(map[], old(sent)) + Cleared(before, result.diagnostics.Keys) + result.diagnostics
    {
      SendSome(NoticeOf(result));
      if result.error.Some? {
        ReportFailure(result);
        Appended(old(sent), Maybe(NoticeOf(result)), FailureReport(result));
        return before;
      }
      ghost var messages := ReportSuccess(result, before);
      Appended(old(sent), Maybe(NoticeOf(result)), messages);
      assert Reports(Maybe(NoticeOf(result)) + messages, result, before);
      return result.diagnostics.Keys;
    }

    method ReportSuccess(result: ScanResult, before: set<Uri>) returns (ghost messages: seq<Message>)
      modifies this`sent
      ensures sent == old(sent) + messages && SuccessReport(messages, result, before)
      ensures Replay(map[], sent) == Replay(map[], old(sent)) + Cleared(before, result.diagnostics.Keys) + result.diagnostics
    {
      ghost var gone, found := PublishResult(result, before);
      SendSome(HealthOf(result));
      Send(Status(result.root, "idle"));
      messages := Publications(gone, Cleared(before, result.diagnostics.Keys)) + Publications(found, result.diagnostics)
                  + Maybe(HealthOf(result)) + [Status(result.root, "idle")];
      Regroup(old(sent), Publications(gone, Cleared(before, result.diagnostics.Keys)), Publications(found, result.diagnostics),
              Maybe(HealthOf(result)), [Status(result.root, "idle")]);
    }

    method PublishResult(result: ScanResult, before: set<Uri>) returns (ghost gone: seq<Uri>, ghost found: seq<Uri>)
      modifies this`sent
      ensures InUriOrder(gone, Cleared(before, result.diagnostics.Keys).Keys) && InUriOrder(found, result.diagnostics.Keys)
      ensures sent == old(sent) + Publications(gone, Cleared(before, result.diagnostics.Keys)) + Publications(found, result.diagnostics)
      ensures Replay(map[], sent) == Replay(map[], old(sent)) + Cleared(before, result.diagnostics.Keys) + result.diagnostics
    {
      gone := PublishAll(Cleared(before, result.diagnostics.Keys));
      found := PublishAll(result.diagnostics);
    }

    method ReportFailure(result: ScanResult)
      requires result.error.Some?
      modifies this`sent
      ensures sent == old(sent) + FailureReport(result) && Replay(map[], sent) == Replay(map[], old(sent))
    {
      SendSome(HealthOf(result));
      Send(Status(result.root, "error"));
      Send(Log(result.error.value));
      assert sent == old(sent) + FailureReport(result);
    }

    method SendSome(m: Option<Message>)
      requires m.Some? ==> !m.value.Publish?
      modifies this`sent
      ensures sent == old(sent) + Maybe(m)
      ensures Replay(map[], sent) == Replay(map[], old(sent))
    {
      if m.Some? {
        Send(m.value);
      }
    }

    /** One completed scan: a turn of the machine. */
    method HandleCompleted(result: ScanResult, ghost job: Job) returns (ghost turn: Turn)
      requires Valid() && job in run.inFlight && (job.root, job.generation) == (result.root, result.generation)
      requires job.root in workspaces
      modifies this
      ensures Valid() && Next(old(run), run, turn)
      ensures turn.Completed? && turn.job == job && turn.out == OutcomeOf(result)
    {
      ApplyResult(result, job);
      ghost var launched := LaunchPending();
      turn := Completed(job, OutcomeOf(result), launched);
    }

    /** Scans every root the client opened. The first turn of the machine. */
    method Open(roots: seq<Root>)
      requires Valid() && run == Start(settings) && |roots| <= MAX_GENERATION
      modifies this
      ensures Valid() && Next(old(run), run, Changed(roots)) && Announced(old(sent), old(spawned))
    {
      QueueAll(roots);
      ghost var was := run;
      ghost var launched := LaunchPending();
      ChangedKeeps(old(run), roots);
      NothingToLaunch(was, launched, run);
    }

    /** One notification: a turn of the machine. */
    method HandleNotification(notification: Notification, affectsScan: seq<string> -> bool) returns (ghost turn: Turn)
      requires Valid()
      modifies this
      ensures Valid() && Next(old(run), run, turn) && Announced(old(sent), old(spawned))
      ensures notification.DidChangeConfiguration? ==> turn.Configured? && settings == notification.settings
      ensures !notification.DidChangeConfiguration? ==> turn.Changed? && settings == old(settings)
      ensures notification.DidChangeFiles? ==>
                forall r :: r in turn.roots <==>
                              exists p :: p in notification.paths && affectsScan(p) && r in old(workspaces) && r.parts <= p &&
                                          forall other | other in old(workspaces) && other.parts <= p && other != r :: |other.parts| < |r.parts|
      ensures notification.RescanCommand? ==> forall r :: r in turn.roots <==> r in old(workspaces)
    {
      match notification
      case DidChangeConfiguration(changed) =>
        settings := changed;
        run := run.(settings := changed);
        var roots := RescanAll();
        MarkAllSettings(old(run).(settings := changed), roots);
        turn := Configured(changed, roots);
      case DidChangeFiles(paths) =>
        var roots := RescanAffected(paths, affectsScan);
        MarkAllSettings(old(run), roots);
        turn := Changed(roots);
      case RescanCommand =>
        var roots := RescanAll();
        MarkAllSettings(old(run), roots);
        turn := Changed(roots);
    }
  }

  lemma Appended<T>(s: seq<T>, a: seq<T>, b: seq<T>)
    ensures s <= s + a + b && (s + a + b)[|s|..] == a + b
  {
  }

  lemma Regroup<T>(s: seq<T>, a: seq<T>, b: seq<T>, c: seq<T>, d: seq<T>)
    ensures s + a + b + c + d == s + (a + b + c + d)
  {
  }

  lemma AffectedSnoc(affected: set<Root>, roots: set<Root>, paths: seq<seq<string>>, i: nat, affectsScan: seq<string> -> bool, found: Option<Root>)
    requires i < |paths| && IsAffected(affected, roots, paths[..i], affectsScan)
    requires if affectsScan(paths[i]) then IsRootFor(found, roots, paths[i]) else found == None
    ensures IsAffected(if found.Some? then affected + {found.value} else affected, roots, paths[..i + 1], affectsScan)
  {
    var next := if found.Some? then affected + {found.value} else affected;
    assert paths[..i + 1] == paths[..i] + [paths[i]];
    forall r ensures r in next <==> exists p :: p in paths[..i + 1] && affectsScan(p) && IsRootFor(Some(r), roots, p) {
      if r in next {
        if r in affected {
          var p :| p in paths[..i] && affectsScan(p) && IsRootFor(Some(r), roots, p);
          assert p in paths[..i + 1];
        } else {
          assert paths[i] in paths[..i + 1];
        }
      } else {
        forall p | p in paths[..i + 1] && affectsScan(p) ensures !IsRootFor(Some(r), roots, p) {
          assert p in paths[..i] || p == paths[i];
          if p == paths[i] && IsRootFor(Some(r), roots, p) {
            OneRootPerPath(found, Some(r), roots, p);
          }
        }
      }
    }
  }

  lemma LaunchesExtend(m: Machine, launched: seq<Root>, mid: Machine, root: Root)
    requires forall rest, m' :: Scheduler.Launches(mid, rest, m') ==> Scheduler.Launches(m, launched + rest, m')
    requires HasCapacity(mid.workspaces) && Launchable(mid.workspaces, root)
    ensures forall rest, m' :: Scheduler.Launches(LaunchOne(mid, root), rest, m') ==> Scheduler.Launches(m, (launched + [root]) + rest, m')
  {
    forall rest, m' | Scheduler.Launches(LaunchOne(mid, root), rest, m') ensures Scheduler.Launches(m, (launched + [root]) + rest, m') {
      var later := [root] + rest;
      assert later[0] == root && later[1..] == rest;
      assert Scheduler.Launches(mid, later, m');
      assert (launched + [root]) + rest == launched + later;
    }
  }

  lemma NothingToLaunch(m: Machine, launched: seq<Root>, m': Machine)
    requires Settled(m.workspaces) && Scheduler.Launches(m, launched, m')
    ensures m' == m
  {
  }

  lemma PendingShrinks(ws: Workspaces, root: Root)
    requires Launchable(ws, root)
    ensures |Pending(Launch(ws, root))| < |Pending(ws)|
  {
    assert Pending(Launch(ws, root)) == Pending(ws) - {root};
    assert root in Pending(ws);
  }

  lemma {:induction false} MarkAllSettings(m: Machine, roots: seq<Root>)
    ensures MarkAll(m, roots).settings == m.settings
  {
    if roots != [] {
      MarkAllSettings(m, roots[..|roots| - 1]);
    }
  }
}
