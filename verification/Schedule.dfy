/** The scheduling state of the workspaces and its two transitions: a change notification and a launch. */
module Schedule {
  import opened Options

  const MAX_CONCURRENT_SCANS: nat := 2

  /** Generations are 64-bit and saturate. */
  const MAX_GENERATION: nat := 0xFFFF_FFFF_FFFF_FFFF

  /** A workspace root is a path, component by component. */
  datatype Root = Root(parts: seq<string>)
  datatype Uri = Uri(text: string)

  /** The current generation, whether a scan runs, whether another must follow, and the files last published. */
  datatype Workspace = Workspace(generation: nat, running: bool, pending: bool, published: set<Uri>)

  type Workspaces = map<Root, Workspace>

  const NEW_WORKSPACE := Workspace(0, false, false, {})

  function Running(ws: Workspaces): set<Root> {
    set r | r in ws && ws[r].running
  }

  function Pending(ws: Workspaces): set<Root> {
    set r | r in ws && ws[r].pending
  }

  predicate HasCapacity(ws: Workspaces) {
    |Running(ws)| < MAX_CONCURRENT_SCANS
  }

  predicate Launchable(ws: Workspaces, r: Root) {
    r in ws && ws[r].pending && !ws[r].running
  }

  /** Nothing that waits could run. */
  ghost predicate Settled(ws: Workspaces) {
    HasCapacity(ws) ==> forall r :: !Launchable(ws, r)
  }

  function Bump(generation: nat): nat {
    if generation < MAX_GENERATION then generation + 1 else generation
  }

  /** A change to `root`: its next generation either starts, and is returned, or waits. */
  function MarkDirty(ws: Workspaces, root: Root): (Workspaces, Option<nat>) {
    var w := if root in ws then ws[root] else NEW_WORKSPACE;
    var bumped := w.(generation := Bump(w.generation));
    if bumped.running || !HasCapacity(ws) then (ws[root := bumped.(pending := true)], None)
    else (ws[root := bumped.(running := true)], Some(bumped.generation))
  }

  function Launch(ws: Workspaces, root: Root): Workspaces
    requires root in ws
  {
    ws[root := ws[root].(pending := false, running := true)]
  }

  /** A launch takes a workspace that waits and does not run, while fewer than two run, and only marks it as running. */
  lemma LaunchExactly(ws: Workspaces, root: Root)
    ensures HasCapacity(ws) <==> |set r | r in ws && ws[r].running| < 2
    ensures Launchable(ws, root) <==> root in ws && ws[root].pending && !ws[root].running
    ensures root in ws ==> Launch(ws, root) == ws[root := Workspace(ws[root].generation, true, false, ws[root].published)]
  {
  }
}
