/** Whole runs of writes over many branches: which branches survive, and that a survivor's data
    depends on its own scans only. */
module BranchRuns {
  import opened Aging
  import opened Recency
  import opened Baselines

  /** One scan of one branch, stamped with the scan's clock reading. */
  datatype Write = Write(branch: Branch, scan: Scan)

  ghost function Apply(view: View, w: Write): View {
    Replace(view, w.branch, AfterScan(DataIn(view, w.branch), w.scan), w.scan.now)
  }

  ghost function Replay(view: View, writes: seq<Write>): View {
    if writes == [] then view else Apply(Replay(view, writes[..|writes| - 1]), writes[|writes| - 1])
  }

  ghost function Run(writes: seq<Write>): View {
    Replay(map[], writes)
  }

  // ---------------------------------------------------------------- which branches survive

  /** The stamp of every branch's last write, without any pruning. */
  function LastStamps(writes: seq<Write>): Stamps {
    if writes == [] then map[]
    else
      var w := writes[|writes| - 1];
      LastStamps(writes[..|writes| - 1])[w.branch := w.scan.now]
  }

  /** No branch is stamped earlier than its own previous write. */
  ghost predicate OwnClocksRun(writes: seq<Write>) {
    forall i, j | 0 <= i < j < |writes| && writes[i].branch == writes[j].branch ::
      writes[i].scan.now <= writes[j].scan.now
  }

  lemma {:induction false} WrittenIsStamped(writes: seq<Write>, i: nat)
    requires i < |writes|
    ensures writes[i].branch in LastStamps(writes)
  {
    if i < |writes| - 1 {
      WrittenIsStamped(writes[..|writes| - 1], i);
    }
  }

  /** Where a branch was last written. */
  lemma {:induction false} LastWrite(writes: seq<Write>, b: Branch) returns (i: nat)
    requires b in LastStamps(writes)
    ensures i < |writes| && writes[i].branch == b && LastStamps(writes)[b] == writes[i].scan.now
    ensures forall j | i < j < |writes| :: writes[j].branch != b
  {
    var n := |writes| - 1;
    if writes[n].branch == b {
      i := n;
    } else {
      i := LastWrite(writes[..n], b);
      forall j | i < j < |writes| ensures writes[j].branch != b {
        if j < n { assert writes[..n][j].branch != b; }
      }
    }
  }

  lemma PruneStamps(view: View)
    ensures ViewStamps(Prune(view)) == Top(ViewStamps(view), MAX_BRANCHES)
  {
  }

  /** Pruning after every write keeps exactly the 12 best stamps of all branches ever written. */
  lemma {:induction false} SurvivorsAreMostRecent(writes: seq<Write>)
    requires OwnClocksRun(writes)
    ensures ViewStamps(Run(writes)) == Top(LastStamps(writes), MAX_BRANCHES)
  {
    if writes == [] {
      assert ViewStamps(Run(writes)) == Top(LastStamps(writes), MAX_BRANCHES);
    } else {
      var n := |writes| - 1;
      var w := writes[n];
      SurvivorsAreMostRecent(writes[..n]);
      var full := LastStamps(writes[..n]);
      if w.branch in full {
        var i := LastWrite(writes[..n], w.branch);
        assert writes[..n][i] == writes[i];
      }
      ApplyStamps(Run(writes[..n]), w);
      PruneAsYouGo(full, MAX_BRANCHES, w.branch, w.scan.now);
    }
  }

  lemma ApplyStamps(view: View, w: Write)
    ensures ViewStamps(Apply(view, w)) == Top(ViewStamps(view)[w.branch := w.scan.now], MAX_BRANCHES)
  {
    var written := view[w.branch := Baseline(w.scan.now, AfterScan(DataIn(view, w.branch), w.scan))];
    PruneStamps(written);
    assert ViewStamps(written) == ViewStamps(view)[w.branch := w.scan.now];
  }

  /** The store is as full as it can be, and never over its cap. */
  lemma StoreSize(writes: seq<Write>)
    requires OwnClocksRun(writes)
    ensures |Run(writes)| == if |LastStamps(writes)| <= 12 then |LastStamps(writes)| else 12
  {
    SurvivorsAreMostRecent(writes);
    TopSize(LastStamps(writes), MAX_BRANCHES);
    assert ViewStamps(Run(writes)).Keys == Run(writes).Keys;
    assert |ViewStamps(Run(writes)).Keys| == |Run(writes).Keys|;
  }

  ghost predicate ClockRunsStrictly(writes: seq<Write>) {
    forall i, j | 0 <= i < j < |writes| :: writes[i].scan.now < writes[j].scan.now
  }

  function BranchesOf(writes: seq<Write>): set<Branch> {
    set w | w in writes :: w.branch
  }

  /** Under a strictly increasing clock a branch survives exactly when fewer than 12 other branches
      were written after its last write. */
  lemma SurvivesIff(writes: seq<Write>, last: nat)
    requires ClockRunsStrictly(writes) && last < |writes|
    requires forall j | last < j < |writes| :: writes[j].branch != writes[last].branch
    ensures writes[last].branch in Run(writes) <==> |BranchesOf(writes[last + 1..])| < 12
  {
    SurvivorsAreMostRecent(writes);
    NewerAreLater(writes, last);
    assert writes[last].branch in Run(writes) <==> writes[last].branch in ViewStamps(Run(writes));
  }

  lemma NewerAreLater(writes: seq<Write>, last: nat)
    requires ClockRunsStrictly(writes) && last < |writes|
    requires forall j | last < j < |writes| :: writes[j].branch != writes[last].branch
    ensures writes[last].branch in LastStamps(writes)
    ensures NewerThan(LastStamps(writes), writes[last].branch) == BranchesOf(writes[last + 1..])
  {
    StampAtLast(writes, last);
    NewerWrites(writes, last);
    LaterWrites(writes, last);
  }

  lemma NewerWrites(writes: seq<Write>, last: nat)
    requires ClockRunsStrictly(writes) && last < |writes| && writes[last].branch in LastStamps(writes)
    requires LastStamps(writes)[writes[last].branch] == writes[last].scan.now
    ensures NewerThan(LastStamps(writes), writes[last].branch) <= BranchesOf(writes[last + 1..])
  {
    var b, full := writes[last].branch, LastStamps(writes);
    forall c | c in NewerThan(full, b) ensures c in BranchesOf(writes[last + 1..]) {
      NewerIsTotal(full, b, b);
      NewerWrite(writes, last, c);
    }
  }

  lemma LaterWrites(writes: seq<Write>, last: nat)
    requires ClockRunsStrictly(writes) && last < |writes| && writes[last].branch in LastStamps(writes)
    requires LastStamps(writes)[writes[last].branch] == writes[last].scan.now
    ensures BranchesOf(writes[last + 1..]) <= NewerThan(LastStamps(writes), writes[last].branch)
  {
    var b, full, later := writes[last].branch, LastStamps(writes), writes[last + 1..];
    forall c | c in BranchesOf(later) ensures c in NewerThan(full, b) {
      var k :| 0 <= k < |later| && later[k].branch == c;
      LaterWrite(writes, last, last + 1 + k);
    }
  }

  lemma StampAtLast(writes: seq<Write>, last: nat)
    requires last < |writes| && forall j | last < j < |writes| :: writes[j].branch != writes[last].branch
    ensures writes[last].branch in LastStamps(writes)
    ensures LastStamps(writes)[writes[last].branch] == writes[last].scan.now
  {
    WrittenIsStamped(writes, last);
    var i := LastWrite(writes, writes[last].branch);
    assert i == last;
  }

  lemma NewerWrite(writes: seq<Write>, last: nat, c: Branch)
    requires ClockRunsStrictly(writes) && last < |writes|
    requires c in LastStamps(writes) && LastStamps(writes)[c] >= writes[last].scan.now && c != writes[last].branch
    ensures c in BranchesOf(writes[last + 1..])
  {
    var i := LastWrite(writes, c);
    assert i != last;
    assert i > last;
    assert writes[last + 1..][i - last - 1] == writes[i];
  }

  lemma LaterWrite(writes: seq<Write>, last: nat, k: nat)
    requires ClockRunsStrictly(writes) && last < k < |writes|
    ensures writes[k].branch in LastStamps(writes)
    ensures LastStamps(writes)[writes[k].branch] > writes[last].scan.now
  {
    WrittenIsStamped(writes, k);
    var i := LastWrite(writes, writes[k].branch);
    assert i >= k;
  }

  // ---------------------------------------------------------------- what a survivor holds

  function OwnScans(writes: seq<Write>, b: Branch): seq<Scan> {
    if writes == [] then []
    else
      var w := writes[|writes| - 1];
      OwnScans(writes[..|writes| - 1], b) + if w.branch == b then [w.scan] else []
  }

  /** A branch's data is the aging of its own scans since it was last absent, whatever other branches did. */
  lemma {:induction false} BranchesDoNotInterfere(writes: seq<Write>, b: Branch, absent: nat)
    requires LastAbsent(writes, b, absent)
    ensures Holds(writes, b, OwnScans(writes[absent..], b))
  {
    var before := writes[..|writes| - 1];
    if absent < |before| {
      AbsentBefore(writes, b, absent);
      BranchesDoNotInterfere(before, b, absent);
    }
    NextWrite(writes, before, b, absent);
  }

  /** The store has the branch, with the aging of these scans. */
  ghost predicate Holds(writes: seq<Write>, b: Branch, scans: seq<Scan>) {
    b in Run(writes) && Run(writes)[b].data == After(NO_DATA, scans)
  }

  lemma NextWrite(writes: seq<Write>, before: seq<Write>, b: Branch, absent: nat)
    requires LastAbsent(writes, b, absent) && before == writes[..|writes| - 1]
    requires absent < |before| ==> Holds(before, b, OwnScans(before[absent..], b))
    ensures Holds(writes, b, OwnScans(writes[absent..], b))
  {
    var n := |writes| - 1;
    var scans := OwnScansGrow(writes, b, absent);
    PresentNow(writes, b, absent);
    LastWriteAges(writes, b, scans);
  }

  lemma OwnScansGrow(writes: seq<Write>, b: Branch, absent: nat) returns (scans: seq<Scan>)
    requires absent < |writes|
    ensures var n := |writes| - 1;
            && scans == OwnScans(writes[..n][absent..], b) && (absent == n ==> scans == [])
            && OwnScans(writes[absent..], b) == scans + if writes[n].branch == b then [writes[n].scan] else []
  {
    var n := |writes| - 1;
    Slices(writes, absent);
    scans := OwnScans(writes[..n][absent..], b);
    OwnScansSnoc(writes[..n][absent..], writes[n], b);
  }

  /** After the first `absent` writes the branch is not in the store, and after every longer prefix it is. */
  ghost predicate LastAbsent(writes: seq<Write>, b: Branch, absent: nat) {
    && absent < |writes| && b !in Run(writes[..absent])
    && forall i | absent < i <= |writes| :: b in Run(writes[..i])
  }

  lemma PresentNow(writes: seq<Write>, b: Branch, absent: nat)
    requires LastAbsent(writes, b, absent)
    ensures var n := |writes| - 1;
            && b in Run(writes)
            && (absent == n ==> writes[n].branch == b && DataIn(Run(writes[..n]), b) == NO_DATA)
            && (absent < n ==> b in Run(writes[..n]))
  {
    Slices(writes, absent);
  }

  lemma AbsentBefore(writes: seq<Write>, b: Branch, absent: nat)
    requires LastAbsent(writes, b, absent) && absent < |writes| - 1
    ensures LastAbsent(writes[..|writes| - 1], b, absent)
  {
    Slices(writes, absent);
  }

  lemma Slices(writes: seq<Write>, absent: nat)
    requires absent < |writes|
    ensures var n := |writes| - 1;
            var before := writes[..n];
            && writes[..|writes|] == writes
            && writes[absent..] == before[absent..] + [writes[n]]
            && (absent == n ==> before[absent..] == [])
            && forall i | 0 <= i <= n :: before[..i] == writes[..i]
  {
  }

  lemma OwnScansSnoc(writes: seq<Write>, w: Write, b: Branch)
    ensures OwnScans(writes + [w], b) == OwnScans(writes, b) + if w.branch == b then [w.scan] else []
  {
    assert (writes + [w])[..|writes|] == writes;
  }

  /** The last write ages its own branch and leaves a surviving other branch alone. */
  lemma LastWriteAges(writes: seq<Write>, b: Branch, scans: seq<Scan>)
    requires writes != [] && b in Run(writes)
    requires var n := |writes| - 1; DataIn(Run(writes[..n]), b) == After(NO_DATA, scans)
    requires var n := |writes| - 1; b in Run(writes[..n]) || writes[n].branch == b
    ensures var w := writes[|writes| - 1];
            Run(writes)[b].data == After(NO_DATA, scans + if w.branch == b then [w.scan] else [])
  {
    var w := writes[|writes| - 1];
    if w.branch == b {
      assert (scans + [w.scan])[..|scans|] == scans;
    } else {
      assert scans + [] == scans;
    }
  }
}
