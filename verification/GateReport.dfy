/** The gate's view of a report: findings grouped by pillar, each with a fingerprint, and pruning by fingerprint. */
module GateReport {
  import opened Options
  import opened Findings
  import opened Selection

  /** A finding and what identifies it; the detail (line, reason) may drift between scans. */
  datatype Finding = Finding(identity: Print, detail: string)

  datatype Report = Report(
    cycles: seq<Finding>,
    deadCode: seq<Finding>,
    boundaries: seq<Finding>,
    duplication: seq<Finding>,
    smells: seq<Finding>)

  function Items(report: Report, p: Pillar): seq<Finding> {
    match p
    case Cycles => report.cycles
    case DeadCode => report.deadCode
    case Boundaries => report.boundaries
    case Duplication => report.duplication
    case Smells => report.smells
  }

  function PrintsOf(items: seq<Finding>): seq<Print> {
    seq(|items|, i requires 0 <= i < |items| => items[i].identity)
  }

  function Fingerprints(report: Report): Prints {
    map p | p in PILLARS :: PrintsOf(Items(report, p))
  }

  /** The identities of a report's findings. */
  function Identities(report: Report): set<Key> {
    NowKeys(Fingerprints(report))
  }

  ghost predicate HasKey(items: seq<Finding>, k: Key) {
    exists f :: f in items && f.identity.key == k
  }

  lemma InIdentities(report: Report, k: Key)
    ensures k in Identities(report) <==> exists p :: HasKey(Items(report, p), k)
  {
    if k in Identities(report) {
      var p, f :| p in Fingerprints(report) && f in Fingerprints(report)[p] && f.key == k;
      var i :| 0 <= i < |Fingerprints(report)[p]| && Fingerprints(report)[p][i] == f;
      assert Items(report, p)[i].identity == f;
    }
    if p: Pillar :| HasKey(Items(report, p), k) {
      var f :| f in Items(report, p) && f.identity.key == k;
      var i :| 0 <= i < |Items(report, p)| && Items(report, p)[i] == f;
      EveryPillarListed(p);
      assert Fingerprints(report)[p][i] in Fingerprints(report)[p];
    }
  }

  /** A report's identities are those of the findings of all five kinds. */
  lemma IdentitiesExactly(report: Report, k: Key)
    ensures k in Identities(report) <==>
            exists f: Finding :: f.identity.key == k && (f in report.cycles || f in report.deadCode || f in report.boundaries
                                                || f in report.duplication || f in report.smells)
  {
    InIdentities(report, k);
    if f: Finding :| f.identity.key == k && (f in report.cycles || f in report.deadCode || f in report.boundaries
                                    || f in report.duplication || f in report.smells) {
      var p := if f in report.cycles then Cycles else if f in report.deadCode then DeadCode
               else if f in report.boundaries then Boundaries else if f in report.duplication then Duplication else Smells;
      assert f in Items(report, p) && HasKey(Items(report, p), k);
    }
    if p: Pillar :| HasKey(Items(report, p), k) {
      var f :| f in Items(report, p) && f.identity.key == k;
    }
  }

  /** Filtering by identity, keeping the order. */
  function Unseen(items: seq<Finding>, blocked: set<Key>): (kept: seq<Finding>)
    ensures forall f :: f in kept <==> f in items && f.identity.key !in blocked
  {
    if items == [] then []
    else
      var f := items[|items| - 1];
      var kept := Unseen(items[..|items| - 1], blocked);
      assert items == items[..|items| - 1] + [f];
      if f.identity.key in blocked then kept else kept + [f]
  }

  function UnseenReport(report: Report, blocked: set<Key>): Report {
    Report(
      Unseen(report.cycles, blocked),
      Unseen(report.deadCode, blocked),
      Unseen(report.boundaries, blocked),
      Unseen(report.duplication, blocked),
      Unseen(report.smells, blocked))
  }

  /** The findings that are not blocked stay, in their order. */
  lemma UnseenInOrder(items: seq<Finding>, blocked: set<Key>)
    ensures Picks(Unseen(items, blocked), items, set i | 0 <= i < |items| && items[i].identity.key !in blocked)
  {
    var choose := (i: nat) => i < |items| && items[i].identity.key !in blocked;
    UnseenUpTo(items, blocked, |items|, choose);
    assert items[..|items|] == items;
    assert Chosen(|items|, choose) == set i | 0 <= i < |items| && items[i].identity.key !in blocked;
  }

  lemma {:induction false} UnseenUpTo(items: seq<Finding>, blocked: set<Key>, n: nat, choose: nat -> bool)
    requires n <= |items| && forall i: nat | i < |items| :: choose(i) <==> items[i].identity.key !in blocked
    ensures Picks(Unseen(items[..n], blocked), items[..n], Chosen(n, choose))
  {
    if n == 0 {
      PicksNothing(items, choose);
    } else {
      UnseenUpTo(items, blocked, n - 1, choose);
      PicksNext(Unseen(items[..n - 1], blocked), items, n - 1, choose);
      UnseenNext(items, blocked, n);
    }
  }

  lemma UnseenNext(items: seq<Finding>, blocked: set<Key>, n: nat)
    requires 0 < n <= |items|
    ensures Unseen(items[..n], blocked) ==
            if items[n - 1].identity.key !in blocked then Unseen(items[..n - 1], blocked) + [items[n - 1]] else Unseen(items[..n - 1], blocked)
  {
    assert items[..n][..n - 1] == items[..n - 1];
  }

  lemma UnseenKeys(report: Report, blocked: set<Key>, p: Pillar, k: Key)
    ensures HasKey(Items(UnseenReport(report, blocked), p), k) <==> HasKey(Items(report, p), k) && k !in blocked
  {
    assert Items(UnseenReport(report, blocked), p) == Unseen(Items(report, p), blocked);
    if HasKey(Items(report, p), k) && k !in blocked {
      var f :| f in Items(report, p) && f.identity.key == k;
      assert f in Unseen(Items(report, p), blocked);
    }
  }

  lemma UnseenIdentities(report: Report, blocked: set<Key>)
    ensures Identities(UnseenReport(report, blocked)) == Identities(report) - blocked
  {
    forall k ensures k in Identities(UnseenReport(report, blocked)) <==> k in Identities(report) - blocked {
      InIdentities(UnseenReport(report, blocked), k);
      InIdentities(report, k);
      forall p ensures HasKey(Items(UnseenReport(report, blocked), p), k) <==> HasKey(Items(report, p), k) && k !in blocked {
        UnseenKeys(report, blocked, p, k);
      }
    }
  }

  lemma {:induction false} NothingBlocked(items: seq<Finding>)
    ensures Unseen(items, {}) == items
  {
    if items != [] {
      NothingBlocked(items[..|items| - 1]);
    }
  }

  /** Item `i` stays unless print `i` exists and fails `keep`. */
  function Retained<T>(items: seq<T>, prints: seq<Print>, keep: Print -> bool): seq<T> {
    if items == [] then []
    else
      var i := |items| - 1;
      Retained(items[..i], prints, keep) + (if i < |prints| && !keep(prints[i]) then [] else [items[i]])
  }

  /** The items whose print passes stay, and those without a print, in their order. */
  lemma RetainedInOrder<T>(items: seq<T>, prints: seq<Print>, keep: Print -> bool)
    ensures Picks(Retained(items, prints, keep), items, set i | 0 <= i < |items| && (i < |prints| ==> keep(prints[i])))
  {
    var choose := (i: nat) => i < |prints| ==> keep(prints[i]);
    RetainedUpTo(items, prints, keep, |items|, choose);
    assert items[..|items|] == items;
    assert Chosen(|items|, choose) == set i | 0 <= i < |items| && (i < |prints| ==> keep(prints[i]));
  }

  predicate Passes(prints: seq<Print>, keep: Print -> bool, i: nat) {
    i < |prints| ==> keep(prints[i])
  }

  lemma {:induction false} RetainedUpTo<T>(items: seq<T>, prints: seq<Print>, keep: Print -> bool, n: nat, choose: nat -> bool)
    requires n <= |items| && forall i: nat :: choose(i) == Passes(prints, keep, i)
    ensures Picks(Retained(items[..n], prints, keep), items[..n], Chosen(n, choose))
  {
    if n == 0 {
      PicksNothing(items, choose);
    } else {
      RetainedUpTo(items, prints, keep, n - 1, choose);
      RetainedNext(items, prints, keep, n);
      RetainedPicks(Retained(items[..n - 1], prints, keep), Retained(items[..n], prints, keep), items, n - 1, choose);
    }
  }

  lemma RetainedPicks<T>(before: seq<T>, after: seq<T>, items: seq<T>, n: nat, choose: nat -> bool)
    requires n < |items| && Picks(before, items[..n], Chosen(n, choose))
    requires after == if choose(n) then before + [items[n]] else before
    ensures Picks(after, items[..n + 1], Chosen(n + 1, choose))
  {
    PicksNext(before, items, n, choose);
  }

  lemma RetainedNext<T>(items: seq<T>, prints: seq<Print>, keep: Print -> bool, n: nat)
    requires 0 < n <= |items|
    ensures Retained(items[..n], prints, keep) ==
            if Passes(prints, keep, n - 1) then Retained(items[..n - 1], prints, keep) + [items[n - 1]]
            else Retained(items[..n - 1], prints, keep)
  {
    assert items[..n][..n - 1] == items[..n - 1];
  }

  /** Walking a report's findings in lockstep with its own fingerprints is filtering by identity. */
  lemma {:induction false} LockstepIsFilter(items: seq<Finding>, prints: seq<Print>, blocked: set<Key>, keep: Print -> bool)
    requires |items| <= |prints| && forall i | 0 <= i < |items| :: prints[i] == items[i].identity
    requires forall f :: keep(f) <==> f.key !in blocked
    ensures Retained(items, prints, keep) == Unseen(items, blocked)
  {
    if items != [] {
      LockstepIsFilter(items[..|items| - 1], prints, blocked, keep);
    }
  }

  method RetainByFingerprint<T>(items: seq<T>, prints: Option<seq<Print>>, keep: Print -> bool) returns (kept: seq<T>)
    ensures kept == if prints.None? then items else Retained(items, prints.value, keep)
  {
    if prints.None? {
      return items;
    }
    kept := [];
    for i := 0 to |items|
      invariant kept == Retained(items[..i], prints.value, keep)
    {
      assert items[..i + 1][..i] == items[..i];
      if i >= |prints.value| || keep(prints.value[i]) {
        kept := kept + [items[i]];
      }
    }
    assert items[..|items|] == items;
  }

  function FindingCount(report: Report): nat {
    |report.cycles| + |report.deadCode| + |report.boundaries| + |report.duplication| + |report.smells|
  }

  /** Every pillar filtered, and how many findings that leaves. */
  method RetainUnseen(report: Report, blocked: set<Key>) returns (after: Report, remaining: nat)
    ensures after == UnseenReport(report, blocked)
    ensures remaining == |after.cycles| + |after.deadCode| + |after.boundaries| + |after.duplication| + |after.smells|
  {
    if blocked == {} {
      NothingBlocked(report.cycles);
      NothingBlocked(report.deadCode);
      NothingBlocked(report.boundaries);
      NothingBlocked(report.duplication);
      NothingBlocked(report.smells);
      return report, FindingCount(report);
    }
    var prints := Fingerprints(report);
    var cycles := RetainPillar(report, prints, Cycles, blocked);
    var deadCode := RetainPillar(report, prints, DeadCode, blocked);
    var boundaries := RetainPillar(report, prints, Boundaries, blocked);
    var duplication := RetainPillar(report, prints, Duplication, blocked);
    var smells := RetainPillar(report, prints, Smells, blocked);
    after := Report(cycles, deadCode, boundaries, duplication, smells);
    remaining := FindingCount(after);
  }

  method RetainPillar(report: Report, prints: Prints, p: Pillar, blocked: set<Key>) returns (kept: seq<Finding>)
    requires prints == Fingerprints(report)
    ensures kept == Unseen(Items(report, p), blocked)
  {
    EveryPillarListed(p);
    var keep := (f: Print) => f.key !in blocked;
    kept := RetainByFingerprint(Items(report, p), if p in prints then Some(prints[p]) else None, keep);
    LockstepIsFilter(Items(report, p), prints[p], blocked, keep);
  }
}
