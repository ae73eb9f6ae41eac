/** The gate over whole runs: what its triage reports and remembers is the edge memory of each scope's own
    visits, whatever other scopes do. */
module GateRuns {
  import opened Findings
  import opened GateReport
  import opened Gate
  import opened EdgeMemory
  import opened ScopeRuns

  // ---------------------------------------------------------------- one scope

  function SoloReply(visits: seq<Visit>, suppress: Suppress): Reply
    requires visits != []
  {
    SoloAnswer(visits, TriageWith(suppress))
  }

  function Found(v: Visit): set<Key> {
    Identities(v.report)
  }

  /** What each visit found and reported. */
  function Stops(visits: seq<Visit>, suppress: Suppress): (stops: seq<Stop>)
    ensures |stops| == |visits|
  {
    if visits == [] then []
    else
      Stops(visits[..|visits| - 1], suppress) +
      [Stop(Found(visits[|visits| - 1]), Identities(SoloReply(visits, suppress).report))]
  }

  /** One triage, on identities. */
  lemma TriageStep(m: Memory, v: Visit, suppress: Suppress)
    requires OnlyDrops(suppress)
    ensures var (m', reply) := Triaged(m, v, suppress);
            var current := Found(v);
            && m'.blocked == m.blocked * current + Identities(reply.report)
            && m'.resolved == m.resolved + m.blocked - current
            && reply.reintroduced == m.resolved * current
            && Identities(reply.report) <= current - m.blocked
            && (DropsNothing(suppress) ==> Identities(reply.report) == current - m.blocked)
  {
    UnseenIdentities(v.report, m.blocked);
    var repeats := if v.branch in m.repeats then m.repeats[v.branch] else NO_REPEATS;
    var unseen := UnseenReport(v.report, m.blocked);
    assert Identities(suppress(repeats, unseen, v.limit, v.now).1) <= Identities(unseen);
  }

  lemma {:induction false} MemoryOfPrefix(a: seq<Stop>, b: seq<Stop>, n: nat)
    requires n <= |a| && n <= |b| && a[..n] == b[..n]
    ensures Blocked(a, n) == Blocked(b, n) && Resolved(a, n) == Resolved(b, n)
  {
    if n > 0 {
      assert a[..n][n - 1] == b[..n][n - 1];
      assert a[..n - 1] == a[..n][..n - 1] && b[..n - 1] == b[..n][..n - 1];
      MemoryOfPrefix(a, b, n - 1);
    }
  }

  lemma StopsSnoc(stops: seq<Stop>, s: Stop)
    ensures var n := |stops|;
            && Blocked(stops + [s], n + 1) == Blocked(stops, n) * s.current + s.reported
            && Resolved(stops + [s], n + 1) == Resolved(stops, n) + Blocked(stops, n) - s.current
            && Blocked(stops + [s], n) == Blocked(stops, n) && Resolved(stops + [s], n) == Resolved(stops, n)
  {
    assert (stops + [s])[..|stops|] == stops[..|stops|];
    MemoryOfPrefix(stops + [s], stops, |stops|);
  }

  lemma ReportAtSnoc(stops: seq<Stop>, s: Stop, n: nat)
    requires n < |stops|
    ensures UnblockedAt(stops + [s], n) == UnblockedAt(stops, n) && AllAt(stops + [s], n) == AllAt(stops, n)
  {
    assert (stops + [s])[..n] == stops[..n];
    MemoryOfPrefix(stops + [s], stops, n);
  }

  lemma ReportsSnoc(stops: seq<Stop>, s: Stop)
    ensures ReportsUnblocked(stops) && UnblockedAt(stops + [s], |stops|) ==> ReportsUnblocked(stops + [s])
    ensures ReportsAll(stops) && AllAt(stops + [s], |stops|) ==> ReportsAll(stops + [s])
  {
    forall n | 0 <= n < |stops| ensures UnblockedAt(stops + [s], n) == UnblockedAt(stops, n) && AllAt(stops + [s], n) == AllAt(stops, n) {
      ReportAtSnoc(stops, s, n);
    }
  }

  /** The persisted memory of a scope is the edge memory of its visits, and each visit's answer follows from it. */
  lemma {:induction false} TriageIsEdgeMemory(visits: seq<Visit>, suppress: Suppress)
    requires OnlyDrops(suppress)
    ensures var stops := Stops(visits, suppress);
            && Solo(visits, TriageWith(suppress)).blocked == Blocked(stops, |visits|)
            && Solo(visits, TriageWith(suppress)).resolved == Resolved(stops, |visits|)
            && ReportsUnblocked(stops)
            && (DropsNothing(suppress) ==> ReportsAll(stops))
            && (visits != [] ==> SoloReply(visits, suppress).reintroduced == Reintroduced(stops, |visits| - 1))
  {
    if visits != [] {
      var before, v := visits[..|visits| - 1], visits[|visits| - 1];
      TriageIsEdgeMemory(before, suppress);
      var stop := Stop(Found(v), Identities(SoloReply(visits, suppress).report));
      TriageStep(Solo(before, TriageWith(suppress)).(updated := v.now), v, suppress);
      StopsSnoc(Stops(before, suppress), stop);
      ReportsSnoc(Stops(before, suppress), stop);
    }
  }

  // ---------------------------------------------------------------- all scopes

  /** The gate as a whole, under any deferral: a finding is flagged exactly when its scope reported it,
      it stayed until it was fixed, and it was missing until this visit; nothing still blocked is reported. */
  lemma GateRemembersItsScope(visits: seq<Visit>, n: nat, k: Key, suppress: Suppress)
    requires n < |visits| && ClockNeverGoesBack(visits) && OnlyDrops(suppress)
    ensures var reply := Answer(visits, n, TriageWith(suppress));
            var stops := Stops(Remembered(visits, n), suppress);
            var last := |stops| - 1;
            && stops[last] == Stop(Found(visits[n]), Identities(reply.report))
            && (k in reply.reintroduced <==> k in Found(visits[n]) && EverFixed(stops, k, last))
            && (k in Identities(reply.report) ==> k in Found(visits[n]) && !EverReportedSince(stops, k, last))
  {
    ScopeIsolation(visits, n, TriageWith(suppress));
    var remembered := Remembered(visits, n);
    TriageIsEdgeMemory(remembered, suppress);
    var stops := Stops(remembered, suppress);
    ReintroducedExactly(stops, k, |stops| - 1);
    BlockedExactly(stops, k, |stops| - 1);
    ReportedIsCurrent(stops, |stops| - 1);
  }

  ghost predicate FoundEarlier(visits: seq<Visit>, k: Key, n: nat) {
    exists i :: 0 <= i < n && i < |visits| && k in Found(visits[i])
  }

  /** The gate as a whole, without deferral: a visit reports exactly what its scope's visit before did not
      find, or everything once the scope was idle for the limit, and flags exactly the findings some
      earlier visit of the scope since then found. */
  lemma GateIsEdgeDetector(visits: seq<Visit>, n: nat, suppress: Suppress)
    requires n < |visits| && ClockNeverGoesBack(visits) && OnlyDrops(suppress) && DropsNothing(suppress)
    ensures var reply := Answer(visits, n, TriageWith(suppress));
            var own := Own(visits, n, visits[n].scope);
            var idle := own == [] || visits[n].now - own[|own| - 1].now >= 7 * 86_400;
            var remembered := Remembered(visits, n);
            var last := |remembered| - 1;
            && Identities(reply.report) ==
               Found(visits[n]) - (if idle then {} else Found(own[|own| - 1]))
            && forall k :: k in reply.reintroduced <==>
                 k in Identities(reply.report) && FoundEarlier(remembered, k, last)
  {
    ScopeIsolation(visits, n, TriageWith(suppress));
    var remembered := Remembered(visits, n);
    TriageIsEdgeMemory(remembered, suppress);
    RisingEdge(Stops(remembered, suppress), |remembered| - 1);
    RestartsExactly(visits, n);
    if |remembered| > 1 {
      StopFinds(remembered, |remembered| - 2, suppress);
    }
    var stops, last := Stops(remembered, suppress), |remembered| - 1;
    forall k ensures SeenEarlier(stops, k, last) <==> FoundEarlier(remembered, k, last) {
      SeenInVisits(remembered, k, last, suppress);
    }
  }

  lemma {:induction false} StopFinds(visits: seq<Visit>, i: nat, suppress: Suppress)
    requires i < |visits|
    ensures Stops(visits, suppress)[i].current == Found(visits[i])
  {
    if i < |visits| - 1 {
      StopFinds(visits[..|visits| - 1], i, suppress);
    }
  }

  lemma SeenInVisits(visits: seq<Visit>, k: Key, n: nat, suppress: Suppress)
    requires n <= |visits|
    ensures SeenEarlier(Stops(visits, suppress), k, n) <==> FoundEarlier(visits, k, n)
  {
    var stops := Stops(visits, suppress);
    if SeenEarlier(stops, k, n) {
      var i: nat :| i < n && i < |stops| && k in stops[i].current;
      StopFinds(visits, i, suppress);
    }
    if FoundEarlier(visits, k, n) {
      var i: nat :| i < n && i < |visits| && k in Found(visits[i]);
      StopFinds(visits, i, suppress);
    }
  }
}
