/** The gate's memory of one scope, on identities alone: what is found and what is reported at each visit
    decide what is blocked and what counts as fixed. */
module EdgeMemory {
  import opened Findings

  /** One visit: the identities found, and those of them reported. */
  datatype Stop = Stop(current: set<Key>, reported: set<Key>)

  /** The findings blocked after the first `n` visits. */
  function Blocked(stops: seq<Stop>, n: nat): set<Key>
    requires n <= |stops|
  {
    if n == 0 then {} else Blocked(stops, n - 1) * stops[n - 1].current + stops[n - 1].reported
  }

  /** The findings remembered as fixed after the first `n` visits. */
  function Resolved(stops: seq<Stop>, n: nat): set<Key>
    requires n <= |stops|
  {
    if n == 0 then {} else Resolved(stops, n - 1) + Blocked(stops, n - 1) - stops[n - 1].current
  }

  /** The findings flagged as coming back at visit `n`. */
  function Reintroduced(stops: seq<Stop>, n: nat): set<Key>
    requires n < |stops|
  {
    Resolved(stops, n) * stops[n].current
  }

  predicate UnblockedAt(stops: seq<Stop>, n: nat)
    requires n < |stops|
  {
    stops[n].reported <= stops[n].current - Blocked(stops, n)
  }

  predicate AllAt(stops: seq<Stop>, n: nat)
    requires n < |stops|
  {
    stops[n].reported == stops[n].current - Blocked(stops, n)
  }

  /** Only findings found and not blocked are reported, whatever is deferred. */
  ghost predicate ReportsUnblocked(stops: seq<Stop>) {
    forall n | 0 <= n < |stops| :: UnblockedAt(stops, n)
  }

  /** Nothing is deferred. */
  ghost predicate ReportsAll(stops: seq<Stop>) {
    forall n | 0 <= n < |stops| :: AllAt(stops, n)
  }

  // ---------------------------------------------------------------- under any deferral

  /** `k` is found by every visit from `i` up to, not including, `n`. */
  ghost predicate Present(stops: seq<Stop>, k: Key, i: nat, n: nat) {
    n <= |stops| && forall j | i <= j < n :: k in stops[j].current
  }

  ghost predicate Absent(stops: seq<Stop>, k: Key, i: nat, n: nat) {
    n <= |stops| && forall j | i <= j < n :: k !in stops[j].current
  }

  ghost predicate ReportedSince(stops: seq<Stop>, k: Key, i: nat, n: nat) {
    i < n <= |stops| && k in stops[i].reported && Present(stops, k, i, n)
  }

  /** Reported at `i`, there until it went missing at `gone`, and missing ever since. */
  ghost predicate FixedAt(stops: seq<Stop>, k: Key, i: nat, gone: nat, n: nat) {
    gone < n && ReportedSince(stops, k, i, gone) && Absent(stops, k, gone, n)
  }

  /** After every visit the blocked findings are present and the fixed ones absent. */
  lemma MemoryFits(stops: seq<Stop>, n: nat)
    requires n < |stops| && ReportsUnblocked(stops)
    ensures Blocked(stops, n + 1) <= stops[n].current
    ensures Resolved(stops, n + 1) * stops[n].current == {}
    ensures Blocked(stops, n) * stops[n].reported == {}
  {
    ReportedIsCurrent(stops, n);
  }

  ghost predicate EverReportedSince(stops: seq<Stop>, k: Key, n: nat) {
    exists i :: ReportedSince(stops, k, i, n)
  }

  ghost predicate EverFixed(stops: seq<Stop>, k: Key, n: nat) {
    exists i, gone :: FixedAt(stops, k, i, gone, n)
  }

  lemma ReportedIsCurrent(stops: seq<Stop>, n: nat)
    requires n < |stops| && ReportsUnblocked(stops)
    ensures stops[n].reported <= stops[n].current && stops[n].reported !! Blocked(stops, n)
  {
    assert UnblockedAt(stops, n);
  }

  lemma ReportedStep(stops: seq<Stop>, k: Key, n: nat)
    requires n < |stops| && stops[n].reported <= stops[n].current
    ensures EverReportedSince(stops, k, n + 1) <==>
            k in stops[n].reported || (k in stops[n].current && EverReportedSince(stops, k, n))
  {
    if k in stops[n].reported {
      assert ReportedSince(stops, k, n, n + 1);
    } else if k in stops[n].current && EverReportedSince(stops, k, n) {
      var i :| ReportedSince(stops, k, i, n);
      assert ReportedSince(stops, k, i, n + 1);
    } else if EverReportedSince(stops, k, n + 1) {
      var i: nat :| ReportedSince(stops, k, i, n + 1);
      assert i < n && ReportedSince(stops, k, i, n);
    }
  }

  lemma FixedStep(stops: seq<Stop>, k: Key, n: nat)
    requires n < |stops|
    ensures EverFixed(stops, k, n + 1) <==>
            k !in stops[n].current && (EverReportedSince(stops, k, n) || EverFixed(stops, k, n))
  {
    if k in stops[n].current {
    } else if EverReportedSince(stops, k, n) {
      var i :| ReportedSince(stops, k, i, n);
      assert FixedAt(stops, k, i, n, n + 1);
    } else if EverFixed(stops, k, n) {
      var i, gone :| FixedAt(stops, k, i, gone, n);
      assert FixedAt(stops, k, i, gone, n + 1);
    } else if EverFixed(stops, k, n + 1) {
      var i: nat, gone: nat :| FixedAt(stops, k, i, gone, n + 1);
      if gone < n {
        assert FixedAt(stops, k, i, gone, n);
      }
    }
  }

  /** A finding is blocked exactly when it was reported and has been present ever since. */
  lemma {:induction false} BlockedExactly(stops: seq<Stop>, k: Key, n: nat)
    requires n <= |stops| && ReportsUnblocked(stops)
    ensures k in Blocked(stops, n) <==> EverReportedSince(stops, k, n)
  {
    if n > 0 {
      BlockedExactly(stops, k, n - 1);
      ReportedIsCurrent(stops, n - 1);
      ReportedStep(stops, k, n - 1);
    }
  }

  /** A finding is remembered as fixed exactly when it was reported, stayed until it went missing, and has
      been missing ever since. */
  lemma {:induction false} ResolvedExactly(stops: seq<Stop>, k: Key, n: nat)
    requires n <= |stops| && ReportsUnblocked(stops)
    ensures k in Resolved(stops, n) <==> EverFixed(stops, k, n)
  {
    if n > 0 {
      ResolvedExactly(stops, k, n - 1);
      BlockedExactly(stops, k, n - 1);
      FixedStep(stops, k, n - 1);
    }
  }

  /** A finding is flagged exactly when it was reported, fixed, and missing until this visit. */
  lemma ReintroducedExactly(stops: seq<Stop>, k: Key, n: nat)
    requires n < |stops| && ReportsUnblocked(stops)
    ensures k in Reintroduced(stops, n) <==> k in stops[n].current && EverFixed(stops, k, n)
  {
    ResolvedExactly(stops, k, n);
  }

  /** A finding is reported at most once between two of its absences. */
  lemma ReportedOnce(stops: seq<Stop>, k: Key, i: nat, j: nat)
    requires i < j < |stops| && ReportsUnblocked(stops)
    requires k in stops[i].reported && k in stops[j].reported
    ensures exists m :: i < m < j && k !in stops[m].current
  {
    BlockedExactly(stops, k, j);
    ReportedIsCurrent(stops, i);
    ReportedIsCurrent(stops, j);
    assert !ReportedSince(stops, k, i, j);
  }

  // ---------------------------------------------------------------- without deferral

  function Previous(stops: seq<Stop>, n: nat): set<Key>
    requires n <= |stops|
  {
    if n == 0 then {} else stops[n - 1].current
  }

  ghost predicate SeenEarlier(stops: seq<Stop>, k: Key, n: nat) {
    exists i :: 0 <= i < n && i < |stops| && k in stops[i].current
  }

  lemma {:induction false} MemoryWithoutDeferral(stops: seq<Stop>, n: nat)
    requires n <= |stops| && ReportsAll(stops)
    ensures Blocked(stops, n) == Previous(stops, n)
    ensures forall k :: k in Resolved(stops, n) <==> SeenEarlier(stops, k, n) && k !in Previous(stops, n)
  {
    if n > 0 {
      MemoryWithoutDeferral(stops, n - 1);
      assert AllAt(stops, n - 1);
      forall k ensures SeenEarlier(stops, k, n) <==> SeenEarlier(stops, k, n - 1) || k in stops[n - 1].current {
        if i: nat :| i < n - 1 && i < |stops| && k in stops[i].current {
          assert SeenEarlier(stops, k, n);
        }
      }
    }
  }

  /** Without deferral the gate is a rising-edge detector: a visit reports exactly what the one before did
      not find, and flags exactly those of them that some earlier visit found. */
  lemma RisingEdge(stops: seq<Stop>, n: nat)
    requires n < |stops| && ReportsAll(stops)
    ensures stops[n].reported == stops[n].current - Previous(stops, n)
    ensures forall k :: k in Reintroduced(stops, n) <==> k in stops[n].reported && SeenEarlier(stops, k, n)
  {
    MemoryWithoutDeferral(stops, n);
    assert AllAt(stops, n);
  }
}
