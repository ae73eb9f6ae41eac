/** The stop-hook gate: reports each finding once, until it is fixed and comes back. Its memory is kept per
    scope (an agent session) and expires when a scope stays idle. */
module Gate {
  import opened Clock
  import opened Findings
  import opened GateReport

  const SCOPE_TTL_SECS: nat := 7 * 86_400

  /** What repeat suppression remembers of one branch. */
  type RepeatState = string

  const NO_REPEATS: RepeatState := ""

  /** Repeat suppression: from its memory, a report, the repeat limit and the time, to its new memory,
      what it leaves of the report and how many findings it defers. */
  type Suppress = (RepeatState, Report, nat, nat) -> (RepeatState, Report, nat)

  /** Suppression only ever drops findings. */
  ghost predicate OnlyDrops(suppress: Suppress) {
    forall r, report, limit, now :: Identities(suppress(r, report, limit, now).1) <= Identities(report)
  }

  ghost predicate DropsNothing(suppress: Suppress) {
    forall r, report, limit, now :: Identities(suppress(r, report, limit, now).1) == Identities(report)
  }

  /** The persisted state of one scope. */
  datatype Memory = Memory(updated: nat, blocked: set<Key>, resolved: set<Key>, repeats: map<string, RepeatState>)

  const FRESH := Memory(0, {}, {}, map[])

  /** One run of the gate. */
  datatype Visit = Visit(scope: string, now: nat, branch: string, report: Report, limit: nat)

  /** The findings left to report, the identities flagged as coming back, and how many findings were deferred. */
  datatype Reply = Reply(report: Report, reintroduced: set<Key>, deferred: nat)

  // ---------------------------------------------------------------- specification

  /** One triage: findings still blocked are not reported again, missing ones become fixed, and fixed ones
      that are back are flagged; what suppression leaves is reported and blocked. */
  function Triaged(m: Memory, v: Visit, suppress: Suppress): (Memory, Reply) {
    var current := Identities(v.report);
    var repeats := if v.branch in m.repeats then m.repeats[v.branch] else NO_REPEATS;
    var (repeats', reported, deferred) := suppress(repeats, UnseenReport(v.report, m.blocked), v.limit, v.now);
    (Memory(m.updated, m.blocked * current + Identities(reported), m.resolved + m.blocked - current,
            m.repeats[v.branch := repeats']),
     Reply(reported, m.resolved * current, deferred))
  }

  type Scopes = map<string, Memory>

  predicate Live(m: Memory, now: nat) {
    Since(now, m.updated) < SCOPE_TTL_SECS
  }

  function Unexpired(scopes: Scopes, now: nat): Scopes {
    map s | s in scopes && Live(scopes[s], now) :: scopes[s]
  }

  /** What a scope finds of its own past. */
  function Recalled(scopes: Scopes, scope: string, now: nat): Memory {
    if scope in scopes && Live(scopes[scope], now) then scopes[scope] else FRESH
  }

  /** What is done to a visiting scope's state. */
  type Apply<!R> = (Memory, Visit) -> (Memory, R)

  /** One visit to the state file: `apply` sees what `Recalled` finds, stamped with the time of the visit. */
  function Updated<R>(scopes: Scopes, v: Visit, apply: Apply<R>): (Scopes, R) {
    var (m, r) := apply(Recalled(scopes, v.scope, v.now).(updated := v.now), v);
    (Unexpired(scopes, v.now)[v.scope := m], r)
  }

  function TriageWith(suppress: Suppress): Apply<Reply> {
    (m: Memory, v: Visit) => Triaged(m, v, suppress)
  }

  // ---------------------------------------------------------------- the code

  /** The findings of `report` unaffected by whether blocked identities outside it are forgotten first. */
  lemma {:induction false} UnseenOnlyCares(items: seq<Finding>, blocked: set<Key>, current: set<Key>)
    requires forall f | f in items :: f.identity.key in current
    ensures Unseen(items, blocked * current) == Unseen(items, blocked)
  {
    if items != [] {
      assert items == items[..|items| - 1] + [items[|items| - 1]];
      UnseenOnlyCares(items[..|items| - 1], blocked, current);
    }
  }

  lemma UnseenOfCurrent(report: Report, blocked: set<Key>)
    ensures UnseenReport(report, blocked * Identities(report)) == UnseenReport(report, blocked)
  {
    forall p, f | f in Items(report, p) ensures f.identity.key in Identities(report) {
      InIdentities(report, f.identity.key);
      assert HasKey(Items(report, p), f.identity.key);
    }
    forall p ensures Unseen(Items(report, p), blocked * Identities(report)) == Unseen(Items(report, p), blocked) {
      UnseenOnlyCares(Items(report, p), blocked, Identities(report));
    }
    assert Items(report, Cycles) == report.cycles && Items(report, DeadCode) == report.deadCode;
    assert Items(report, Boundaries) == report.boundaries && Items(report, Duplication) == report.duplication;
    assert Items(report, Smells) == report.smells;
  }

  class ScopeState {
    var updated: nat
    var blocked: set<Key>
    var resolved: set<Key>
    var repeats: map<string, RepeatState>

    ghost function Value(): Memory
      reads this
    {
      Memory(updated, blocked, resolved, repeats)
    }

    constructor (m: Memory)
      ensures Value() == m
    {
      updated, blocked, resolved, repeats := m.updated, m.blocked, m.resolved, m.repeats;
    }

    /** Blocked identities missing from the report move to the resolved ones, resolved ones in it are returned, and
        the report loses every identity that was blocked before. */
    method Recall(report: Report) returns (unseen: Report, reintroduced: set<Key>)
      modifies this
      ensures var current := Identities(report);
              && Value() == old(Value()).(blocked := old(blocked) * current, resolved := old(resolved) + old(blocked) - current)
              && reintroduced == old(resolved) * current
      ensures unseen == UnseenReport(report, old(blocked))
    {
      var current := Identities(report);
      ForgetFixed(current);
      reintroduced := resolved * current;
      resolved := resolved - reintroduced;
      assert reintroduced == old(resolved) * current;
      assert resolved == old(resolved) + old(blocked) - current;
      UnseenOfCurrent(report, old(blocked));
      var remaining;
      unseen, remaining := RetainUnseen(report, blocked);
    }

    /** Moves blocked findings that are gone to the resolved ones. */
    method ForgetFixed(current: set<Key>)
      modifies this`blocked, this`resolved
      ensures blocked == old(blocked) * current && resolved == old(resolved) + (old(blocked) - current)
    {
      var fixed := blocked - current;
      ghost var done: set<Key> := {};
      while fixed != {}
        invariant fixed !! done && fixed + done == old(blocked) - current
        invariant blocked == old(blocked) - done && resolved == old(resolved) + done
        decreases |fixed|
      {
        var key :| key in fixed;
        fixed, done := fixed - {key}, done + {key};
        blocked := blocked - {key};
        resolved := resolved + {key};
      }
      assert done == old(blocked) - current && old(blocked) - done == old(blocked) * current;
    }

    /** The blocked identities grow by those of the report, and nothing else changes. */
    method Remember(report: Report)
      modifies this
      ensures Value() == old(Value()).(blocked := old(blocked) + Identities(report))
    {
      blocked := blocked + Identities(report);
    }

    /** The object makes the transition `Triaged` of its value. */
    method Triage(v: Visit, suppress: Suppress) returns (reply: Reply)
      modifies this
      ensures (Value(), reply) == Triaged(old(Value()), v, suppress)
    {
      var unseen, reintroduced := Recall(v.report);
      var branchRepeats := if v.branch in repeats then repeats[v.branch] else NO_REPEATS;
      var (next, reported, deferred) := suppress(branchRepeats, unseen, v.limit, v.now);
      repeats := repeats[v.branch := next];
      Remember(reported);
      reply := Reply(reported, reintroduced, deferred);
    }
  }

  /** The state file, shared by every scope. */
  class GateFile {
    var scopes: Scopes

    constructor ()
      ensures scopes == map[]
    {
      scopes := map[];
    }

    method Expire(now: nat)
      modifies this
      ensures scopes == Unexpired(old(scopes), now)
    {
      scopes := map s | s in scopes && Since(now, scopes[s].updated) < SCOPE_TTL_SECS :: scopes[s];
    }

    /** The file makes the transition `Updated`, with triage applied to the visiting scope. */
    method Update(v: Visit, suppress: Suppress) returns (reply: Reply)
      modifies this
      ensures (scopes, reply) == Updated(old(scopes), v, TriageWith(suppress))
    {
      Expire(v.now);
      var m := if v.scope in scopes then scopes[v.scope] else FRESH;
      var state := new ScopeState(m);
      state.updated := v.now;
      reply := state.Triage(v, suppress);
      scopes := scopes[v.scope := Memory(state.updated, state.blocked, state.resolved, state.repeats)];
    }
  }
}
