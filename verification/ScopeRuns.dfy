/** Scope isolation for any use of the gate's state file: whatever is applied to a scope's state, other
    scopes and the expiry they trigger cannot be noticed. */
module ScopeRuns {
  import opened Clock
  import opened Gate

  /** Applying leaves the time of the update alone. */
  ghost predicate KeepsTime<R>(apply: Apply<R>) {
    forall m, v :: apply(m, v).0.updated == m.updated
  }

  ghost predicate ClockNeverGoesBack(visits: seq<Visit>) {
    forall i, j | 0 <= i < j < |visits| :: visits[i].now <= visits[j].now
  }

  /** The state file after the first `n` visits of any scopes. */
  function File<R>(visits: seq<Visit>, n: nat, apply: Apply<R>): Scopes
    requires n <= |visits|
  {
    if n == 0 then map[] else Updated(File(visits, n - 1, apply), visits[n - 1], apply).0
  }

  function Answer<R>(visits: seq<Visit>, n: nat, apply: Apply<R>): R
    requires n < |visits|
  {
    Updated(File(visits, n, apply), visits[n], apply).1
  }

  /** A scope's memory after visits of its own, with no expiry. */
  function Solo<R>(visits: seq<Visit>, apply: Apply<R>): Memory {
    if visits == [] then FRESH
    else
      var v := visits[|visits| - 1];
      apply(Solo(visits[..|visits| - 1], apply).(updated := v.now), v).0
  }

  /** How the last of a scope's own visits is answered. */
  function SoloAnswer<R>(visits: seq<Visit>, apply: Apply<R>): R
    requires visits != []
  {
    var v := visits[|visits| - 1];
    apply(Solo(visits[..|visits| - 1], apply).(updated := v.now), v).1
  }

  function Own(visits: seq<Visit>, n: nat, scope: string): seq<Visit>
    requires n <= |visits|
  {
    if n == 0 then []
    else if visits[n - 1].scope == scope then Own(visits, n - 1, scope) + [visits[n - 1]]
    else Own(visits, n - 1, scope)
  }

  /** The visits remembered at time `now`. */
  function StillLive(epoch: seq<Visit>, now: nat): seq<Visit> {
    if epoch != [] && Since(now, epoch[|epoch| - 1].now) < SCOPE_TTL_SECS then epoch else []
  }

  /** A scope's visits since it last restarted: when the gap between its own visits reached the limit. */
  function Epoch(own: seq<Visit>): seq<Visit> {
    if own == [] then []
    else
      var v := own[|own| - 1];
      StillLive(Epoch(own[..|own| - 1]), v.now) + [v]
  }

  /** The visits that decide how visit `n` is answered: those its scope remembers, and itself. */
  function Remembered(visits: seq<Visit>, n: nat): (r: seq<Visit>)
    requires n < |visits|
    ensures r != [] && r[|r| - 1] == visits[n]
  {
    StillLive(Epoch(Own(visits, n, visits[n].scope)), visits[n].now) + [visits[n]]
  }

  lemma EpochSnoc(own: seq<Visit>, v: Visit)
    ensures Epoch(own + [v]) == StillLive(Epoch(own), v.now) + [v]
  {
    assert (own + [v])[..|own|] == own;
  }

  lemma SoloSnoc<R>(own: seq<Visit>, v: Visit, apply: Apply<R>)
    ensures Solo(own + [v], apply) == apply(Solo(own, apply).(updated := v.now), v).0
    ensures SoloAnswer(own + [v], apply) == apply(Solo(own, apply).(updated := v.now), v).1
  {
    assert (own + [v])[..|own|] == own;
  }

  /** What the state file holds of a scope at `now` is what its visits since its restart left there. */
  ghost predicate Holds<R>(scopes: Scopes, scope: string, epoch: seq<Visit>, now: nat, apply: Apply<R>) {
    Recalled(scopes, scope, now) == Solo(StillLive(epoch, now), apply)
  }

  lemma OwnVisit<R>(scopes: Scopes, v: Visit, epoch: seq<Visit>, now: nat, apply: Apply<R>)
    requires Holds(scopes, v.scope, epoch, v.now, apply) && KeepsTime(apply)
    ensures Holds(Updated(scopes, v, apply).0, v.scope, StillLive(epoch, v.now) + [v], now, apply)
  {
    var live := StillLive(epoch, v.now);
    SoloSnoc(live, v, apply);
    var m := Updated(scopes, v, apply).0[v.scope];
    assert m == Solo(live + [v], apply);
    assert m.updated == v.now;
  }

  lemma OtherVisit<R>(scopes: Scopes, scope: string, v: Visit, epoch: seq<Visit>, now: nat, apply: Apply<R>)
    requires Holds(scopes, scope, epoch, now, apply) && v.scope != scope && v.now <= now
    ensures Holds(Updated(scopes, v, apply).0, scope, epoch, now, apply)
  {
    if scope in scopes && Live(scopes[scope], now) {
      assert Live(scopes[scope], v.now);
    }
  }

  lemma HoldsNext<R>(scopes: Scopes, v: Visit, own: seq<Visit>, scope: string, now: nat, apply: Apply<R>)
    requires KeepsTime(apply) && v.now <= now
    requires Holds(scopes, scope, Epoch(own), if v.scope == scope then v.now else now, apply)
    ensures Holds(Updated(scopes, v, apply).0, scope, Epoch(if v.scope == scope then own + [v] else own), now, apply)
  {
    if v.scope == scope {
      OwnVisit(scopes, v, Epoch(own), now, apply);
      EpochSnoc(own, v);
    } else {
      OtherVisit(scopes, scope, v, Epoch(own), now, apply);
    }
  }

  /** What a scope recalls is determined by its own visits since it last restarted. */
  lemma {:induction false} RecallsOwnEpoch<R>(visits: seq<Visit>, n: nat, scope: string, now: nat, apply: Apply<R>)
    requires n <= |visits| && ClockNeverGoesBack(visits) && KeepsTime(apply) && (n > 0 ==> visits[n - 1].now <= now)
    ensures Holds(File(visits, n, apply), scope, Epoch(Own(visits, n, scope)), now, apply)
  {
    if n > 0 {
      var v := visits[n - 1];
      RecallsOwnEpoch(visits, n - 1, scope, if v.scope == scope then v.now else now, apply);
      HoldsNext(File(visits, n - 1, apply), v, Own(visits, n - 1, scope), scope, now, apply);
    }
  }

  /** Scope isolation: with a clock that never goes back, however visits of other scopes interleave and
      trigger expiry, a visit is answered from its scope's own visits since that scope's own gap last
      reached the limit. */
  lemma ScopeIsolation<R>(visits: seq<Visit>, n: nat, apply: Apply<R>)
    requires n < |visits| && ClockNeverGoesBack(visits) && KeepsTime(apply)
    ensures Answer(visits, n, apply) == SoloAnswer(Remembered(visits, n), apply)
  {
    var v := visits[n];
    RecallsOwnEpoch(visits, n, v.scope, v.now, apply);
    SoloSnoc(StillLive(Epoch(Own(visits, n, v.scope)), v.now), v, apply);
  }

  /** A scope restarts exactly when its own idle gap reaches the limit; otherwise it recalls its visit before. */
  lemma RestartsExactly(visits: seq<Visit>, n: nat)
    requires n < |visits| && ClockNeverGoesBack(visits)
    ensures var own := Own(visits, n, visits[n].scope);
            var remembered := Remembered(visits, n);
            if own == [] || visits[n].now - own[|own| - 1].now >= 7 * 86_400
            then remembered == [visits[n]]
            else |remembered| > 1 && remembered[|remembered| - 2] == own[|own| - 1]
  {
    OwnAreOlder(visits, n, visits[n].scope);
  }

  lemma {:induction false} OwnAreOlder(visits: seq<Visit>, n: nat, scope: string)
    requires n < |visits| && ClockNeverGoesBack(visits)
    ensures forall v | v in Own(visits, n, scope) :: v.now <= visits[n].now
  {
    if n > 0 {
      OwnAreOlder(visits, n - 1, scope);
    }
  }
}
