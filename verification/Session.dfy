/** The four parse states used last, and their replacement. */
module Session {
  import opened Recency

  const MAX_WORKSPACES: nat := 4

  /** The parse facts of one workspace, shared with the scans that use them. */
  class ParseCacheState {
    var facts: map<string, string>

    constructor ()
      ensures facts == map[]
    {
      facts := map[];
    }

    /** Replaces the facts by those of the last parse. */
    method Replace(parsed: map<string, string>)
      modifies this
      ensures facts == parsed
    {
      facts := parsed;
    }
  }

  datatype Entry = Entry(state: ParseCacheState, lastUsed: nat)

  class AnalysisSession {
    var states: map<Name, Entry>

    ghost function Uses(): Stamps
      reads this
    {
      map r | r in states :: states[r].lastUsed
    }

    ghost predicate Valid()
      reads this
    {
      |Uses()| <= MAX_WORKSPACES && Distinct(Uses())
    }

    constructor ()
      ensures Valid() && states == map[]
    {
      states := map[];
    }

    /** The parse state of a workspace: the one held, or a new one in place of the least recently used. */
    method Workspace(root: Name, now: nat) returns (state: ParseCacheState)
      requires Valid() && Before(now)
      modifies this
      ensures Valid() && Uses() == Top(old(Uses())[root := now], MAX_WORKSPACES)
      ensures root in states && states[root] == Entry(state, now)
      ensures if root in old(states) then state == old(states)[root].state else fresh(state) && state.facts == map[]
      ensures forall r | r in states && r != root :: r in old(states) && states[r] == old(states)[r]
      ensures forall r | r in old(states) && r !in states ::
                |old(states)| == 4 && root !in old(states) && forall other | other in old(states) && other != r :: old(states)[r].lastUsed < old(states)[other].lastUsed
    {
      if root in states {
        state := states[root].state;
        UsesSize();
        NothingToEvict(Uses(), root, now);
      } else {
        MakeRoom(root, now);
        state := new ParseCacheState();
      }
      Enter(root, state, now);
    }

    /** Evicts the least recently used workspace when a new one would be too many. */
    method MakeRoom(root: Name, now: nat)
      requires Valid() && Before(now) && root !in states
      modifies this
      ensures Uses()[root := now] == Top(old(Uses())[root := now], MAX_WORKSPACES)
      ensures |Uses()[root := now]| <= MAX_WORKSPACES && Distinct(Uses()[root := now])
      ensures forall r | r in states :: r in old(states) && states[r] == old(states)[r]
      ensures forall r | r in old(states) && r !in states ::
                |old(states)| == 4 && forall other | other in old(states) && other != r :: old(states)[r].lastUsed < old(states)[other].lastUsed
    {
      UsesSize();
      if |states| >= MAX_WORKSPACES {
        var lru := LeastRecent();
        EvictingIsPruning(Uses(), lru, root, now);
        Evict(lru);
      } else {
        NothingToEvict(Uses(), root, now);
      }
    }

    method Evict(lru: Name)
      modifies this
      ensures states == old(states) - {lru} && Uses() == old(Uses()) - {lru}
    {
      states := states - {lru};
      assert Uses() == old(Uses()) - {lru};
    }

    ghost predicate Before(now: nat)
      reads this
    {
      forall r | r in states :: states[r].lastUsed < now
    }

    lemma UsesSize()
      ensures |Uses()| == |states|
    {
      assert Uses().Keys == states.Keys;
    }

    method Enter(root: Name, state: ParseCacheState, now: nat)
      modifies this
      ensures states == old(states)[root := Entry(state, now)] && Uses() == old(Uses())[root := now]
    {
      states := states[root := Entry(state, now)];
      assert Uses() == old(Uses())[root := now];
    }

    method LeastRecent() returns (lru: Name)
      requires Valid() && states != map[]
      ensures lru in states && forall r | r in states && r != lru :: states[lru].lastUsed < states[r].lastUsed
    {
      lru :| lru in states;
      var rest := states.Keys - {lru};
      while rest != {}
        invariant rest <= states.Keys && lru in states && lru !in rest
        invariant forall r | r in states && r !in rest && r != lru :: states[lru].lastUsed < states[r].lastUsed
        decreases |rest|
      {
        var r :| r in rest;
        rest := rest - {r};
        assert Uses()[r] != Uses()[lru];
        if states[r].lastUsed < states[lru].lastUsed {
          lru := r;
        }
      }
    }
  }

  ghost predicate Distinct(s: Stamps) {
    forall a, b | a in s && b in s && a != b :: s[a] != s[b]
  }

  lemma NothingToEvict(s: Stamps, root: Name, now: nat)
    requires |s| <= MAX_WORKSPACES && (|s| < MAX_WORKSPACES || root in s)
    requires Distinct(s) && forall r | r in s :: s[r] < now
    ensures Top(s[root := now], MAX_WORKSPACES) == s[root := now] && |s[root := now]| <= MAX_WORKSPACES
    ensures Distinct(s[root := now])
  {
    var s' := s[root := now];
    assert s'.Keys == s.Keys + {root};
    NothingStale(s', MAX_WORKSPACES);
  }

  lemma NothingStale(s: Stamps, cap: nat)
    requires |s.Keys| <= cap
    ensures Stale(s, cap) == {} && Top(s, cap) == s
  {
    forall b | b in s ensures |NewerThan(s, b)| < cap {
      NewerIsTotal(s, b, b);
      SubsetSize(NewerThan(s, b), s.Keys - {b});
    }
  }

  lemma EvictingIsPruning(s: Stamps, lru: Name, root: Name, now: nat)
    requires |s| == MAX_WORKSPACES && root !in s && lru in s
    requires Distinct(s) && (forall r | r in s :: s[r] < now) && forall r | r in s && r != lru :: s[lru] < s[r]
    ensures (s - {lru})[root := now] == Top(s[root := now], MAX_WORKSPACES)
    ensures Distinct((s - {lru})[root := now]) && |(s - {lru})[root := now]| == MAX_WORKSPACES
  {
    var s' := s[root := now];
    assert s'.Keys == s.Keys + {root};
    OldestIsStale(s', lru, MAX_WORKSPACES);
    assert (s - {lru})[root := now] == s' - {lru};
    assert Top(s', MAX_WORKSPACES) == s' - {lru};
    assert (s' - {lru}).Keys == s'.Keys - {lru};
    StillDistinct(s, lru, root, now);
  }

  lemma StillDistinct(s: Stamps, lru: Name, root: Name, now: nat)
    requires Distinct(s) && forall r | r in s :: s[r] < now
    ensures Distinct((s - {lru})[root := now])
  {
  }

  lemma OldestIsStale(s: Stamps, lru: Name, cap: nat)
    requires lru in s && |s.Keys| == cap + 1 && forall r | r in s && r != lru :: s[lru] < s[r]
    ensures forall b :: b in Stale(s, cap) <==> b == lru
  {
    NewerIsTotal(s, lru, lru);
    assert NewerThan(s, lru) == s.Keys - {lru};
    forall b | b in s && b != lru ensures |NewerThan(s, b)| < cap {
      NewerIsTotal(s, b, b);
      assert !Newer(s, lru, b);
      SubsetSize(NewerThan(s, b), s.Keys - {b} - {lru});
    }
  }

  // ---------------------------------------------------------------- runs

  datatype Access = Access(root: Name, now: nat)

  ghost predicate ClockAdvances(accesses: seq<Access>) {
    forall i, j | 0 <= i < j < |accesses| :: accesses[i].now < accesses[j].now
  }

  /** The last use of every workspace ever accessed. */
  function LastUses(accesses: seq<Access>): Stamps {
    if accesses == [] then map[]
    else
      var a := accesses[|accesses| - 1];
      LastUses(accesses[..|accesses| - 1])[a.root := a.now]
  }

  /** The workspaces held after a sequence of accesses, as each access leaves them. */
  ghost function Held(accesses: seq<Access>): Stamps {
    if accesses == [] then map[]
    else
      var a := accesses[|accesses| - 1];
      Top(Held(accesses[..|accesses| - 1])[a.root := a.now], MAX_WORKSPACES)
  }

  lemma {:induction false} UsesAreAccesses(accesses: seq<Access>)
    ensures forall r | r in LastUses(accesses) :: exists i :: 0 <= i < |accesses| && accesses[i] == Access(r, LastUses(accesses)[r])
    ensures forall i | 0 <= i < |accesses| :: accesses[i].root in LastUses(accesses)
  {
    if accesses != [] {
      var n := |accesses| - 1;
      UsesAreAccesses(accesses[..n]);
      forall r | r in LastUses(accesses) ensures exists i :: 0 <= i < |accesses| && accesses[i] == Access(r, LastUses(accesses)[r]) {
        if r == accesses[n].root {
          assert accesses[n] == Access(r, LastUses(accesses)[r]);
        } else {
          var i :| 0 <= i < n && accesses[..n][i] == Access(r, LastUses(accesses[..n])[r]);
          assert accesses[i] == Access(r, LastUses(accesses)[r]);
        }
      }
      forall i | 0 <= i < |accesses| ensures accesses[i].root in LastUses(accesses) {
        assert i < n ==> accesses[..n][i].root in LastUses(accesses[..n]);
      }
    }
  }

  lemma UsesBefore(accesses: seq<Access>, n: nat)
    requires n < |accesses| && ClockAdvances(accesses)
    ensures forall r | r in LastUses(accesses[..n]) :: LastUses(accesses[..n])[r] < accesses[n].now
  {
    UsesAreAccesses(accesses[..n]);
  }

  lemma {:induction false} HeldIsTop(accesses: seq<Access>)
    requires ClockAdvances(accesses)
    ensures Held(accesses) == Top(LastUses(accesses), MAX_WORKSPACES)
  {
    if accesses != [] {
      var n := |accesses| - 1;
      HeldIsTop(accesses[..n]);
      UsesBefore(accesses, n);
      PruneAsYouGo(LastUses(accesses[..n]), MAX_WORKSPACES, accesses[n].root, accesses[n].now);
    }
  }

  /** The session holds exactly the workspaces used last, as many as it may: a held workspace was used after
      every workspace that is not, and there are four unless fewer were ever accessed. */
  lemma HoldsTheLastUsed(accesses: seq<Access>, held: Name, other: Name)
    requires ClockAdvances(accesses)
    requires other in LastUses(accesses)
    ensures |Held(accesses)| == if |LastUses(accesses)| <= 4 then |LastUses(accesses)| else 4
    ensures held in Held(accesses) ==> held in LastUses(accesses) && Held(accesses)[held] == LastUses(accesses)[held]
    ensures held in Held(accesses) && other !in Held(accesses) ==> LastUses(accesses)[held] > LastUses(accesses)[other]
  {
    HeldIsTop(accesses);
    var uses := LastUses(accesses);
    TopSize(uses, MAX_WORKSPACES);
    if held in Held(accesses) && other !in Held(accesses) {
      NewerIsTotal(uses, held, other);
      if Newer(uses, other, held) {
        NewerStaysInTop(uses, MAX_WORKSPACES, other, held);
      }
      UsesDiffer(accesses, held, other);
    }
  }

  lemma UsesDiffer(accesses: seq<Access>, a: Name, b: Name)
    requires ClockAdvances(accesses) && a in LastUses(accesses) && b in LastUses(accesses) && a != b
    ensures LastUses(accesses)[a] != LastUses(accesses)[b]
  {
    UsesAreAccesses(accesses);
    var uses := LastUses(accesses);
    var i :| 0 <= i < |accesses| && accesses[i] == Access(a, uses[a]);
    var j :| 0 <= j < |accesses| && accesses[j] == Access(b, uses[b]);
    assert i != j;
  }
}
