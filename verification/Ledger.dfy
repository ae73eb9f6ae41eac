/** What aging means for the findings themselves, and the ledger over whole runs of scans. */
module Ledger {
  import opened Findings
  import opened Tallies
  import opened Clock
  import opened Aging

  /** Every finding a branch currently carries. */
  ghost function Present(aged: Aged): set<Key> {
    set p, k | p in aged && k in aged[p] :: k
  }

  ghost predicate HomedAged(aged: Aged, home: Key -> Pillar) {
    forall p, k | p in aged && k in aged[p] :: home(k) == p
  }

  /** Findings that vanished with this scan: carried before, absent from a scanned pillar, not triaged away. */
  ghost function Vanished(prev: Aged, current: Prints, ignore: set<Key>): set<Key> {
    set p, k | p in current && k in GoneKeys(current[p], OldEntries(prev, p), ignore) :: k
  }

  // The first `n` pillars' share of the findings seen, vanished and charged.

  ghost function SeenIn(current: Prints): Pillar -> set<Key> {
    p => if p in current then KeysOf(current[p]) else {}
  }

  ghost function VanishedIn(prev: Aged, current: Prints, ignore: set<Key>): Pillar -> set<Key> {
    p => if p in current then GoneKeys(current[p], OldEntries(prev, p), ignore) else {}
  }

  ghost function GoneChargesIn(prev: Aged, current: Prints, now: nat, ignore: set<Key>): Pillar -> set<Charge> {
    p => if p in current then Gone(GoneKeys(current[p], OldEntries(prev, p), ignore), OldEntries(prev, p), now) else {}
  }

  ghost function ReturnChargesIn(current: Prints, active: History, now: nat): Pillar -> set<Charge> {
    p => if p in current then Returned(current[p], active, now) else {}
  }

  ghost function Union<T>(n: nat, share: Pillar -> set<T>): set<T>
    requires n <= |PILLARS|
  {
    if n == 0 then {} else Union(n - 1, share) + share(PILLARS[n - 1])
  }

  ghost function SeenUpTo(n: nat, current: Prints): set<Key>
    requires n <= |PILLARS|
  {
    Union(n, SeenIn(current))
  }

  ghost function VanishedUpTo(n: nat, prev: Aged, current: Prints, ignore: set<Key>): set<Key>
    requires n <= |PILLARS|
  {
    Union(n, VanishedIn(prev, current, ignore))
  }

  ghost function GoneCharges(n: nat, prev: Aged, current: Prints, now: nat, ignore: set<Key>): set<Charge>
    requires n <= |PILLARS|
  {
    Union(n, GoneChargesIn(prev, current, now, ignore))
  }

  ghost function ReturnCharges(n: nat, current: Prints, active: History, now: nat): set<Charge>
    requires n <= |PILLARS|
  {
    Union(n, ReturnChargesIn(current, active, now))
  }

  lemma {:induction false} UnionMember<T>(n: nat, share: Pillar -> set<T>, x: T)
    requires n <= |PILLARS|
    ensures x in Union(n, share) <==> exists i :: 0 <= i < n && x in share(PILLARS[i])
  {
    if n > 0 {
      UnionMember(n - 1, share, x);
      if x in share(PILLARS[n - 1]) {
        assert n - 1 < n;
      }
    }
  }

  lemma UnionAll<T>(share: Pillar -> set<T>, x: T)
    ensures x in Union(|PILLARS|, share) <==> exists p :: x in share(p)
  {
    UnionMember(|PILLARS|, share, x);
    if p :| x in share(p) {
      EveryPillarListed(p);
    }
  }

  // ---------------------------------------------------------------- one scan, pillar by pillar

  /** The accumulated outcome, said finding by finding. */
  ghost predicate Means(n: nat, out: Outcome, prev: Aged, current: Prints, active: History, now: nat, ignore: set<Key>)
    requires n <= |PILLARS|
  {
    && MeansHistory(out.history, active, SeenUpTo(n, current), VanishedUpTo(n, prev, current, ignore), now)
    && out.resolved == multiset(GoneCharges(n, prev, current, now, ignore))
    && out.reintroduced == multiset(ReturnCharges(n, current, active, now))
  }

  ghost predicate MeansHistory(h: History, active: History, seen: set<Key>, gone: set<Key>, now: nat) {
    && h.Keys == (active.Keys - seen) + gone
    && (forall k | k in h && k in gone :: h[k].resolvedTs == now)
    && (forall k | k in h && k !in gone :: k in active && h[k] == active[k])
  }

  lemma {:induction false} PillarByPillar(n: nat, prev: Aged, current: Prints, history: History, now: nat,
                                          ignore: set<Key>, home: Key -> Pillar)
    requires n <= |PILLARS| && HomedAged(prev, home) && HomedPrints(current, home)
    ensures Means(n, AgeUpTo(n, prev, current, history, now, ignore), prev, current, Active(history, now), now, ignore)
  {
    if n > 0 {
      PillarByPillar(n - 1, prev, current, history, now, ignore, home);
      NextPillar(n, AgeUpTo(n - 1, prev, current, history, now, ignore), prev, current, Active(history, now), now, ignore, home);
    }
  }

  lemma NextPillar(n: nat, before: Outcome, prev: Aged, current: Prints, active: History, now: nat, ignore: set<Key>, home: Key -> Pillar)
    requires 0 < n <= |PILLARS| && HomedAged(prev, home) && HomedPrints(current, home)
    requires Means(n - 1, before, prev, current, active, now, ignore)
    ensures var p := PILLARS[n - 1];
            Means(n, if p in current then AgePillar(before, p, current[p], OldEntries(prev, p), now, ignore) else before,
                  prev, current, active, now, ignore)
  {
    if PILLARS[n - 1] in current {
      PillarsApart(n - 1, prev, current, active, now, ignore, home);
      PillarStep(n, before, prev, current, active, now, ignore);
    } else {
      PillarSkipped(n, before, prev, current, active, now, ignore);
    }
  }

  lemma PillarSkipped(n: nat, out: Outcome, prev: Aged, current: Prints, active: History, now: nat, ignore: set<Key>)
    requires 0 < n <= |PILLARS| && PILLARS[n - 1] !in current
    requires Means(n - 1, out, prev, current, active, now, ignore)
    ensures Means(n, out, prev, current, active, now, ignore)
  {
    UnionSkips(n, SeenIn(current));
    UnionSkips(n, VanishedIn(prev, current, ignore));
    UnionSkips(n, GoneChargesIn(prev, current, now, ignore));
    UnionSkips(n, ReturnChargesIn(current, active, now));
  }

  lemma UnionSkips<T>(n: nat, share: Pillar -> set<T>)
    requires 0 < n <= |PILLARS| && share(PILLARS[n - 1]) == {}
    ensures Union(n, share) == Union(n - 1, share)
  {
  }

  lemma PillarStep(n: nat, before: Outcome, prev: Aged, current: Prints, active: History, now: nat, ignore: set<Key>)
    requires 0 < n <= |PILLARS| && PILLARS[n - 1] in current
    requires Means(n - 1, before, prev, current, active, now, ignore)
    requires var p := PILLARS[n - 1];
             && (SeenUpTo(n - 1, current) + VanishedUpTo(n - 1, prev, current, ignore)) !! KeysOf(current[p])
             && Gone(GoneKeys(current[p], OldEntries(prev, p), ignore), OldEntries(prev, p), now) !! GoneCharges(n - 1, prev, current, now, ignore)
             && Returned(current[p], active, now) !! ReturnCharges(n - 1, current, active, now)
    ensures var p := PILLARS[n - 1];
            Means(n, AgePillar(before, p, current[p], OldEntries(prev, p), now, ignore), prev, current, active, now, ignore)
  {
    var p := PILLARS[n - 1];
    var prints, prior := current[p], OldEntries(prev, p);
    HistoryStep(before.history, active, SeenUpTo(n - 1, current), VanishedUpTo(n - 1, prev, current, ignore), now,
                prints, prior, ignore);
    DisjointUnion(GoneCharges(n - 1, prev, current, now, ignore), GoneChargesIn(prev, current, now, ignore)(p));
    DisjointUnion(ReturnCharges(n - 1, current, active, now), ReturnChargesIn(current, active, now)(p));
  }

  lemma HistoryStep(h: History, active: History, seen: set<Key>, gone: set<Key>, now: nat,
                    prints: seq<Print>, prior: Entries, ignore: set<Key>)
    requires MeansHistory(h, active, seen, gone, now)
    requires (seen + gone) !! KeysOf(prints)
    ensures Returned(prints, h, now) == Returned(prints, active, now)
    ensures var more := GoneKeys(prints, prior, ignore);
            MeansHistory((h - KeysOf(prints)) + Banked(more, prior, now), active, seen + KeysOf(prints), gone + more, now)
  {
  }

  lemma DisjointUnion<T>(a: set<T>, b: set<T>)
    requires a !! b
    ensures multiset(a + b) == multiset(a) + multiset(b)
  {
  }

  /** What has its home in pillar `n` is in no earlier pillar's share. */
  lemma OtherHome<T>(n: nat, share: Pillar -> set<T>, home: T -> Pillar)
    requires n < |PILLARS| && forall p, x | x in share(p) :: home(x) == p
    ensures forall x | x in Union(n, share) :: home(x) != PILLARS[n]
  {
    forall x | x in Union(n, share) ensures home(x) != PILLARS[n] {
      UnionMember(n, share, x);
      var i :| 0 <= i < n && x in share(PILLARS[i]);
      PillarsDistinct(i, n);
    }
  }

  lemma PillarsApart(n: nat, prev: Aged, current: Prints, active: History, now: nat, ignore: set<Key>, home: Key -> Pillar)
    requires n < |PILLARS| && HomedAged(prev, home) && HomedPrints(current, home)
    ensures var p := PILLARS[n];
            && (SeenUpTo(n, current) + VanishedUpTo(n, prev, current, ignore)) !! SeenIn(current)(p)
            && GoneChargesIn(prev, current, now, ignore)(p) !! GoneCharges(n, prev, current, now, ignore)
            && ReturnChargesIn(current, active, now)(p) !! ReturnCharges(n, current, active, now)
  {
    var homeOf := (c: Charge) => home(c.key);
    SharesAtHome(prev, current, active, now, ignore, home);
    OtherHome(n, SeenIn(current), home);
    OtherHome(n, VanishedIn(prev, current, ignore), home);
    OtherHome(n, GoneChargesIn(prev, current, now, ignore), homeOf);
    OtherHome(n, ReturnChargesIn(current, active, now), homeOf);
  }

  lemma SharesAtHome(prev: Aged, current: Prints, active: History, now: nat, ignore: set<Key>, home: Key -> Pillar)
    requires HomedAged(prev, home) && HomedPrints(current, home)
    ensures forall p, k | k in SeenIn(current)(p) :: home(k) == p
    ensures forall p, k | k in VanishedIn(prev, current, ignore)(p) :: home(k) == p
    ensures forall p, c | c in GoneChargesIn(prev, current, now, ignore)(p) :: home(c.key) == p
    ensures forall p, c | c in ReturnChargesIn(current, active, now)(p) :: home(c.key) == p
  {
  }

  lemma {:induction false} AgedUpTo(n: nat, prev: Aged, current: Prints, history: History, now: nat, ignore: set<Key>, p: Pillar)
    requires n <= |PILLARS|
    ensures var aged := AgeUpTo(n, prev, current, history, now, ignore).aged;
            && (p in aged <==> p in current && p in PILLARS[..n])
            && (p in aged ==> aged[p] == Carried(current[p], OldEntries(prev, p), now))
  {
    if n > 0 {
      AgedUpTo(n - 1, prev, current, history, now, ignore, p);
      AgedStep(n, prev, current, history, now, ignore);
      ListedStep(n, p);
      AgedAt(AgeUpTo(n - 1, prev, current, history, now, ignore).aged, AgeUpTo(n, prev, current, history, now, ignore).aged,
             PILLARS[n - 1], p, p in PILLARS[..n - 1], prev, current, now);
    }
  }

  lemma AgedAt(before: Aged, after: Aged, q: Pillar, p: Pillar, listed: bool, prev: Aged, current: Prints, now: nat)
    requires after == if q in current then before[q := Carried(current[q], OldEntries(prev, q), now)] else before
    requires (p in before <==> p in current && listed) && (p in before ==> before[p] == Carried(current[p], OldEntries(prev, p), now))
    ensures p in after <==> p in current && (p == q || listed)
    ensures p in after ==> after[p] == Carried(current[p], OldEntries(prev, p), now)
  {
  }

  lemma AgedStep(n: nat, prev: Aged, current: Prints, history: History, now: nat, ignore: set<Key>)
    requires 0 < n <= |PILLARS|
    ensures var p, before := PILLARS[n - 1], AgeUpTo(n - 1, prev, current, history, now, ignore).aged;
            AgeUpTo(n, prev, current, history, now, ignore).aged ==
            if p in current then before[p := Carried(current[p], OldEntries(prev, p), now)] else before
  {
  }

  lemma ListedStep(n: nat, p: Pillar)
    requires 0 < n <= |PILLARS|
    ensures p in PILLARS[..n] <==> p == PILLARS[n - 1] || p in PILLARS[..n - 1]
  {
    assert PILLARS[..n] == PILLARS[..n - 1] + [PILLARS[n - 1]];
  }

  lemma AgedIsCarried(prev: Aged, current: Prints, history: History, now: nat, ignore: set<Key>)
    ensures Age(prev, current, history, now, ignore).aged ==
            map p | p in current :: Carried(current[p], OldEntries(prev, p), now)
  {
    assert PILLARS[..|PILLARS|] == PILLARS;
    forall p: Pillar ensures p in PILLARS {
      EveryPillarListed(p);
    }
    forall p: Pillar {
      AgedUpTo(|PILLARS|, prev, current, history, now, ignore, p);
    }
  }

  lemma CarriedIsPresent(prev: Aged, current: Prints, now: nat)
    ensures Present(map p | p in current :: Carried(current[p], OldEntries(prev, p), now)) == NowKeys(current)
  {
    var aged := map p | p in current :: Carried(current[p], OldEntries(prev, p), now);
    forall k | k in NowKeys(current) ensures k in Present(aged) {
      var p, f :| p in current && f in current[p] && f.key == k;
      assert k in aged[p];
    }
  }

  // ---------------------------------------------------------------- one scan, finding by finding

  /** After a scan a branch carries exactly the reported findings, each with its first sighting kept or
      started now; the history holds exactly the young records that did not come back and the vanished
      findings; every vanished finding is charged as resolved once, every returned one as reintroduced once. */
  lemma AgeMeaning(prev: Aged, current: Prints, history: History, now: nat, ignore: set<Key>, home: Key -> Pillar)
    requires HomedAged(prev, home) && HomedPrints(current, home)
    ensures var out := Age(prev, current, history, now, ignore);
            var active := Active(history, now);
            var gone := Vanished(prev, current, ignore);
            && Present(out.aged) == NowKeys(current)
            && HomedAged(out.aged, home)
            && (forall p, k | p in out.aged && k in out.aged[p] ::
                  out.aged[p][k].firstSeen == if k in OldEntries(prev, p) then prev[p][k].firstSeen else now)
            && MeansHistory(out.history, active, NowKeys(current), gone, now)
            && |out.resolved| == |gone|
            && |out.reintroduced| == |active.Keys * NowKeys(current)|
            && gone <= Present(prev) && gone !! NowKeys(current)
  {
    CarriedMeaning(prev, current, history, now, ignore, home);
    PillarByPillar(|PILLARS|, prev, current, history, now, ignore, home);
    SeenIsNow(prev, current, ignore);
    ChargedKeys(prev, current, now, ignore, Active(history, now), home);
    VanishedMeaning(prev, current, ignore, home);
  }

  lemma CarriedMeaning(prev: Aged, current: Prints, history: History, now: nat, ignore: set<Key>, home: Key -> Pillar)
    requires HomedAged(prev, home) && HomedPrints(current, home)
    ensures var aged := Age(prev, current, history, now, ignore).aged;
            && Present(aged) == NowKeys(current)
            && HomedAged(aged, home)
            && (forall p, k | p in aged && k in aged[p] ::
                  aged[p][k].firstSeen == if k in OldEntries(prev, p) then prev[p][k].firstSeen else now)
  {
    AgedIsCarried(prev, current, history, now, ignore);
    CarriedIsPresent(prev, current, now);
  }

  lemma VanishedMeaning(prev: Aged, current: Prints, ignore: set<Key>, home: Key -> Pillar)
    requires HomedAged(prev, home) && HomedPrints(current, home)
    ensures Vanished(prev, current, ignore) <= Present(prev)
    ensures Vanished(prev, current, ignore) !! NowKeys(current)
  {
  }

  lemma SeenIsNow(prev: Aged, current: Prints, ignore: set<Key>)
    ensures SeenUpTo(|PILLARS|, current) == NowKeys(current)
    ensures VanishedUpTo(|PILLARS|, prev, current, ignore) == Vanished(prev, current, ignore)
  {
    forall k ensures k in SeenUpTo(|PILLARS|, current) <==> k in NowKeys(current) {
      UnionAll(SeenIn(current), k);
      if k in NowKeys(current) {
        var p, f :| p in current && f in current[p] && f.key == k;
        assert k in SeenIn(current)(p);
      }
    }
    forall k ensures k in VanishedUpTo(|PILLARS|, prev, current, ignore) <==> k in Vanished(prev, current, ignore) {
      UnionAll(VanishedIn(prev, current, ignore), k);
      if k in Vanished(prev, current, ignore) {
        var p :| p in current && k in GoneKeys(current[p], OldEntries(prev, p), ignore);
        assert k in VanishedIn(prev, current, ignore)(p);
      }
    }
  }

  lemma ImageSize(charges: set<Charge>, keys: set<Key>)
    requires forall c, d | c in charges && d in charges && c.key == d.key :: c == d
    requires keys == set c | c in charges :: c.key
    ensures |charges| == |keys|
    decreases |charges|
  {
    if charges != {} {
      var c :| c in charges;
      assert keys - {c.key} == set d | d in charges - {c} :: d.key;
      ImageSize(charges - {c}, keys - {c.key});
    } else {
      assert keys == {};
    }
  }

  /** At most one charge of each kind per finding, on exactly the vanished and the returned findings. */
  lemma ChargedKeys(prev: Aged, current: Prints, now: nat, ignore: set<Key>, active: History, home: Key -> Pillar)
    requires HomedAged(prev, home) && HomedPrints(current, home)
    ensures OnePerKey(GoneCharges(|PILLARS|, prev, current, now, ignore), Vanished(prev, current, ignore))
    ensures OnePerKey(ReturnCharges(|PILLARS|, current, active, now), active.Keys * NowKeys(current))
  {
    GoneChargedKeys(prev, current, now, ignore, home);
    ReturnChargedKeys(current, now, active, home);
  }

  ghost predicate OnePerKey(charges: set<Charge>, keys: set<Key>) {
    && (forall c, d | c in charges && d in charges && c.key == d.key :: c == d)
    && (forall c | c in charges :: c.key in keys)
    && (forall k | k in keys :: exists c :: c in charges && c.key == k)
    && |charges| == |keys|
  }

  lemma ChargesPerKey(share: Pillar -> set<Charge>, keys: set<Key>, home: Key -> Pillar)
    requires forall p, c | c in share(p) :: home(c.key) == p && c.key in keys
    requires forall p, c, d | c in share(p) && d in share(p) && c.key == d.key :: c == d
    requires forall k | k in keys :: exists c :: c in share(home(k)) && c.key == k
    ensures OnePerKey(Union(|PILLARS|, share), keys)
  {
    var all := Union(|PILLARS|, share);
    forall c | c in all ensures c in share(home(c.key)) {
      UnionAll(share, c);
    }
    forall k | k in keys ensures exists c :: c in all && c.key == k {
      var c :| c in share(home(k)) && c.key == k;
      UnionAll(share, c);
    }
    ImageSize(all, keys);
  }

  lemma GoneChargedKeys(prev: Aged, current: Prints, now: nat, ignore: set<Key>, home: Key -> Pillar)
    requires HomedAged(prev, home) && HomedPrints(current, home)
    ensures OnePerKey(GoneCharges(|PILLARS|, prev, current, now, ignore), Vanished(prev, current, ignore))
  {
    var share := GoneChargesIn(prev, current, now, ignore);
    SharesAtHome(prev, current, map[], now, ignore, home);
    forall k | k in Vanished(prev, current, ignore) ensures exists c :: c in share(home(k)) && c.key == k {
      var p :| p in current && k in GoneKeys(current[p], OldEntries(prev, p), ignore);
      var prior := OldEntries(prev, p);
      assert Charge(k, prior[k].detector, Since(now, prior[k].firstSeen)) in share(p);
    }
    ChargesPerKey(share, Vanished(prev, current, ignore), home);
  }

  lemma ReturnChargedKeys(current: Prints, now: nat, active: History, home: Key -> Pillar)
    requires HomedPrints(current, home)
    ensures OnePerKey(ReturnCharges(|PILLARS|, current, active, now), active.Keys * NowKeys(current))
  {
    var share := ReturnChargesIn(current, active, now);
    SharesAtHome(map[], current, active, now, {}, home);
    forall k | k in active.Keys * NowKeys(current) ensures exists c :: c in share(home(k)) && c.key == k {
      var p, f :| p in current && f in current[p] && f.key == k;
      assert Charge(k, FirstOf(current[p], k).detector, Since(now, active[k].resolvedTs)) in share(p);
    }
    ChargesPerKey(share, active.Keys * NowKeys(current), home);
  }
}
