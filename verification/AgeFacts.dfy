/** What one scan makes of each finding and each detector, told from the scan's input alone. */
module AgeFacts {
  import opened Findings
  import opened Tallies
  import opened Clock
  import opened Aging
  import opened Ledger

  /** Print `i` is the first of its key, or the last one. */
  predicate FirstAt(prints: seq<Print>, i: nat) {
    i < |prints| && forall j | 0 <= j < i :: prints[j].key != prints[i].key
  }

  predicate LastAt(prints: seq<Print>, i: nat) {
    i < |prints| && forall j | i < j < |prints| :: prints[j].key != prints[i].key
  }

  predicate Reports(prints: seq<Print>, k: Key) {
    exists i :: 0 <= i < |prints| && prints[i].key == k
  }

  /** Seconds from a reading to a later one; none when the clock went back. */
  function Elapsed(past: nat, now: nat): nat {
    if past <= now then now - past else 0
  }

  lemma {:induction false} LastOfIsLast(prints: seq<Print>, i: nat)
    requires LastAt(prints, i)
    ensures prints[i].key in KeysOf(prints) && LastOf(prints, prints[i].key) == prints[i]
  {
    var n := |prints| - 1;
    assert prints[..n + 1] == prints;
    if i < n {
      assert prints[..n][i] == prints[i];
      LastOfIsLast(prints[..n], i);
    }
  }

  lemma {:induction false} FirstOfIsFirst(prints: seq<Print>, i: nat)
    requires FirstAt(prints, i)
    ensures prints[i].key in KeysOf(prints) && FirstOf(prints, prints[i].key) == prints[i]
  {
    var n := |prints| - 1;
    if i < n {
      assert prints[..n][i] == prints[i];
      FirstOfIsFirst(prints[..n], i);
    }
  }

  lemma {:induction false} SomeFirst(prints: seq<Print>, k: Key) returns (i: nat)
    requires k in KeysOf(prints)
    ensures FirstAt(prints, i) && prints[i].key == k
  {
    var n := |prints| - 1;
    assert prints[..n + 1] == prints;
    KeysOfSnoc(prints, n);
    if k in KeysOf(prints[..n]) {
      i := SomeFirst(prints[..n], k);
      assert prints[..n][i] == prints[i];
    } else {
      i := n;
      forall j | 0 <= j < i ensures prints[j].key != k {
        assert prints[..n][j] in prints[..n];
      }
    }
  }

  // ---------------------------------------------------------------- entries and records

  /** A scanned pillar carries exactly the reported findings, each described by the last print of its key and with its
      first sighting kept or started now; other pillars carry none. */
  lemma AgedEntries(prev: Aged, current: Prints, history: History, now: nat, ignore: set<Key>, p: Pillar)
    ensures var aged := Age(prev, current, history, now, ignore).aged;
            && (p in aged <==> p in current)
            && (p in current ==> forall k :: k in aged[p] <==> Reports(current[p], k))
            && (p in current ==> forall i: nat | LastAt(current[p], i) ::
                  var f := current[p][i];
                  aged[p][f.key] == AgedEntry(if p in prev && f.key in prev[p] then prev[p][f.key].firstSeen else now, f.title, f.detector))
  {
    AgedIsCarried(prev, current, history, now, ignore);
    if p in current {
      forall i: nat | LastAt(current[p], i) ensures LastOf(current[p], current[p][i].key) == current[p][i] {
        LastOfIsLast(current[p], i);
      }
    }
  }

  /** A finding of a scanned pillar that is not reported any more and not triaged away. */
  predicate Vanishes(prev: Aged, current: Prints, ignore: set<Key>, p: Pillar, k: Key) {
    p in current && p in prev && k in prev[p] && k !in ignore && !Reports(current[p], k)
  }

  lemma {:induction false} HistoryUpTo(n: nat, prev: Aged, current: Prints, history: History, now: nat, ignore: set<Key>, home: Key -> Pillar, k: Key)
    requires n <= |PILLARS| && HomedAged(prev, home) && HomedPrints(current, home)
    ensures var h := AgeUpTo(n, prev, current, history, now, ignore).history;
            if home(k) in PILLARS[..n] && home(k) in current && Reports(current[home(k)], k) then k !in h
            else if home(k) in PILLARS[..n] && Vanishes(prev, current, ignore, home(k), k)
            then k in h && h[k] == ResolvedRecord(prev[home(k)][k].detector, now)
            else (k in h <==> k in history && Elapsed(history[k].resolvedTs, now) <= 30 * 86_400) && (k in h ==> h[k] == history[k])
  {
    if n > 0 {
      HistoryUpTo(n - 1, prev, current, history, now, ignore, home, k);
      ListedStep(n, home(k));
      NotListedYet(n);
      var p := PILLARS[n - 1];
      if p in current {
        PillarKeys(prev, current, ignore, home, p, k);
        RecordStep(AgeUpTo(n - 1, prev, current, history, now, ignore), p, current[p], OldEntries(prev, p), now, ignore, k);
      }
    }
  }

  lemma RecordStep(out: Outcome, p: Pillar, prints: seq<Print>, prior: Entries, now: nat, ignore: set<Key>, k: Key)
    ensures var h := AgePillar(out, p, prints, prior, now, ignore).history;
            if k in GoneKeys(prints, prior, ignore) then k in h && h[k] == ResolvedRecord(prior[k].detector, now)
            else if k in KeysOf(prints) then k !in h
            else (k in h <==> k in out.history) && (k in h ==> h[k] == out.history[k])
  {
  }

  lemma NotListedYet(n: nat)
    requires 0 < n <= |PILLARS|
    ensures PILLARS[n - 1] !in PILLARS[..n - 1]
  {
    forall i | 0 <= i < n - 1 ensures PILLARS[i] != PILLARS[n - 1] {
      PillarsDistinct(i, n - 1);
    }
  }

  lemma PillarKeys(prev: Aged, current: Prints, ignore: set<Key>, home: Key -> Pillar, p: Pillar, k: Key)
    requires HomedAged(prev, home) && HomedPrints(current, home) && p in current
    ensures k in KeysOf(current[p]) <==> home(k) == p && Reports(current[p], k)
    ensures k in GoneKeys(current[p], OldEntries(prev, p), ignore) <==> home(k) == p && Vanishes(prev, current, ignore, p, k)
  {
    if k in KeysOf(current[p]) {
      var f :| f in current[p] && f.key == k;
      var i :| 0 <= i < |current[p]| && current[p][i] == f;
    }
  }

  /** The history after a scan: a reported finding has no record, a vanished one has a record of its detector and of
      now, and every other finding keeps its record for thirty days. */
  lemma HistoryRecords(prev: Aged, current: Prints, history: History, now: nat, ignore: set<Key>, home: Key -> Pillar, k: Key)
    requires HomedAged(prev, home) && HomedPrints(current, home)
    ensures var h := Age(prev, current, history, now, ignore).history;
            if home(k) in current && Reports(current[home(k)], k) then k !in h
            else if Vanishes(prev, current, ignore, home(k), k) then k in h && h[k] == ResolvedRecord(prev[home(k)][k].detector, now)
            else (k in h <==> k in history && Elapsed(history[k].resolvedTs, now) <= 30 * 86_400) && (k in h ==> h[k] == history[k])
  {
    EveryPillarListed(home(k));
    assert PILLARS[..|PILLARS|] == PILLARS;
    HistoryUpTo(|PILLARS|, prev, current, history, now, ignore, home, k);
  }

  // ---------------------------------------------------------------- what one detector is charged

  function CountFor(d: string): Charge -> nat {
    (c: Charge) => if c.detector == d then 1 else 0
  }

  function SecsForDetector(d: string): Charge -> nat {
    (c: Charge) => if c.detector == d then c.secs else 0
  }

  /** A tally map read at one detector. */
  lemma {:induction false} TallyAt(charges: multiset<Charge>, d: string)
    ensures var t := Tally(charges);
            && (d in t <==> Sum(charges, CountFor(d)) > 0)
            && (d in t ==> t[d] == Resolved(Sum(charges, CountFor(d)), Sum(charges, SecsForDetector(d))))
            && (d !in t ==> Sum(charges, SecsForDetector(d)) == 0)
    decreases |charges|
  {
    if charges != multiset{} {
      var c := Tallied(charges);
      var rest := charges - multiset{c};
      assert charges == rest + multiset{c};
      TallyAt(rest, d);
      SumAdd(rest, c, CountFor(d));
      SumAdd(rest, c, SecsForDetector(d));
    }
  }

  ghost function SumKeys(keys: set<Key>, weight: Key -> nat): nat {
    if keys == {} then 0
    else var k :| k in keys; weight(k) + SumKeys(keys - {k}, weight)
  }

  lemma {:induction false} SumKeysSplit(keys: set<Key>, weight: Key -> nat, k: Key)
    requires k in keys
    ensures SumKeys(keys, weight) == weight(k) + SumKeys(keys - {k}, weight)
    decreases |keys|
  {
    var m :| m in keys && SumKeys(keys, weight) == weight(m) + SumKeys(keys - {m}, weight);
    if m != k {
      SumKeysSplit(keys - {m}, weight, k);
      SumKeysSplit(keys - {k}, weight, m);
      assert keys - {m} - {k} == keys - {k} - {m};
    }
  }

  ghost predicate Charged(charges: set<Charge>, k: Key, d: string) {
    exists c :: c in charges && c.key == k && c.detector == d
  }

  /** `keys` are the findings charged to the detector, each once and with its own seconds. */
  ghost predicate ChargesFor(charges: set<Charge>, keys: set<Key>, secs: Key -> nat, d: string) {
    && (forall a, b | a in charges && b in charges && a.key == b.key :: a == b)
    && (forall k :: k in keys <==> Charged(charges, k, d))
    && (forall c | c in charges && c.detector == d :: c.secs == secs(c.key))
  }

  /** One charge per finding: a detector's charges are its findings, and their seconds add up. */
  lemma {:induction false} ChargesPerDetector(charges: set<Charge>, keys: set<Key>, secs: Key -> nat, d: string)
    requires ChargesFor(charges, keys, secs, d)
    ensures Sum(multiset(charges), CountFor(d)) == |keys|
    ensures Sum(multiset(charges), SecsForDetector(d)) == SumKeys(keys, secs)
    decreases |charges|
  {
    if charges != {} {
      var c :| c in charges;
      OneLess(charges, keys, secs, d, c);
      SumOneLess(charges, c, d);
      if c.detector == d {
        ChargesPerDetector(charges - {c}, keys - {c.key}, secs, d);
        SumKeysSplit(keys, secs, c.key);
      } else {
        ChargesPerDetector(charges - {c}, keys, secs, d);
      }
    } else {
      NoneCharged(keys, secs, d);
    }
  }

  lemma NoneCharged(keys: set<Key>, secs: Key -> nat, d: string)
    requires ChargesFor({}, keys, secs, d)
    ensures keys == {} && Sum(multiset({}), CountFor(d)) == 0 && Sum(multiset({}), SecsForDetector(d)) == 0
  {
    assert forall k :: !Charged({}, k, d);
    var none: set<Charge> := {};
    assert multiset(none) == multiset{};
  }

  lemma SumOneLess(charges: set<Charge>, c: Charge, d: string)
    requires c in charges
    ensures Sum(multiset(charges), CountFor(d)) == Sum(multiset(charges - {c}), CountFor(d)) + if c.detector == d then 1 else 0
    ensures Sum(multiset(charges), SecsForDetector(d)) ==
            Sum(multiset(charges - {c}), SecsForDetector(d)) + if c.detector == d then c.secs else 0
  {
    assert multiset(charges) == multiset(charges - {c}) + multiset{c};
    SumAdd(multiset(charges - {c}), c, CountFor(d));
    SumAdd(multiset(charges - {c}), c, SecsForDetector(d));
  }

  lemma OneLess(charges: set<Charge>, keys: set<Key>, secs: Key -> nat, d: string, c: Charge)
    requires ChargesFor(charges, keys, secs, d) && c in charges
    ensures ChargesFor(charges - {c}, if c.detector == d then keys - {c.key} else keys, secs, d)
    ensures c.detector == d ==> c.key in keys && c.secs == secs(c.key)
  {
    assert c.detector == d ==> Charged(charges, c.key, d);
    forall k | Charged(charges, k, d) && (k != c.key || c.detector != d) ensures Charged(charges - {c}, k, d) {
      var e :| e in charges && e.key == k && e.detector == d;
      assert e in charges - {c};
    }
  }

  /** The vanished findings whose entry has the detector `d`. */
  function VanishedOf(prev: Aged, current: Prints, ignore: set<Key>, d: string): set<Key> {
    set p, k | p in prev && k in prev[p] && Vanishes(prev, current, ignore, p, k) && prev[p][k].detector == d :: k
  }

  /** What a detector has resolved are its vanished findings, each with the time since its first sighting. */
  lemma ResolvedByDetector(prev: Aged, current: Prints, history: History, now: nat, ignore: set<Key>, home: Key -> Pillar, d: string)
    requires HomedAged(prev, home) && HomedPrints(current, home)
    ensures var tally, keys := Tally(Age(prev, current, history, now, ignore).resolved), VanishedOf(prev, current, ignore, d);
            var age := (k: Key) => if home(k) in prev && k in prev[home(k)] then Elapsed(prev[home(k)][k].firstSeen, now) else 0;
            && (d in tally <==> keys != {})
            && (d in tally ==> tally[d] == Resolved(|keys|, SumKeys(keys, age)))
  {
    var charges, keys := GoneCharges(|PILLARS|, prev, current, now, ignore), VanishedOf(prev, current, ignore, d);
    var age := (k: Key) => if home(k) in prev && k in prev[home(k)] then Elapsed(prev[home(k)][k].firstSeen, now) else 0;
    AllCharges(prev, current, history, now, ignore, home);
    GoneChargesFor(prev, current, now, ignore, home, d, age);
    ChargesPerDetector(charges, keys, age, d);
    TallyAt(multiset(charges), d);
  }

  lemma AllCharges(prev: Aged, current: Prints, history: History, now: nat, ignore: set<Key>, home: Key -> Pillar)
    requires HomedAged(prev, home) && HomedPrints(current, home)
    ensures Age(prev, current, history, now, ignore).resolved == multiset(GoneCharges(|PILLARS|, prev, current, now, ignore))
    ensures Age(prev, current, history, now, ignore).reintroduced == multiset(ReturnCharges(|PILLARS|, current, Active(history, now), now))
  {
    PillarByPillar(|PILLARS|, prev, current, history, now, ignore, home);
  }

  lemma GoneChargesFor(prev: Aged, current: Prints, now: nat, ignore: set<Key>, home: Key -> Pillar, d: string, age: Key -> nat)
    requires HomedAged(prev, home) && HomedPrints(current, home)
    requires forall k | home(k) in prev && k in prev[home(k)] :: age(k) == Elapsed(prev[home(k)][k].firstSeen, now)
    ensures ChargesFor(GoneCharges(|PILLARS|, prev, current, now, ignore), VanishedOf(prev, current, ignore, d), age, d)
  {
    var charges := GoneCharges(|PILLARS|, prev, current, now, ignore);
    GoneChargedKeys(prev, current, now, ignore, home);
    forall k ensures k in VanishedOf(prev, current, ignore, d) <==> Charged(charges, k, d) {
      GoneKey(prev, current, now, ignore, home, d, k);
    }
    forall c | c in charges && c.detector == d ensures c.secs == age(c.key) {
      GoneSecsOf(prev, current, now, ignore, home, c);
    }
  }

  lemma GoneKey(prev: Aged, current: Prints, now: nat, ignore: set<Key>, home: Key -> Pillar, d: string, k: Key)
    requires HomedAged(prev, home) && HomedPrints(current, home)
    ensures k in VanishedOf(prev, current, ignore, d) <==> Charged(GoneCharges(|PILLARS|, prev, current, now, ignore), k, d)
  {
    var charges := GoneCharges(|PILLARS|, prev, current, now, ignore);
    if Charged(charges, k, d) {
      var c :| c in charges && c.key == k && c.detector == d;
      GoneChargeMeans(prev, current, now, ignore, home, c);
    }
    if k in VanishedOf(prev, current, ignore, d) {
      var p :| p in prev && k in prev[p] && Vanishes(prev, current, ignore, p, k) && prev[p][k].detector == d;
      var c := Charge(k, d, Elapsed(prev[p][k].firstSeen, now));
      GoneChargeMeans(prev, current, now, ignore, home, c);
      assert c in charges;
    }
  }

  lemma GoneSecsOf(prev: Aged, current: Prints, now: nat, ignore: set<Key>, home: Key -> Pillar, c: Charge)
    requires HomedAged(prev, home) && HomedPrints(current, home)
    requires c in GoneCharges(|PILLARS|, prev, current, now, ignore)
    ensures home(c.key) in prev && c.key in prev[home(c.key)] && c.secs == Elapsed(prev[home(c.key)][c.key].firstSeen, now)
  {
    GoneChargeMeans(prev, current, now, ignore, home, c);
  }

  lemma GoneChargeMeans(prev: Aged, current: Prints, now: nat, ignore: set<Key>, home: Key -> Pillar, c: Charge)
    requires HomedAged(prev, home) && HomedPrints(current, home)
    ensures c in GoneCharges(|PILLARS|, prev, current, now, ignore) <==>
            exists p :: Vanishes(prev, current, ignore, p, c.key) && c == Charge(c.key, prev[p][c.key].detector, Elapsed(prev[p][c.key].firstSeen, now))
  {
    UnionAll(GoneChargesIn(prev, current, now, ignore), c);
    forall p | p in current
      ensures c in GoneChargesIn(prev, current, now, ignore)(p) <==>
              Vanishes(prev, current, ignore, p, c.key) && c == Charge(c.key, prev[p][c.key].detector, Elapsed(prev[p][c.key].firstSeen, now))
    {
      PillarKeys(prev, current, ignore, home, p, c.key);
    }
  }

  /** The reported findings with a young record whose first print has the detector `d`. */
  function ReturnedOf(current: Prints, history: History, now: nat, d: string): set<Key> {
    set k, p | k in history && p in current && ReturnsIn(current[p], history, now, d, k) :: k
  }

  predicate ReturnsIn(prints: seq<Print>, history: History, now: nat, d: string, k: Key) {
    k in history && Elapsed(history[k].resolvedTs, now) <= 30 * 86_400 &&
    exists i :: 0 <= i < |prints| && FirstAt(prints, i) && prints[i].key == k && prints[i].detector == d
  }

  /** What a detector has seen reintroduced are the returned findings it printed first, each with the time its fix held. */
  lemma ReintroducedByDetector(prev: Aged, current: Prints, history: History, now: nat, ignore: set<Key>, home: Key -> Pillar, d: string)
    requires HomedAged(prev, home) && HomedPrints(current, home)
    ensures var tally, keys := Tally(Age(prev, current, history, now, ignore).reintroduced), ReturnedOf(current, history, now, d);
            var held := (k: Key) => if k in history then Elapsed(history[k].resolvedTs, now) else 0;
            && (d in tally <==> keys != {})
            && (d in tally ==> tally[d] == Resolved(|keys|, SumKeys(keys, held)))
  {
    var active := Active(history, now);
    var charges, keys := ReturnCharges(|PILLARS|, current, active, now), ReturnedOf(current, history, now, d);
    var held := (k: Key) => if k in history then Elapsed(history[k].resolvedTs, now) else 0;
    AllCharges(prev, current, history, now, ignore, home);
    ReturnChargesFor(current, history, now, home, d, held);
    ChargesPerDetector(charges, keys, held, d);
    TallyAt(multiset(charges), d);
  }

  lemma ReturnChargesFor(current: Prints, history: History, now: nat, home: Key -> Pillar, d: string, held: Key -> nat)
    requires HomedPrints(current, home) && forall k | k in history :: held(k) == Elapsed(history[k].resolvedTs, now)
    ensures ChargesFor(ReturnCharges(|PILLARS|, current, Active(history, now), now), ReturnedOf(current, history, now, d), held, d)
  {
    var charges := ReturnCharges(|PILLARS|, current, Active(history, now), now);
    ReturnChargedKeys(current, now, Active(history, now), home);
    forall c | c in charges && c.detector == d ensures c.key in ReturnedOf(current, history, now, d) && c.secs == held(c.key) {
      ReturnChargeMeans(current, history, now, d, c);
    }
    forall k | k in ReturnedOf(current, history, now, d) ensures Charged(charges, k, d) {
      var c := Charge(k, d, Elapsed(history[k].resolvedTs, now));
      ReturnChargeMeans(current, history, now, d, c);
      assert c in charges;
    }
  }

  lemma ReturnChargeMeans(current: Prints, history: History, now: nat, d: string, c: Charge)
    ensures c in ReturnCharges(|PILLARS|, current, Active(history, now), now) && c.detector == d <==>
            exists p :: p in current && ReturnsIn(current[p], history, now, d, c.key) && c == Charge(c.key, d, Elapsed(history[c.key].resolvedTs, now))
  {
    var active := Active(history, now);
    UnionAll(ReturnChargesIn(current, active, now), c);
    forall p | p in current
      ensures c in ReturnChargesIn(current, active, now)(p) && c.detector == d <==>
              ReturnsIn(current[p], history, now, d, c.key) && c == Charge(c.key, d, Elapsed(history[c.key].resolvedTs, now))
    {
      ReturnIn(current[p], history, now, d, c);
    }
  }

  lemma ReturnIn(prints: seq<Print>, history: History, now: nat, d: string, c: Charge)
    ensures c in Returned(prints, Active(history, now), now) && c.detector == d <==>
            ReturnsIn(prints, history, now, d, c.key) && c == Charge(c.key, d, Elapsed(history[c.key].resolvedTs, now))
  {
    if c.key in KeysOf(prints) {
      var i := SomeFirst(prints, c.key);
      FirstOfIsFirst(prints, i);
      forall j: nat | FirstAt(prints, j) && prints[j].key == c.key ensures j == i {
        assert !(j < i) && !(i < j);
      }
    } else {
      assert forall j | 0 <= j < |prints| :: prints[j] in prints;
    }
  }
}
