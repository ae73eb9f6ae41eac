/** What one scan makes of a branch: `Age` says it outright, pillar by pillar, and `AgeScan` is the loop that
    computes it. */
module Aging {
  import opened Clock
  import opened Findings
  import opened Tallies

  /** After thirty days a record is forgotten. */
  const REINTRO_WINDOW_SECS: nat := 30 * 86_400

  datatype AgedEntry = AgedEntry(firstSeen: nat, title: string, detector: string)

  datatype ResolvedRecord = ResolvedRecord(detector: string, resolvedTs: nat)

  type Entries = map<Key, AgedEntry>
  type Aged = map<Pillar, Entries>
  type History = map<Key, ResolvedRecord>

  datatype Aging = Aging(aged: Aged, resolved: TallyMap, reintroduced: TallyMap, history: History)

  // ---------------------------------------------------------------- specification

  /** The records not yet forgotten at `now`. */
  function Active(history: History, now: nat): History {
    map k | k in history && Since(now, history[k].resolvedTs) <= REINTRO_WINDOW_SECS :: history[k]
  }

  /** The last found of a key names its entry. */
  ghost function LastOf(prints: seq<Print>, k: Key): Print
    requires k in KeysOf(prints)
  {
    var n := |prints| - 1;
    if prints[n].key == k then prints[n] else KeysOfSnoc(prints, n); assert prints[..n + 1] == prints; LastOf(prints[..n], k)
  }

  /** The first found of a key is the one charged for its return. */
  ghost function FirstOf(prints: seq<Print>, k: Key): Print
    requires k in KeysOf(prints)
  {
    var n := |prints| - 1;
    if k in KeysOf(prints[..n]) then FirstOf(prints[..n], k) else prints[n]
  }

  ghost function Carried(prints: seq<Print>, prior: Entries, now: nat): Entries {
    map k | k in KeysOf(prints) ::
      AgedEntry(if k in prior then prior[k].firstSeen else now, LastOf(prints, k).title, LastOf(prints, k).detector)
  }

  ghost function Returned(prints: seq<Print>, active: History, now: nat): set<Charge> {
    set k | k in active && k in KeysOf(prints) ::
      Charge(k, FirstOf(prints, k).detector, Since(now, active[k].resolvedTs))
  }

  function GoneKeys(prints: seq<Print>, prior: Entries, ignore: set<Key>): set<Key> {
    set k | k in prior && k !in KeysOf(prints) && k !in ignore
  }

  ghost function Gone(keys: set<Key>, prior: Entries, now: nat): set<Charge>
    requires keys <= prior.Keys
  {
    set k | k in keys :: Charge(k, prior[k].detector, Since(now, prior[k].firstSeen))
  }

  function Banked(keys: set<Key>, prior: Entries, now: nat): History
    requires keys <= prior.Keys
  {
    map k | k in keys :: ResolvedRecord(prior[k].detector, now)
  }

  function OldEntries(prev: Aged, p: Pillar): Entries {
    if p in prev then prev[p] else map[]
  }

  /** The four accumulators of `age`, with charges in place of tallies. */
  datatype Outcome = Outcome(
    aged: Aged,
    resolved: multiset<Charge>,
    reintroduced: multiset<Charge>,
    history: History)

  ghost function AgePillar(out: Outcome, p: Pillar, prints: seq<Print>, prior: Entries, now: nat, ignore: set<Key>): Outcome {
    var gone := GoneKeys(prints, prior, ignore);
    Outcome(
      out.aged[p := Carried(prints, prior, now)],
      out.resolved + multiset(Gone(gone, prior, now)),
      out.reintroduced + multiset(Returned(prints, out.history, now)),
      (out.history - KeysOf(prints)) + Banked(gone, prior, now))
  }

  ghost function AgeUpTo(n: nat, prev: Aged, current: Prints, history: History, now: nat, ignore: set<Key>): Outcome
    requires n <= |PILLARS|
  {
    if n == 0 then Outcome(map[], multiset{}, multiset{}, Active(history, now))
    else
      var out := AgeUpTo(n - 1, prev, current, history, now, ignore);
      var p := PILLARS[n - 1];
      if p in current then AgePillar(out, p, current[p], OldEntries(prev, p), now, ignore) else out
  }

  /** All pillars aged, in their fixed order. */
  ghost function Age(prev: Aged, current: Prints, history: History, now: nat, ignore: set<Key>): Outcome {
    AgeUpTo(|PILLARS|, prev, current, history, now, ignore)
  }

  /** A branch's persisted data, and what one more scan makes of it. */
  datatype BranchData = BranchData(prints: Aged, history: History)

  datatype Scan = Scan(prints: Prints, now: nat, ignore: set<Key>)

  const NO_DATA := BranchData(map[], map[])

  ghost function AgeData(data: BranchData, scan: Scan): Outcome {
    Age(data.prints, scan.prints, data.history, scan.now, scan.ignore)
  }

  ghost function AfterScan(data: BranchData, scan: Scan): BranchData {
    BranchData(AgeData(data, scan).aged, AgeData(data, scan).history)
  }

  ghost function After(data: BranchData, scans: seq<Scan>): BranchData {
    if scans == [] then data else AfterScan(After(data, scans[..|scans| - 1]), scans[|scans| - 1])
  }

  // ---------------------------------------------------------------- the scan-time algorithm

  lemma ReturnedSnoc(prints: seq<Print>, i: nat, active: History, now: nat)
    requires i < |prints|
    ensures var k := prints[i].key;
            var before := Returned(prints[..i], active, now);
            Returned(prints[..i + 1], active, now) ==
            if k in active && k !in KeysOf(prints[..i])
            then before + {Charge(k, prints[i].detector, Since(now, active[k].resolvedTs))}
            else before
  {
    KeysOfSnoc(prints, i);
    assert prints[..i + 1][..i] == prints[..i];
  }

  lemma CarriedSnoc(prints: seq<Print>, i: nat, prior: Entries, now: nat)
    requires i < |prints|
    ensures var k := prints[i].key;
            var firstSeen := if k in prior then prior[k].firstSeen else now;
            Carried(prints[..i + 1], prior, now) ==
            Carried(prints[..i], prior, now)[k := AgedEntry(firstSeen, prints[i].title, prints[i].detector)]
  {
    KeysOfSnoc(prints, i);
    assert prints[..i + 1][..i] == prints[..i];
  }

  /** Walk one pillar's prints: returns are charged and leave the history, entries keep their first sighting. */
  method CarryForward(prints: seq<Print>, prior: Entries, now: nat, reintroduced0: TallyMap, active0: History,
                      ghost charged: multiset<Charge>)
    returns (entry: Entries, reintroduced: TallyMap, active: History)
    requires reintroduced0 == Tally(charged)
    ensures entry == Carried(prints, prior, now)
    ensures active == active0 - KeysOf(prints)
    ensures reintroduced == Tally(charged + multiset(Returned(prints, active0, now)))
  {
    entry, reintroduced, active := map[], reintroduced0, active0;
    assert charged + multiset(Returned([], active0, now)) == charged;
    for i := 0 to |prints|
      invariant entry == Carried(prints[..i], prior, now)
      invariant active == active0 - KeysOf(prints[..i])
      invariant reintroduced == Tally(charged + multiset(Returned(prints[..i], active0, now)))
    {
      var found := prints[i];
      CarriedSnoc(prints, i, prior, now);
      reintroduced, active := ReadReturn(prints, i, now, reintroduced, active, active0, charged);
      var firstSeen := if found.key in prior then prior[found.key].firstSeen else now;
      entry := entry[found.key := AgedEntry(firstSeen, found.title, found.detector)];
    }
    assert prints[..|prints|] == prints;
  }

  /** One more print of a walk that started with the history `active0`. */
  method ReadReturn(prints: seq<Print>, i: nat, now: nat, reintroduced0: TallyMap, rest: History,
                    ghost active0: History, ghost charged: multiset<Charge>)
    returns (reintroduced: TallyMap, active: History)
    requires i < |prints| && rest == active0 - KeysOf(prints[..i])
    requires reintroduced0 == Tally(charged + multiset(Returned(prints[..i], active0, now)))
    ensures active == active0 - KeysOf(prints[..i + 1])
    ensures reintroduced == Tally(charged + multiset(Returned(prints[..i + 1], active0, now)))
  {
    KeysOfSnoc(prints, i);
    ReturnedSnoc(prints, i, active0, now);
    reintroduced, active := ChargeReturn(prints[i], now, reintroduced0, rest, charged, Returned(prints[..i], active0, now));
  }

  /** A finding whose record is active is charged for its return, and its record is dropped. */
  method ChargeReturn(found: Print, now: nat, reintroduced0: TallyMap, active0: History,
                      ghost charged: multiset<Charge>, ghost before: set<Charge>)
    returns (reintroduced: TallyMap, active: History)
    requires reintroduced0 == Tally(charged + multiset(before))
    requires found.key in active0 ==> forall c | c in before :: c.key != found.key
    ensures active == active0 - {found.key}
    ensures reintroduced ==
            Tally(charged + multiset(if found.key in active0
                                     then before + {Charge(found.key, found.detector, Since(now, active0[found.key].resolvedTs))}
                                     else before))
  {
    reintroduced, active := reintroduced0, active0;
    if found.key in active {
      var c := Charge(found.key, found.detector, Since(now, active[found.key].resolvedTs));
      TallyInsert(charged, before, c);
      reintroduced := AddCharge(reintroduced, c);
      active := active - {found.key};
    }
  }

  lemma BankOne(active: History, keys: set<Key>, prior: Entries, now: nat, k: Key)
    requires keys <= prior.Keys && k in prior
    ensures active + Banked(keys + {k}, prior, now) ==
            (active + Banked(keys, prior, now))[k := ResolvedRecord(prior[k].detector, now)]
  {
  }

  /** Walk one pillar's previous entries, in any order: vanished findings are charged and banked. */
  method BankGone(prior: Entries, entry: Entries, ignore: set<Key>, now: nat, resolved0: TallyMap, active0: History,
                  ghost prints: seq<Print>, ghost charged: multiset<Charge>)
    returns (resolved: TallyMap, active: History)
    requires entry.Keys == KeysOf(prints)
    requires resolved0 == Tally(charged)
    ensures resolved == Tally(charged + multiset(Gone(GoneKeys(prints, prior, ignore), prior, now)))
    ensures active == active0 + Banked(GoneKeys(prints, prior, ignore), prior, now)
  {
    resolved, active := resolved0, active0;
    ghost var gone := GoneKeys(prints, prior, ignore);
    ghost var done: set<Key> := {};
    var todo := prior.Keys;
    assert charged + multiset(Gone({}, prior, now)) == charged;
    while todo != {}
      invariant todo <= prior.Keys && done <= gone && gone - done <= todo && done !! todo
      invariant active == active0 + Banked(done, prior, now)
      invariant resolved == Tally(charged + multiset(Gone(done, prior, now)))
    {
      var key :| key in todo;
      if key !in entry && key !in ignore {
        var c := Charge(key, prior[key].detector, Since(now, prior[key].firstSeen));
        assert Gone(done + {key}, prior, now) == Gone(done, prior, now) + {c};
        TallyInsert(charged, Gone(done, prior, now), c);
        BankOne(active0, done, prior, now, key);
        resolved := AddCharge(resolved, c);
        active := active[key := ResolvedRecord(prior[key].detector, now)];
        done := done + {key};
      }
      todo := todo - {key};
    }
    assert done == gone;
  }

  /** The scan's accumulators are the specified ones, with charges summed up by detector. */
  ghost predicate Follows(r: Aging, out: Outcome) {
    r.aged == out.aged && r.history == out.history && r.resolved == Tally(out.resolved) && r.reintroduced == Tally(out.reintroduced)
  }

  /** One pillar: returned findings first, then vanished ones. */
  method AgeOne(r: Aging, pillar: Pillar, prints: seq<Print>, prior: Entries, now: nat, ignore: set<Key>, ghost out: Outcome)
    returns (r': Aging)
    requires Follows(r, out)
    ensures Follows(r', AgePillar(out, pillar, prints, prior, now, ignore))
  {
    var entry, reintroduced, active := CarryForward(prints, prior, now, r.reintroduced, r.history, out.reintroduced);
    var resolved, history := BankGone(prior, entry, ignore, now, r.resolved, active, prints, out.resolved);
    r' := Aging.Aging(r.aged[pillar := entry], resolved, reintroduced, history);
  }

  method AgeScan(prev: Aged, current: Prints, history: History, now: nat, ignore: set<Key>)
    returns (r: Aging)
    ensures Follows(r, Age(prev, current, history, now, ignore))
  {
    var active := map k | k in history && Since(now, history[k].resolvedTs) <= REINTRO_WINDOW_SECS :: history[k];
    r := Aging.Aging(map[], map[], map[], active);
    for n := 0 to |PILLARS|
      invariant Follows(r, AgeUpTo(n, prev, current, history, now, ignore))
    {
      var pillar := PILLARS[n];
      if pillar in current {
        r := AgeOne(r, pillar, current[pillar], OldEntries(prev, pillar), now, ignore,
                    AgeUpTo(n, prev, current, history, now, ignore));
      }
    }
  }
}
