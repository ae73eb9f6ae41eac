/** Laws over whole runs of scans on one branch. */
module LedgerRuns {
  import opened Findings
  import opened Tallies
  import opened Clock
  import opened Aging
  import opened Ledger

  /** A key belongs to one pillar only. */
  ghost predicate Homed(scans: seq<Scan>, home: Key -> Pillar) {
    forall s | s in scans :: HomedPrints(s.prints, home)
  }

  /** Moreover fingerprinting lists every pillar. */
  ghost predicate WellFormed(scans: seq<Scan>, home: Key -> Pillar) {
    Homed(scans, home) && forall s, p: Pillar | s in scans :: p in s.prints
  }

  ghost function Last(scans: seq<Scan>): Outcome
    requires scans != []
  {
    AgeData(After(NO_DATA, scans[..|scans| - 1]), scans[|scans| - 1])
  }

  // ---------------------------------------------------------------- conservation of findings

  ghost function TotalResolved(scans: seq<Scan>): nat {
    if scans == [] then 0
    else TotalResolved(scans[..|scans| - 1]) + Total(Tally(Last(scans).resolved)).count
  }

  ghost function TotalReintroduced(scans: seq<Scan>): nat {
    if scans == [] then 0
    else TotalReintroduced(scans[..|scans| - 1]) + Total(Tally(Last(scans).reintroduced)).count
  }

  /** Records dropped from the history because the window had passed. */
  ghost function TotalExpired(scans: seq<Scan>): nat {
    if scans == [] then 0
    else
      var history, now := After(NO_DATA, scans[..|scans| - 1]).history, scans[|scans| - 1].now;
      TotalExpired(scans[..|scans| - 1]) + |history.Keys - Active(history, now).Keys|
  }

  ghost predicate Sound(data: BranchData, home: Key -> Pillar) {
    HomedAged(data.prints, home) && Present(data.prints) !! data.history.Keys
  }

  lemma StepBalances(data: BranchData, scan: Scan, home: Key -> Pillar)
    requires Sound(data, home) && HomedPrints(scan.prints, home)
    ensures Sound(AfterScan(data, scan), home)
    ensures var out := AgeData(data, scan);
            |data.history| + |out.resolved| ==
            |data.history.Keys - Active(data.history, scan.now).Keys| + |out.reintroduced| + |AfterScan(data, scan).history|
  {
    AgeMeaning(data.prints, scan.prints, data.history, scan.now, scan.ignore, home);
    HistorySizes(data.history.Keys, Active(data.history, scan.now).Keys, NowKeys(scan.prints),
                 Vanished(data.prints, scan.prints, scan.ignore));
  }

  lemma HistorySizes(history: set<Key>, active: set<Key>, seen: set<Key>, gone: set<Key>)
    requires active <= history && gone !! active
    ensures |history| + |gone| == |history - active| + |active * seen| + |(active - seen) + gone|
  {
    assert history == (history - active) + active;
    assert active == (active - seen) + (active * seen);
  }

  /** Every resolution ever counted is accounted for: it was reintroduced, it is still in the history,
      or its record expired. No finding is both carried and in the history. */
  lemma {:induction false} LedgerBalances(scans: seq<Scan>, home: Key -> Pillar)
    requires Homed(scans, home)
    ensures Sound(After(NO_DATA, scans), home)
    ensures TotalResolved(scans) == TotalReintroduced(scans) + |After(NO_DATA, scans).history| + TotalExpired(scans)
  {
    if scans != [] {
      var before, scan := scans[..|scans| - 1], scans[|scans| - 1];
      LedgerBalances(before, home);
      StepBalances(After(NO_DATA, before), scan, home);
      TallyIsExact(Last(scans).resolved);
      TallyIsExact(Last(scans).reintroduced);
    }
  }

  // ---------------------------------------------------------------- conservation of time

  predicate PresentAt(scan: Scan, k: Key) {
    k in NowKeys(scan.prints)
  }

  predicate PresentLast(scans: seq<Scan>, k: Key) {
    scans != [] && PresentAt(scans[|scans| - 1], k)
  }

  predicate Sighted(scans: seq<Scan>, k: Key) {
    exists i | 0 <= i < |scans| :: PresentAt(scans[i], k)
  }

  lemma SightedStep(scans: seq<Scan>, k: Key)
    requires scans != []
    ensures Sighted(scans, k) <==> Sighted(scans[..|scans| - 1], k) || PresentLast(scans, k)
  {
    var before := scans[..|scans| - 1];
    if i :| 0 <= i < |scans| && PresentAt(scans[i], k) {
      assert i < |before| ==> PresentAt(before[i], k);
    }
    if i :| 0 <= i < |before| && PresentAt(before[i], k) {
      assert PresentAt(scans[i], k);
    }
  }

  function FirstSighting(scans: seq<Scan>, k: Key): nat {
    if scans == [] then 0
    else if Sighted(scans[..|scans| - 1], k) then FirstSighting(scans[..|scans| - 1], k)
    else scans[|scans| - 1].now
  }

  /** When the finding last appeared or disappeared. */
  function LastTransition(scans: seq<Scan>, k: Key): nat {
    if scans == [] then 0
    else if PresentLast(scans, k) != PresentLast(scans[..|scans| - 1], k) then scans[|scans| - 1].now
    else LastTransition(scans[..|scans| - 1], k)
  }

  /** All seconds charged to the finding, as time to resolution or as time it stayed resolved. */
  ghost function Charged(scans: seq<Scan>, k: Key): nat {
    if scans == [] then 0
    else Charged(scans[..|scans| - 1], k) + SecsOn(Last(scans).resolved, k) + SecsOn(Last(scans).reintroduced, k)
  }

  ghost predicate NeverIgnored(scans: seq<Scan>, k: Key) {
    forall s | s in scans :: k !in s.ignore
  }

  /** The finding was never away for longer than the reintroduction window. */
  predicate NeverExpired(scans: seq<Scan>, k: Key) {
    forall i | 0 < i < |scans| ::
      Sighted(scans[..i], k) && !PresentLast(scans[..i], k) ==>
        Since(scans[i].now, LastTransition(scans[..i], k)) <= REINTRO_WINDOW_SECS
  }

  ghost predicate ClockRuns(scans: seq<Scan>) {
    forall i, j | 0 <= i <= j < |scans| :: scans[i].now <= scans[j].now
  }

  /** The seconds one scan charges to one finding. */
  lemma ScanCharges(data: BranchData, scan: Scan, k: Key, home: Key -> Pillar)
    requires Sound(data, home) && HomedPrints(scan.prints, home)
    ensures var out, active := AgeData(data, scan), Active(data.history, scan.now);
            && SecsOn(out.resolved, k) == (if k in Vanished(data.prints, scan.prints, scan.ignore)
                                           then Since(scan.now, OldEntries(data.prints, home(k))[k].firstSeen) else 0)
            && SecsOn(out.reintroduced, k) == (if k in active && k in NowKeys(scan.prints)
                                               then Since(scan.now, active[k].resolvedTs) else 0)
  {
    PillarByPillar(|PILLARS|, data.prints, scan.prints, data.history, scan.now, scan.ignore, home);
    GoneSecs(data.prints, scan.prints, scan.now, scan.ignore, k, home);
    ReturnSecs(scan.prints, Active(data.history, scan.now), scan.now, k, home);
  }

  lemma GoneSecs(prev: Aged, current: Prints, now: nat, ignore: set<Key>, k: Key, home: Key -> Pillar)
    requires HomedAged(prev, home) && HomedPrints(current, home)
    ensures k in Vanished(prev, current, ignore) ==> k in OldEntries(prev, home(k))
    ensures SecsOn(multiset(GoneCharges(|PILLARS|, prev, current, now, ignore)), k) ==
            if k in Vanished(prev, current, ignore) then Since(now, OldEntries(prev, home(k))[k].firstSeen) else 0
  {
    var g := GoneCharges(|PILLARS|, prev, current, now, ignore);
    GoneChargedKeys(prev, current, now, ignore, home);
    SecsOnOne(g, k);
    if k in Vanished(prev, current, ignore) {
      var c :| c in g && c.key == k;
      GoneFor(prev, current, now, ignore, c, home);
    }
  }

  lemma GoneFor(prev: Aged, current: Prints, now: nat, ignore: set<Key>, c: Charge, home: Key -> Pillar)
    requires HomedAged(prev, home) && HomedPrints(current, home)
    requires c in GoneCharges(|PILLARS|, prev, current, now, ignore)
    ensures c.key in OldEntries(prev, home(c.key)) && c.secs == Since(now, OldEntries(prev, home(c.key))[c.key].firstSeen)
  {
    SharesAtHome(prev, current, map[], now, ignore, home);
    UnionAll(GoneChargesIn(prev, current, now, ignore), c);
  }

  lemma ReturnSecs(current: Prints, active: History, now: nat, k: Key, home: Key -> Pillar)
    requires HomedPrints(current, home)
    ensures SecsOn(multiset(ReturnCharges(|PILLARS|, current, active, now)), k) ==
            if k in active && k in NowKeys(current) then Since(now, active[k].resolvedTs) else 0
  {
    ReturnChargedKeys(current, now, active, home);
    ReturnedFor(current, active, now);
    SecsPerKey(ReturnCharges(|PILLARS|, current, active, now), active.Keys * NowKeys(current), k);
  }

  lemma ReturnedFor(current: Prints, active: History, now: nat)
    ensures forall c | c in ReturnCharges(|PILLARS|, current, active, now) ::
              c.key in active && c.secs == Since(now, active[c.key].resolvedTs)
  {
    forall c | c in ReturnCharges(|PILLARS|, current, active, now)
      ensures c.key in active && c.secs == Since(now, active[c.key].resolvedTs)
    {
      UnionAll(ReturnChargesIn(current, active, now), c);
    }
  }

  lemma SecsPerKey(charges: set<Charge>, keys: set<Key>, k: Key)
    requires OnePerKey(charges, keys)
    ensures if k in keys then exists c :: c in charges && c.key == k && SecsOn(multiset(charges), k) == c.secs
            else SecsOn(multiset(charges), k) == 0
  {
    SecsOnOne(charges, k);
  }

  /** What the store remembers about one finding, told by its appearances alone. */
  ghost predicate Remembers(data: BranchData, scans: seq<Scan>, k: Key, home: Key -> Pillar) {
    var carried := OldEntries(data.prints, home(k));
    && (k in carried <==> PresentLast(scans, k))
    && (k in data.history <==> Sighted(scans, k) && !PresentLast(scans, k))
    && (k in carried ==> carried[k].firstSeen == LastTransition(scans, k))
    && (k in data.history ==> data.history[k].resolvedTs == LastTransition(scans, k))
  }

  lemma RemembersStep(scans: seq<Scan>, k: Key, home: Key -> Pillar)
    requires scans != [] && WellFormed(scans, home) && k !in scans[|scans| - 1].ignore
    requires NeverExpired(scans, k)
    requires var data := After(NO_DATA, scans[..|scans| - 1]);
             Sound(data, home) && Remembers(data, scans[..|scans| - 1], k, home)
    ensures Remembers(After(NO_DATA, scans), scans, k, home)
  {
    var before, scan := scans[..|scans| - 1], scans[|scans| - 1];
    var data := After(NO_DATA, before);
    SightedStep(scans, k);
    AgeMeaning(data.prints, scan.prints, data.history, scan.now, scan.ignore, home);
    AtHome(scan.prints, AfterScan(data, scan).prints, k, home);
    assert k in data.history ==> k in Active(data.history, scan.now) by {
      if k in data.history {
        assert before == scans[..|scans| - 1];
      }
    }
    assert k in Vanished(data.prints, scan.prints, scan.ignore) <==>
           PresentLast(before, k) && !PresentLast(scans, k) by {
      if PresentLast(before, k) && !PresentLast(scans, k) {
        assert home(k) in scan.prints;
        assert k in GoneKeys(scan.prints[home(k)], OldEntries(data.prints, home(k)), scan.ignore);
      }
    }
  }

  lemma AtHome(current: Prints, aged: Aged, k: Key, home: Key -> Pillar)
    requires HomedAged(aged, home) && Present(aged) == NowKeys(current)
    ensures k in OldEntries(aged, home(k)) <==> k in NowKeys(current)
  {
  }

  /** Time telescopes: what is charged to a finding is the time between its first sighting and its last
      transition, because its sighting restarts exactly when it reappears. */
  lemma {:induction false} TimeTelescopes(scans: seq<Scan>, k: Key, home: Key -> Pillar)
    requires WellFormed(scans, home) && ClockRuns(scans)
    requires NeverIgnored(scans, k) && NeverExpired(scans, k)
    ensures Remembers(After(NO_DATA, scans), scans, k, home)
    ensures Sighted(scans, k) ==>
              && FirstSighting(scans, k) <= LastTransition(scans, k) <= scans[|scans| - 1].now
              && Charged(scans, k) == LastTransition(scans, k) - FirstSighting(scans, k)
    ensures !Sighted(scans, k) ==> Charged(scans, k) == 0
  {
    if scans != [] {
      var before := scans[..|scans| - 1];
      RunBefore(scans, k, home);
      TimeTelescopes(before, k, home);
      LedgerBalances(before, home);
      RemembersStep(scans, k, home);
      TransitionCharge(scans, k, home);
      TelescopeStep(scans, k);
    }
  }

  lemma RunBefore(scans: seq<Scan>, k: Key, home: Key -> Pillar)
    requires scans != [] && WellFormed(scans, home) && ClockRuns(scans)
    requires NeverIgnored(scans, k) && NeverExpired(scans, k)
    ensures var before := scans[..|scans| - 1];
            WellFormed(before, home) && ClockRuns(before) && NeverIgnored(before, k) && NeverExpired(before, k)
    ensures k !in scans[|scans| - 1].ignore
  {
    var before := scans[..|scans| - 1];
    forall i | 0 < i < |before| ensures before[..i] == scans[..i] {
    }
  }

  /** The last scan charges the time since the transition before it exactly when it is one. */
  lemma TelescopeStep(scans: seq<Scan>, k: Key)
    requires scans != [] && ClockRuns(scans)
    requires var before := scans[..|scans| - 1];
             && (if Sighted(before, k)
                 then FirstSighting(before, k) <= LastTransition(before, k) <= before[|before| - 1].now
                      && Charged(before, k) == LastTransition(before, k) - FirstSighting(before, k)
                 else Charged(before, k) == 0)
             && SecsOn(Last(scans).resolved, k) + SecsOn(Last(scans).reintroduced, k) ==
                if Sighted(before, k) && PresentLast(before, k) != PresentLast(scans, k)
                then Since(scans[|scans| - 1].now, LastTransition(before, k)) else 0
    ensures Sighted(scans, k) ==>
              && FirstSighting(scans, k) <= LastTransition(scans, k) <= scans[|scans| - 1].now
              && Charged(scans, k) == LastTransition(scans, k) - FirstSighting(scans, k)
    ensures !Sighted(scans, k) ==> Charged(scans, k) == 0
  {
    SightedStep(scans, k);
  }

  /** One scan charges the time since the last transition exactly when it is a transition. */
  lemma TransitionCharge(scans: seq<Scan>, k: Key, home: Key -> Pillar)
    requires scans != [] && WellFormed(scans, home) && k !in scans[|scans| - 1].ignore && NeverExpired(scans, k)
    requires var data := After(NO_DATA, scans[..|scans| - 1]);
             Sound(data, home) && Remembers(data, scans[..|scans| - 1], k, home)
    ensures var before := scans[..|scans| - 1];
            SecsOn(Last(scans).resolved, k) + SecsOn(Last(scans).reintroduced, k) ==
            if Sighted(before, k) && PresentLast(before, k) != PresentLast(scans, k)
            then Since(scans[|scans| - 1].now, LastTransition(before, k)) else 0
  {
    var before, scan := scans[..|scans| - 1], scans[|scans| - 1];
    var data := After(NO_DATA, before);
    ScanCharges(data, scan, k, home);
    assert PresentLast(before, k) ==> Sighted(before, k) by {
      if PresentLast(before, k) {
        assert PresentAt(before[|before| - 1], k);
      }
    }
    if k in data.history {
      assert k in Active(data.history, scan.now);
    }
    if PresentLast(before, k) && !PresentLast(scans, k) {
      assert home(k) in scan.prints;
      assert k in GoneKeys(scan.prints[home(k)], OldEntries(data.prints, home(k)), scan.ignore);
    }
    if k in Vanished(data.prints, scan.prints, scan.ignore) {
      VanishedMeaning(data.prints, scan.prints, scan.ignore, home);
    }
  }
}
