/** Per-detector tallies, and the charges they sum up. */
module Tallies {
  import opened Findings

  datatype Resolved = Resolved(count: nat, secsTotal: nat)

  type TallyMap = map<string, Resolved>

  /** One finding's contribution to a tally. */
  datatype Charge = Charge(key: Key, detector: string, secs: nat)

  function AddCharge(t: TallyMap, c: Charge): TallyMap {
    var sum := if c.detector in t then t[c.detector] else Resolved(0, 0);
    t[c.detector := Resolved(sum.count + 1, sum.secsTotal + c.secs)]
  }

  ghost function Tally(charges: multiset<Charge>): TallyMap
    decreases |charges|
  {
    if charges == multiset{} then map[]
    else var c :| c in charges; AddCharge(Tally(charges - multiset{c}), c)
  }

  lemma AddChargeCommutes(t: TallyMap, c: Charge, d: Charge)
    ensures AddCharge(AddCharge(t, c), d) == AddCharge(AddCharge(t, d), c)
  {
    var cd, dc := AddCharge(AddCharge(t, c), d), AddCharge(AddCharge(t, d), c);
    forall x | x in cd ensures x in dc && cd[x] == dc[x] {
    }
  }

  /** Taking another charge out of one more charge than before. */
  lemma Exchange(charges: multiset<Charge>, c: Charge, d: Charge) returns (rest: multiset<Charge>)
    requires d in charges + multiset{c} && d != c
    ensures |rest| < |charges| && charges == rest + multiset{d} && charges + multiset{c} - multiset{d} == rest + multiset{c}
  {
    rest := charges - multiset{d};
  }

  lemma AddThenRemove(charges: multiset<Charge>, c: Charge)
    ensures charges + multiset{c} - multiset{c} == charges
  {
  }

  ghost function Tallied(charges: multiset<Charge>): (c: Charge)
    requires charges != multiset{}
    ensures c in charges && Tally(charges) == AddCharge(Tally(charges - multiset{c}), c)
  {
    var c :| c in charges && Tally(charges) == AddCharge(Tally(charges - multiset{c}), c);
    c
  }

  /** The order in which findings are charged does not matter. */
  lemma {:induction false} TallyAdd(charges: multiset<Charge>, c: Charge)
    ensures Tally(charges + multiset{c}) == AddCharge(Tally(charges), c)
    decreases |charges|
  {
    var d := Tallied(charges + multiset{c});
    if d == c {
      AddThenRemove(charges, c);
    } else {
      var rest := Exchange(charges, c, d);
      TallyAdd(rest, c);
      TallyAdd(rest, d);
      AddChargeCommutes(Tally(rest), c, d);
    }
  }

  /** Charging one more finding of a set of charges. */
  lemma TallyInsert(charged: multiset<Charge>, s: set<Charge>, c: Charge)
    requires c !in s
    ensures Tally(charged + multiset(s + {c})) == AddCharge(Tally(charged + multiset(s)), c)
  {
    assert multiset(s + {c}) == multiset(s) + multiset{c};
    assert charged + multiset(s + {c}) == charged + multiset(s) + multiset{c};
    TallyAdd(charged + multiset(s), c);
  }

  // ---------------------------------------------------------------- totals over detectors

  ghost function Total(t: TallyMap): Resolved
    decreases |t|
  {
    if t == map[] then Resolved(0, 0)
    else
      var d :| d in t;
      var rest := Total(t - {d});
      Resolved(t[d].count + rest.count, t[d].secsTotal + rest.secsTotal)
  }

  lemma {:induction false} TotalSplit(t: TallyMap, d: string)
    requires d in t
    ensures var rest := Total(t - {d});
            Total(t) == Resolved(t[d].count + rest.count, t[d].secsTotal + rest.secsTotal)
    decreases |t|
  {
    var e :| e in t && Total(t) == Resolved(t[e].count + Total(t - {e}).count, t[e].secsTotal + Total(t - {e}).secsTotal);
    if e != d {
      TotalSplit(t - {e}, d);
      TotalSplit(t - {d}, e);
      assert t - {e} - {d} == t - {d} - {e};
    }
  }

  lemma TotalAdd(t: TallyMap, c: Charge)
    ensures Total(AddCharge(t, c)) == Resolved(Total(t).count + 1, Total(t).secsTotal + c.secs)
  {
    TotalSplit(AddCharge(t, c), c.detector);
    assert AddCharge(t, c) - {c.detector} == t - {c.detector};
    if c.detector in t {
      TotalSplit(t, c.detector);
    } else {
      assert t - {c.detector} == t;
    }
  }

  ghost function Sum(charges: multiset<Charge>, weight: Charge -> nat): nat
    decreases |charges|
  {
    if charges == multiset{} then 0
    else var c :| c in charges; weight(c) + Sum(charges - multiset{c}, weight)
  }

  ghost function Summed(charges: multiset<Charge>, weight: Charge -> nat): (c: Charge)
    requires charges != multiset{}
    ensures c in charges && Sum(charges, weight) == weight(c) + Sum(charges - multiset{c}, weight)
  {
    var c :| c in charges && Sum(charges, weight) == weight(c) + Sum(charges - multiset{c}, weight);
    c
  }

  lemma {:induction false} SumAdd(charges: multiset<Charge>, c: Charge, weight: Charge -> nat)
    ensures Sum(charges + multiset{c}, weight) == Sum(charges, weight) + weight(c)
    decreases |charges|
  {
    var d := Summed(charges + multiset{c}, weight);
    if d == c {
      AddThenRemove(charges, c);
    } else {
      var rest := Exchange(charges, c, d);
      SumAdd(rest, c, weight);
      SumAdd(rest, d, weight);
    }
  }

  ghost function SumSecs(charges: multiset<Charge>): nat {
    Sum(charges, Secs)
  }

  function Secs(c: Charge): nat {
    c.secs
  }

  /** A tally map loses nothing: its counts add up to the number of charges, its seconds to theirs. */
  lemma {:induction false} TallyIsExact(charges: multiset<Charge>)
    ensures Total(Tally(charges)) == Resolved(|charges|, SumSecs(charges))
    decreases |charges|
  {
    if charges != multiset{} {
      var c :| c in charges;
      var rest := charges - multiset{c};
      assert charges == rest + multiset{c};
      TallyIsExact(rest);
      TallyAdd(rest, c);
      SumAdd(rest, c, Secs);
      TotalAdd(Tally(rest), c);
    }
  }

  // ---------------------------------------------------------------- one finding's seconds

  /** The seconds a multiset of charges puts on one finding. */
  ghost function SecsOn(charges: multiset<Charge>, key: Key): nat {
    Sum(charges, SecsFor(key))
  }

  function SecsFor(key: Key): Charge -> nat {
    (c: Charge) => if c.key == key then c.secs else 0
  }

  lemma SecsOnAdd(charges: multiset<Charge>, c: Charge, key: Key)
    ensures SecsOn(charges + multiset{c}, key) == SecsOn(charges, key) + if c.key == key then c.secs else 0
  {
    SumAdd(charges, c, SecsFor(key));
  }

  /** In a set of charges that holds at most one charge per finding, that charge is the finding's total. */
  lemma {:induction false} SecsOnOne(charges: set<Charge>, key: Key)
    requires forall c, d | c in charges && d in charges && c.key == d.key :: c == d
    ensures forall c | c in charges && c.key == key :: SecsOn(multiset(charges), key) == c.secs
    ensures (forall c | c in charges :: c.key != key) ==> SecsOn(multiset(charges), key) == 0
    decreases |charges|
  {
    if charges != {} {
      var d :| d in charges;
      var rest := charges - {d};
      assert multiset(charges) == multiset(rest) + multiset{d};
      SecsOnOne(rest, key);
      SecsOnAdd(multiset(rest), d, key);
    }
  }
}
