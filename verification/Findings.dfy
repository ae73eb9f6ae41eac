/** What one scan reports: fingerprints grouped by pillar, in report order. */
module Findings {
  type Key = string

  datatype Pillar = Cycles | DeadCode | Boundaries | Duplication | Smells

  const PILLARS: seq<Pillar> := [Cycles, DeadCode, Boundaries, Duplication, Smells]

  datatype Print = Print(key: Key, title: string, detector: string)

  type Prints = map<Pillar, seq<Print>>

  function KeysOf(prints: seq<Print>): set<Key> {
    set p | p in prints :: p.key
  }

  lemma KeysOfSnoc(prints: seq<Print>, n: nat)
    requires n < |prints|
    ensures KeysOf(prints[..n + 1]) == KeysOf(prints[..n]) + {prints[n].key}
  {
    assert prints[..n + 1] == prints[..n] + [prints[n]];
  }

  /** Every key of a scan. */
  function NowKeys(current: Prints): set<Key> {
    set p, f | p in current && f in current[p] :: f.key
  }

  /** Keys are unique across pillars: `home` gives the one pillar a key can appear in. */
  ghost predicate HomedPrints(current: Prints, home: Key -> Pillar) {
    forall p, f | p in current && f in current[p] :: home(f.key) == p
  }

  lemma EveryPillarListed(p: Pillar)
    ensures p in PILLARS
  {
    match p {
      case Cycles => assert PILLARS[0] == p;
      case DeadCode => assert PILLARS[1] == p;
      case Boundaries => assert PILLARS[2] == p;
      case Duplication => assert PILLARS[3] == p;
      case Smells => assert PILLARS[4] == p;
    }
  }

  lemma PillarsDistinct(i: nat, j: nat)
    requires i < j < |PILLARS|
    ensures PILLARS[i] != PILLARS[j]
  {
  }
}
