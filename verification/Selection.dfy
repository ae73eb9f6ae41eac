/** What is left of a sequence when only the items at some positions stay, in their order. */
module Selection {
  /** `at` lists these positions in order. */
  ghost predicate InOrder(at: seq<nat>, positions: set<nat>) {
    && (forall p :: p in at <==> p in positions)
    && (forall i, j | 0 <= i < j < |at| :: at[i] < at[j])
  }

  /** `kept` are the items at these positions, and no others, in order. */
  ghost predicate Picks<T>(kept: seq<T>, items: seq<T>, positions: set<nat>) {
    && (forall p | p in positions :: p < |items|)
    && exists at: seq<nat> :: InOrder(at, positions) && |at| == |kept| && forall i | 0 <= i < |at| :: at[i] < |items| && kept[i] == items[at[i]]
  }

  lemma PicksNone<T>()
    ensures Picks<T>([], [], {})
  {
    assert InOrder([], {});
  }

  lemma PicksSnoc<T>(kept: seq<T>, items: seq<T>, positions: set<nat>, last: T)
    requires Picks(kept, items, positions)
    ensures Picks(kept, items + [last], positions)
    ensures Picks(kept + [last], items + [last], positions + {|items|})
  {
    var at: seq<nat> :| InOrder(at, positions) && |at| == |kept| && forall i | 0 <= i < |at| :: at[i] < |items| && kept[i] == items[at[i]];
    assert forall i | 0 <= i < |at| :: (items + [last])[at[i]] == items[at[i]];
    var more: seq<nat> := at + [|items|];
    InOrderSnoc(at, positions, |items|);
    assert forall i | 0 <= i < |more| :: more[i] < |items + [last]| && (kept + [last])[i] == (items + [last])[more[i]];
  }

  lemma InOrderSnoc(at: seq<nat>, positions: set<nat>, n: nat)
    requires InOrder(at, positions) && forall p | p in positions :: p < n
    ensures InOrder(at + [n], positions + {n})
  {
    forall p ensures p in at + [n] <==> p in positions + {n} {
    }
    forall i, j | 0 <= i < j < |at + [n]| ensures (at + [n])[i] < (at + [n])[j] {
      assert at[i] in at;
    }
  }

  ghost function Chosen(n: nat, choose: nat -> bool): set<nat> {
    set i | 0 <= i < n && choose(i)
  }

  /** One more item, taken or left. */
  lemma PicksNext<T>(kept: seq<T>, items: seq<T>, n: nat, choose: nat -> bool)
    requires n < |items| && Picks(kept, items[..n], Chosen(n, choose))
    ensures Picks(if choose(n) then kept + [items[n]] else kept, items[..n + 1], Chosen(n + 1, choose))
  {
    PicksSnoc(kept, items[..n], Chosen(n, choose), items[n]);
    assert items[..n + 1] == items[..n] + [items[n]];
    assert Chosen(n + 1, choose) == if choose(n) then Chosen(n, choose) + {n} else Chosen(n, choose);
  }

  lemma PicksNothing<T>(items: seq<T>, choose: nat -> bool)
    ensures Picks([], items[..0], Chosen(0, choose))
  {
    PicksNone<T>();
    assert Chosen(0, choose) == {} && items[..0] == [];
  }
}
