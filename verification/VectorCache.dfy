/** What both embedding caches do with keys: keep the first item of each key, embed only what is absent. */
module VectorCache {
  import opened Options
  import opened Selection

  type Key = nat
  type Vector = seq<real>
  type Vectors = map<Key, Vector>

  /** A thing to embed, its content key and its text. */
  datatype Keyed<+T> = Keyed(key: Key, text: string, value: T)

  /** An embedding model: a batch of texts to a batch of vectors, shorter when the model fails. */
  datatype Embedder = Embedder(modelId: string, embed: seq<string> -> seq<Vector>)

  function Embedded(vec: string -> Vector, texts: seq<string>): (r: seq<Vector>)
    ensures |r| == |texts| && forall i | 0 <= i < |r| :: r[i] == vec(texts[i])
  {
    if texts == [] then [] else Embedded(vec, texts[..|texts| - 1]) + [vec(texts[|texts| - 1])]
  }

  /** The model embeds every text on its own. */
  ghost predicate Pointwise(e: Embedder, vec: string -> Vector) {
    forall texts :: e.embed(texts) == Embedded(vec, texts)
  }

  function KeysOf<T>(items: seq<Keyed<T>>): set<Key> {
    set i | 0 <= i < |items| :: items[i].key
  }

  function Texts<T>(items: seq<Keyed<T>>): (r: seq<string>)
    ensures |r| == |items| && forall i | 0 <= i < |r| :: r[i] == items[i].text
  {
    if items == [] then [] else Texts(items[..|items| - 1]) + [items[|items| - 1].text]
  }

  /** The first item of each key, in order. */
  function Wanted<T>(items: seq<Keyed<T>>): seq<Keyed<T>> {
    if items == [] then []
    else
      var before, last := items[..|items| - 1], items[|items| - 1];
      if last.key in KeysOf(before) then Wanted(before) else Wanted(before) + [last]
  }

  /** The items a cache has no vector for. */
  function Missing<T>(items: seq<Keyed<T>>, have: Vectors): seq<Keyed<T>> {
    if items == [] then []
    else
      var before, last := Missing(items[..|items| - 1], have), items[|items| - 1];
      if last.key in have then before else before + [last]
  }

  function Filled<T>(have: Vectors, items: seq<Keyed<T>>, vectors: seq<Vector>): (r: Vectors)
    requires |items| == |vectors|
    ensures r.Keys == have.Keys + KeysOf(items)
  {
    if items == [] then have
    else
      var n := |items| - 1;
      assert items == items[..n] + [items[n]];
      KeysSnoc(items[..n], items[n]);
      Filled(have, items[..n], vectors[..n])[items[n].key := vectors[n]]
  }

  function Gathered<T>(items: seq<Keyed<T>>, have: Vectors): (r: seq<Vector>)
    requires KeysOf(items) <= have.Keys
    ensures |r| == |items| && forall i | 0 <= i < |r| :: items[i].key in have && r[i] == have[items[i].key]
  {
    if items == [] then []
    else
      var n := |items| - 1;
      assert items == items[..n] + [items[n]];
      KeysSnoc(items[..n], items[n]);
      Gathered(items[..n], have) + [have[items[n].key]]
  }

  // ---------------------------------------------------------------- keys

  lemma KeysSnoc<T>(items: seq<Keyed<T>>, last: Keyed<T>)
    ensures KeysOf(items + [last]) == KeysOf(items) + {last.key}
  {
    var all := items + [last];
    assert all[|items|].key in KeysOf(all);
    forall i | 0 <= i < |items| ensures items[i].key in KeysOf(all) {
      assert all[i].key == items[i].key;
    }
  }

  /** The wanted items have distinct keys, exactly the keys asked for, and each is the first of its key. */
  lemma {:induction false} WantedOnce<T>(items: seq<Keyed<T>>)
    ensures KeysOf(Wanted(items)) == KeysOf(items)
    ensures forall i, j | 0 <= i < j < |Wanted(items)| :: Wanted(items)[i].key != Wanted(items)[j].key
    ensures forall w | w in Wanted(items) :: FirstOfKey(items, w)
  {
    if items != [] {
      var before, last := items[..|items| - 1], items[|items| - 1];
      assert items == before + [last];
      WantedOnce(before);
      KeysSnoc(before, last);
      if last.key !in KeysOf(before) {
        KeysSnoc(Wanted(before), last);
        assert forall i | 0 <= i < |Wanted(before)| :: Wanted(before)[i].key in KeysOf(Wanted(before));
      }
      forall w | w in Wanted(items) ensures FirstOfKey(items, w) {
        FirstSnoc(before, last, w);
      }
    }
  }

  ghost predicate FirstOfKey<T>(items: seq<Keyed<T>>, w: Keyed<T>) {
    exists i :: 0 <= i < |items| && items[i] == w && forall j | 0 <= j < i :: items[j].key != w.key
  }

  lemma FirstSnoc<T>(items: seq<Keyed<T>>, last: Keyed<T>, w: Keyed<T>)
    ensures FirstOfKey(items, w) ==> FirstOfKey(items + [last], w)
    ensures w == last && last.key !in KeysOf(items) ==> FirstOfKey(items + [last], w)
  {
    if FirstOfKey(items, w) {
      var i :| 0 <= i < |items| && items[i] == w && forall j | 0 <= j < i :: items[j].key != w.key;
      assert (items + [last])[i] == w;
    }
    if w == last && last.key !in KeysOf(items) {
      assert forall j | 0 <= j < |items| :: items[j].key in KeysOf(items);
      assert (items + [last])[|items|] == w;
    }
  }

  lemma {:induction false} MissingExactly<T>(items: seq<Keyed<T>>, have: Vectors)
    ensures forall i :: i in Missing(items, have) <==> i in items && i.key !in have
    ensures KeysOf(Missing(items, have)) == KeysOf(items) - have.Keys
  {
    if items != [] {
      var before, last := items[..|items| - 1], items[|items| - 1];
      assert items == before + [last];
      MissingExactly(before, have);
      KeysSnoc(before, last);
      KeysSnoc(Missing(before, have), last);
    }
  }

  /** The wanted items are those at which a key first occurs, in the order of the items. */
  lemma WantedInOrder<T>(items: seq<Keyed<T>>)
    ensures Picks(Wanted(items), items, set i | 0 <= i < |items| && forall j | 0 <= j < i :: items[j].key != items[i].key)
  {
    var choose := (i: nat) => i < |items| && forall j | 0 <= j < i :: items[j].key != items[i].key;
    WantedUpTo(items, |items|, choose);
    assert items[..|items|] == items;
    assert Chosen(|items|, choose) == set i | 0 <= i < |items| && forall j | 0 <= j < i :: items[j].key != items[i].key;
  }

  lemma {:induction false} WantedUpTo<T>(items: seq<Keyed<T>>, n: nat, choose: nat -> bool)
    requires n <= |items| && forall i: nat | i < |items| :: choose(i) <==> forall j | 0 <= j < i :: items[j].key != items[i].key
    ensures Picks(Wanted(items[..n]), items[..n], Chosen(n, choose))
  {
    if n == 0 {
      PicksNothing(items, choose);
    } else {
      WantedUpTo(items, n - 1, choose);
      PicksNext(Wanted(items[..n - 1]), items, n - 1, choose);
      WantedNext(items, n);
    }
  }

  lemma WantedNext<T>(items: seq<Keyed<T>>, n: nat)
    requires 0 < n <= |items|
    ensures Wanted(items[..n]) ==
            if forall j | 0 <= j < n - 1 :: items[j].key != items[n - 1].key then Wanted(items[..n - 1]) + [items[n - 1]]
            else Wanted(items[..n - 1])
  {
    var before := items[..n - 1];
    assert items[..n][..n - 1] == before;
    assert forall j | 0 <= j < n - 1 :: before[j].key in KeysOf(before);
  }

  /** The missing items are those without a vector, in the order of the items. */
  lemma MissingInOrder<T>(items: seq<Keyed<T>>, have: Vectors)
    ensures Picks(Missing(items, have), items, set i | 0 <= i < |items| && items[i].key !in have)
  {
    var choose := (i: nat) => i < |items| && items[i].key !in have;
    MissingUpTo(items, have, |items|, choose);
    assert items[..|items|] == items;
    assert Chosen(|items|, choose) == set i | 0 <= i < |items| && items[i].key !in have;
  }

  lemma {:induction false} MissingUpTo<T>(items: seq<Keyed<T>>, have: Vectors, n: nat, choose: nat -> bool)
    requires n <= |items| && forall i: nat | i < |items| :: choose(i) <==> items[i].key !in have
    ensures Picks(Missing(items[..n], have), items[..n], Chosen(n, choose))
  {
    if n == 0 {
      PicksNothing(items, choose);
    } else {
      MissingUpTo(items, have, n - 1, choose);
      PicksNext(Missing(items[..n - 1], have), items, n - 1, choose);
      assert items[..n][..n - 1] == items[..n - 1];
    }
  }

  /** Each filled item has its own vector, of several with one key the last one's; every other key keeps what it had. */
  lemma {:induction false} FilledExactly<T>(have: Vectors, items: seq<Keyed<T>>, vectors: seq<Vector>, k: Key)
    requires |items| == |vectors|
    ensures var filled := Filled(have, items, vectors);
            match LastOfKey(items, k)
            case Some(i) => k in filled && filled[k] == vectors[i]
            case None => (k in filled <==> k in have) && (k in have ==> filled[k] == have[k])
  {
    if items != [] {
      var n := |items| - 1;
      FilledExactly(have, items[..n], vectors[..n], k);
      assert items == items[..n] + [items[n]];
    }
  }

  function LastOfKey<T>(items: seq<Keyed<T>>, k: Key): (i: Option<nat>)
    ensures i.Some? ==> i.value < |items| && items[i.value].key == k
    ensures forall j | 0 <= j < |items| && (i.Some? ==> i.value < j) :: items[j].key != k
  {
    if items == [] then None
    else if items[|items| - 1].key == k then Some(|items| - 1)
    else LastOfKey(items[..|items| - 1], k)
  }

  lemma {:induction false} NothingMissing<T>(items: seq<Keyed<T>>, have: Vectors)
    requires KeysOf(items) <= have.Keys
    ensures Missing(items, have) == []
  {
    MissingExactly(items, have);
    SomeKey(Missing(items, have));
  }

  lemma SomeKey<T>(items: seq<Keyed<T>>)
    ensures items != [] ==> KeysOf(items) != {}
  {
    if items != [] {
      assert items[0].key in KeysOf(items);
    }
  }

  // ---------------------------------------------------------------- a key determines its text

  /** Every cached vector is the embedding of the text its key stands for. */
  ghost predicate Coherent(have: Vectors, textOf: Key -> string, vec: string -> Vector) {
    forall k | k in have :: have[k] == vec(textOf(k))
  }

  ghost predicate KeyedBy<T>(items: seq<Keyed<T>>, textOf: Key -> string) {
    forall i | i in items :: i.text == textOf(i.key)
  }

  lemma {:induction false} FilledCoherent<T>(have: Vectors, items: seq<Keyed<T>>, vectors: seq<Vector>,
                                             textOf: Key -> string, vec: string -> Vector)
    requires Coherent(have, textOf, vec) && KeyedBy(items, textOf)
    requires |vectors| == |items| && forall i | 0 <= i < |items| :: vectors[i] == vec(items[i].text)
    ensures Coherent(Filled(have, items, vectors), textOf, vec)
  {
    if items != [] {
      var n := |items| - 1;
      assert items[n] in items && forall i | i in items[..n] :: i in items;
      FilledCoherent(have, items[..n], vectors[..n], textOf, vec);
    }
  }

  /** From a coherent cache every item gets the embedding of its own text, whatever was cached. */
  lemma GatheredOwn<T>(items: seq<Keyed<T>>, have: Vectors, textOf: Key -> string, vec: string -> Vector)
    requires Coherent(have, textOf, vec) && KeyedBy(items, textOf) && KeysOf(items) <= have.Keys
    ensures Gathered(items, have) == Embedded(vec, Texts(items))
  {
    forall i | 0 <= i < |items| ensures have[items[i].key] == vec(items[i].text) {
      assert items[i] in items && items[i].key in KeysOf(items);
    }
  }

  // ---------------------------------------------------------------- loops

  /** Keeps the first item of each key. */
  method Dedupe<T>(items: seq<Keyed<T>>) returns (wanted: seq<Keyed<T>>)
    ensures wanted == Wanted(items)
  {
    wanted := [];
    var seen: set<Key> := {};
    for i := 0 to |items|
      invariant wanted == Wanted(items[..i]) && seen == KeysOf(items[..i])
    {
      assert items[..i + 1] == items[..i] + [items[i]];
      KeysSnoc(items[..i], items[i]);
      if items[i].key !in seen {
        seen := seen + {items[i].key};
        wanted := wanted + [items[i]];
      }
    }
    assert items[..|items|] == items;
  }

  method FindMissing<T>(items: seq<Keyed<T>>, have: Vectors) returns (missing: seq<Keyed<T>>)
    ensures missing == Missing(items, have)
  {
    missing := [];
    for i := 0 to |items|
      invariant missing == Missing(items[..i], have)
    {
      assert items[..i + 1] == items[..i] + [items[i]];
      if items[i].key !in have {
        missing := missing + [items[i]];
      }
    }
    assert items[..|items|] == items;
  }

  method Fill<T>(have: Vectors, items: seq<Keyed<T>>, vectors: seq<Vector>) returns (filled: Vectors)
    requires |items| == |vectors|
    ensures filled == Filled(have, items, vectors)
  {
    filled := have;
    for i := 0 to |items|
      invariant filled == Filled(have, items[..i], vectors[..i])
    {
      assert items[..i + 1][..i] == items[..i] && vectors[..i + 1][..i] == vectors[..i];
      filled := filled[items[i].key := vectors[i]];
    }
    assert items[..|items|] == items && vectors[..|items|] == vectors;
  }
}
