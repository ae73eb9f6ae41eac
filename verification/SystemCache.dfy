/** The index of documentation: each document with its content key and vector, refreshed by embedding only
    what is new. */
module SystemCache {
  import opened Options
  import opened Selection
  import opened VectorCache

  datatype DocKind = Comment | Docstring

  datatype Doc = Doc(file: string, line: nat, symbolPath: string, kind: DocKind, text: string)

  datatype CachedDoc = CachedDoc(key: Key, doc: Doc)

  function KeyedDocs(docs: seq<Doc>, key: Doc -> Key): (r: seq<Keyed<Doc>>)
    ensures |r| == |docs| && forall i | 0 <= i < |r| :: r[i] == Keyed(key(docs[i]), docs[i].text, docs[i])
  {
    if docs == [] then [] else KeyedDocs(docs[..|docs| - 1], key) + [Keyed(key(docs[|docs| - 1]), docs[|docs| - 1].text, docs[|docs| - 1])]
  }

  function Listed(items: seq<Keyed<Doc>>): (r: seq<CachedDoc>)
    ensures |r| == |items| && forall i | 0 <= i < |r| :: r[i] == CachedDoc(items[i].key, items[i].value)
  {
    if items == [] then [] else Listed(items[..|items| - 1]) + [CachedDoc(items[|items| - 1].key, items[|items| - 1].value)]
  }

  /** What the cache holds; a document without a vector, or a vector without a document, counts for nothing. */
  function Have(docs: seq<CachedDoc>, vectors: seq<Vector>): Vectors {
    var n := if |docs| < |vectors| then |docs| else |vectors|;
    Paired(docs[..n], vectors[..n])
  }

  function Paired(docs: seq<CachedDoc>, vectors: seq<Vector>): Vectors
    requires |docs| == |vectors|
  {
    if docs == [] then map[]
    else
      var n := |docs| - 1;
      Paired(docs[..n], vectors[..n])[docs[n].key := vectors[n]]
  }

  function DocKeys(docs: seq<CachedDoc>): set<Key> {
    set i | 0 <= i < |docs| :: docs[i].key
  }

  /** The persisted cache. */
  datatype Index = Index(modelId: string, docs: seq<CachedDoc>, vectors: seq<Vector>)

  const EMPTY := Index("", [], [])

  /** The vectors a refresh starts from: none of another model. */
  function Reusable(index: Index, e: Embedder): Vectors {
    if index.modelId == e.modelId then Have(index.docs, index.vectors) else map[]
  }

  function ToEmbed(index: Index, items: seq<Keyed<Doc>>, e: Embedder): seq<Keyed<Doc>> {
    Missing(Wanted(items), Reusable(index, e))
  }

  predicate Answered(index: Index, items: seq<Keyed<Doc>>, e: Embedder) {
    |e.embed(Texts(ToEmbed(index, items, e)))| == |ToEmbed(index, items, e)|
  }

  lemma AllFilled(items: seq<Keyed<Doc>>, have: Vectors, vectors: seq<Vector>)
    requires |vectors| == |Missing(items, have)|
    ensures KeysOf(items) <= Filled(have, Missing(items, have), vectors).Keys
  {
    MissingExactly(items, have);
  }

  /** The index after a refresh the embedder answered. */
  function Refreshed(index: Index, items: seq<Keyed<Doc>>, e: Embedder): Index
    requires Answered(index, items, e)
  {
    var wanted, missing := Wanted(items), ToEmbed(index, items, e);
    var embedded := e.embed(Texts(missing));
    AllFilled(wanted, Reusable(index, e), embedded);
    Index(e.modelId, Listed(wanted), Gathered(wanted, Filled(Reusable(index, e), missing, embedded)))
  }

  class Cache {
    var modelId: string
    var docs: seq<CachedDoc>
    var vectors: seq<Vector>

    ghost function Value(): Index
      reads this
    {
      Index(modelId, docs, vectors)
    }

    constructor ()
      ensures Value() == EMPTY
    {
      modelId, docs, vectors := "", [], [];
    }

    /** Rebuilds the index for exactly `newDocs`, embedding only those without a vector; when the embedder
        fails the index is left empty. `asked` is what the embedder was given. */
    method Refresh(newDocs: seq<Doc>, key: Doc -> Key, e: Embedder) returns (ok: bool, asked: seq<string>)
      modifies this
      ensures var items := KeyedDocs(newDocs, key);
              && asked == Texts(ToEmbed(old(Value()), items, e))
              && ok == Answered(old(Value()), items, e)
              && Value() == if ok then Refreshed(old(Value()), items, e) else Index(e.modelId, [], [])
    {
      var items := KeyedDocs(newDocs, key);
      if modelId != e.modelId {
        docs, vectors, modelId := [], [], e.modelId;
      }
      var have := TakeVectors();
      assert have == Reusable(old(Value()), e);
      var wanted := Dedupe(items);
      var missing := FindMissing(wanted, have);
      asked := Texts(missing);
      var embedded := e.embed(asked);
      if |embedded| != |asked| {
        return false, asked;
      }
      AllFilled(wanted, have, embedded);
      have := Fill(have, missing, embedded);
      WantedOnce(items);
      docs, vectors := Rebuild(wanted, have);
      ok := true;
    }

    /** Moves the cached vectors out. */
    method TakeVectors() returns (have: Vectors)
      modifies this`docs, this`vectors
      ensures docs == [] && vectors == []
      ensures have == Have(old(docs), old(vectors))
    {
      have := map[];
      var n := if |docs| < |vectors| then |docs| else |vectors|;
      for i := 0 to n
        invariant docs == old(docs) && vectors == old(vectors)
        invariant have == Paired(docs[..i], vectors[..i])
      {
        assert docs[..i + 1][..i] == docs[..i] && vectors[..i + 1][..i] == vectors[..i];
        have := have[docs[i].key := vectors[i]];
      }
      docs, vectors := [], [];
    }
  }

  /** Lists the wanted documents with their vectors, taking each vector out once. */
  method Rebuild(wanted: seq<Keyed<Doc>>, have: Vectors) returns (docs: seq<CachedDoc>, vectors: seq<Vector>)
    requires KeysOf(wanted) <= have.Keys
    requires forall i, j | 0 <= i < j < |wanted| :: wanted[i].key != wanted[j].key
    ensures docs == Listed(wanted) && vectors == Gathered(wanted, have)
  {
    docs, vectors := [], [];
    var left := have;
    for i := 0 to |wanted|
      invariant |docs| == |vectors| == i
      invariant forall j | 0 <= j < i :: docs[j] == CachedDoc(wanted[j].key, wanted[j].value)
      invariant forall j | 0 <= j < i :: wanted[j].key in have && vectors[j] == have[wanted[j].key]
      invariant forall j | i <= j < |wanted| :: wanted[j].key in have ==> wanted[j].key in left && left[wanted[j].key] == have[wanted[j].key]
    {
      var k := wanted[i].key;
      assert k in KeysOf(wanted);
      if k in left {
        docs := docs + [CachedDoc(k, wanted[i].value)];
        vectors := vectors + [left[k]];
        left := left - {k};
      }
    }
  }

  // ---------------------------------------------------------------- main results

  /** A cache whose every vector is the embedding of the text its key stands for. */
  ghost predicate CoherentIndex(index: Index, textOf: Key -> string, vec: string -> Vector) {
    && |index.docs| == |index.vectors|
    && forall i | 0 <= i < |index.docs| :: index.vectors[i] == vec(textOf(index.docs[i].key))
  }

  lemma {:induction false} PairedCoherent(docs: seq<CachedDoc>, vectors: seq<Vector>, textOf: Key -> string, vec: string -> Vector)
    requires |docs| == |vectors| && forall i | 0 <= i < |docs| :: vectors[i] == vec(textOf(docs[i].key))
    ensures Coherent(Paired(docs, vectors), textOf, vec)
    ensures Paired(docs, vectors).Keys == DocKeys(docs)
  {
    if docs != [] {
      var n := |docs| - 1;
      PairedCoherent(docs[..n], vectors[..n], textOf, vec);
      DocKeysSnoc(docs);
    }
  }

  /** What a refresh of an empty cache gives: every wanted document with the embedding of its text. */
  function Cold(items: seq<Keyed<Doc>>, modelId: string, vec: string -> Vector): Index {
    Index(modelId, Listed(Wanted(items)), Embedded(vec, Texts(Wanted(items))))
  }

  lemma ColdIsCoherent(items: seq<Keyed<Doc>>, modelId: string, textOf: Key -> string, vec: string -> Vector)
    requires KeyedBy(items, textOf)
    ensures CoherentIndex(Cold(items, modelId, vec), textOf, vec)
  {
    WantedKeyed(items, textOf);
    forall i | 0 <= i < |Wanted(items)| ensures vec(Wanted(items)[i].text) == vec(textOf(Wanted(items)[i].key)) {
      assert Wanted(items)[i] in Wanted(items);
    }
  }

  /** The last of the first `n` documents with this key. */
  function LastOf(docs: seq<CachedDoc>, n: nat, k: Key): (i: Option<nat>)
    requires n <= |docs|
    ensures i.Some? ==> i.value < n && docs[i.value].key == k
    ensures forall j | 0 <= j < n && (i.Some? ==> i.value < j) :: docs[j].key != k
  {
    if n == 0 then None else if docs[n - 1].key == k then Some(n - 1) else LastOf(docs, n - 1, k)
  }

  /** Documents and vectors are paired as far as both go, and of several vectors for a key the last one counts. */
  lemma HaveExactly(docs: seq<CachedDoc>, vectors: seq<Vector>, k: Key)
    ensures match LastOf(docs, if |docs| < |vectors| then |docs| else |vectors|, k)
            case Some(i) => k in Have(docs, vectors) && Have(docs, vectors)[k] == vectors[i]
            case None => k !in Have(docs, vectors)
  {
    PairedUpTo(docs, vectors, if |docs| < |vectors| then |docs| else |vectors|, k);
  }

  lemma {:induction false} PairedUpTo(docs: seq<CachedDoc>, vectors: seq<Vector>, n: nat, k: Key)
    requires n <= |docs| && n <= |vectors|
    ensures var have := Paired(docs[..n], vectors[..n]);
            match LastOf(docs, n, k)
            case Some(i) => k in have && have[k] == vectors[i]
            case None => k !in have
  {
    if n > 0 {
      PairedUpTo(docs, vectors, n - 1, k);
      assert docs[..n][..n - 1] == docs[..n - 1] && vectors[..n][..n - 1] == vectors[..n - 1];
    }
  }

  lemma DocKeysSnoc(docs: seq<CachedDoc>)
    requires docs != []
    ensures DocKeys(docs) == DocKeys(docs[..|docs| - 1]) + {docs[|docs| - 1].key}
  {
    var before := docs[..|docs| - 1];
    assert docs[|docs| - 1].key in DocKeys(docs);
    forall i | 0 <= i < |before| ensures before[i].key in DocKeys(docs) {
      assert docs[i].key == before[i].key;
    }
    forall i | 0 <= i < |before| ensures docs[i].key in DocKeys(before) {
      assert before[i].key == docs[i].key;
    }
  }

  /** Warm equals cold: from any coherent cache a refresh gives the documents and vectors it gives from an
      empty one, one vector for each document, and leaves the cache coherent. */
  lemma WarmIsCold(index: Index, items: seq<Keyed<Doc>>, e: Embedder, textOf: Key -> string, vec: string -> Vector)
    requires Pointwise(e, vec) && KeyedBy(items, textOf)
    requires index.modelId == e.modelId ==> CoherentIndex(index, textOf, vec)
    ensures Answered(index, items, e) && Answered(EMPTY, items, e)
    ensures Refreshed(index, items, e) == Refreshed(EMPTY, items, e) == Cold(items, e.modelId, vec)
    ensures CoherentIndex(Refreshed(index, items, e), textOf, vec)
  {
    RefreshIsCold(index, items, e, textOf, vec);
    RefreshIsCold(EMPTY, items, e, textOf, vec);
    ColdIsCoherent(items, e.modelId, textOf, vec);
  }

  /** The documents of a refreshed index have exactly the keys asked for, each once, with one vector each. */
  lemma RefreshListsOnce(index: Index, items: seq<Keyed<Doc>>, e: Embedder)
    requires Answered(index, items, e)
    ensures var docs := Refreshed(index, items, e).docs;
            && |docs| == |Refreshed(index, items, e).vectors|
            && (forall i, j | 0 <= i < j < |docs| :: docs[i].key != docs[j].key)
            && DocKeys(docs) == KeysOf(items)
  {
    WantedOnce(items);
    ListedKeys(Wanted(items));
    assert Refreshed(index, items, e).docs == Listed(Wanted(items));
  }

  lemma ListedKeys(items: seq<Keyed<Doc>>)
    ensures DocKeys(Listed(items)) == KeysOf(items)
  {
    forall k ensures k in DocKeys(Listed(items)) <==> k in KeysOf(items) {
      if k in KeysOf(items) {
        var i :| 0 <= i < |items| && items[i].key == k;
        assert Listed(items)[i].key == k;
      }
    }
  }

  lemma WantedKeyed(items: seq<Keyed<Doc>>, textOf: Key -> string)
    requires KeyedBy(items, textOf)
    ensures KeyedBy(Wanted(items), textOf)
  {
    WantedOnce(items);
    forall w | w in Wanted(items) ensures w.text == textOf(w.key) {
      assert FirstOfKey(items, w);
    }
  }

  lemma RefreshIsCold(index: Index, items: seq<Keyed<Doc>>, e: Embedder, textOf: Key -> string, vec: string -> Vector)
    requires Pointwise(e, vec) && KeyedBy(items, textOf)
    requires index.modelId == e.modelId ==> CoherentIndex(index, textOf, vec)
    ensures Answered(index, items, e)
    ensures Refreshed(index, items, e) == Cold(items, e.modelId, vec)
  {
    var wanted, have := Wanted(items), Reusable(index, e);
    var missing := Missing(wanted, have);
    WantedKeyed(items, textOf);
    MissingExactly(wanted, have);
    if index.modelId == e.modelId {
      assert index.docs[..|index.docs|] == index.docs && index.vectors[..|index.vectors|] == index.vectors;
      PairedCoherent(index.docs, index.vectors, textOf, vec);
    }
    var embedded := e.embed(Texts(missing));
    assert embedded == Embedded(vec, Texts(missing));
    FilledCoherent(have, missing, embedded, textOf, vec);
    AllFilled(wanted, have, embedded);
    GatheredOwn(wanted, Filled(have, missing, embedded), textOf, vec);
  }

  /** Refreshing again with the same documents embeds nothing. */
  lemma SecondRefreshAsksNothing(index: Index, items: seq<Keyed<Doc>>, e: Embedder, textOf: Key -> string, vec: string -> Vector)
    requires Pointwise(e, vec) && KeyedBy(items, textOf)
    requires index.modelId == e.modelId ==> CoherentIndex(index, textOf, vec)
    ensures Answered(index, items, e) && ToEmbed(Refreshed(index, items, e), items, e) == []
  {
    RefreshIsCold(index, items, e, textOf, vec);
    ColdIsCoherent(items, e.modelId, textOf, vec);
    ColdHasAll(items, e, textOf, vec);
    NothingMissing(Wanted(items), Reusable(Cold(items, e.modelId, vec), e));
  }

  lemma ColdHasAll(items: seq<Keyed<Doc>>, e: Embedder, textOf: Key -> string, vec: string -> Vector)
    requires CoherentIndex(Cold(items, e.modelId, vec), textOf, vec)
    ensures KeysOf(Wanted(items)) <= Reusable(Cold(items, e.modelId, vec), e).Keys
  {
    var index, wanted := Cold(items, e.modelId, vec), Wanted(items);
    assert index.docs[..|wanted|] == index.docs && index.vectors[..|wanted|] == index.vectors;
    PairedCoherent(index.docs, index.vectors, textOf, vec);
    ListedKeys(wanted);
  }

  function DocsOf(docs: seq<CachedDoc>): (r: seq<Doc>)
    ensures |r| == |docs| && forall i | 0 <= i < |r| :: r[i] == docs[i].doc
  {
    if docs == [] then [] else DocsOf(docs[..|docs| - 1]) + [docs[|docs| - 1].doc]
  }

  /** After a refresh from any coherent cache the index lists the given documents, of several with one key the first, in
      their order, each under its own key and with the embedding of its own text. */
  lemma RefreshMeans(index: Index, newDocs: seq<Doc>, key: Doc -> Key, e: Embedder, textOf: Key -> string, vec: string -> Vector)
    requires Pointwise(e, vec) && forall d | d in newDocs :: d.text == textOf(key(d))
    requires index.modelId == e.modelId ==> CoherentIndex(index, textOf, vec)
    ensures var items := KeyedDocs(newDocs, key);
            Answered(index, items, e) &&
            var r := Refreshed(index, items, e);
            && r.modelId == e.modelId && |r.docs| == |r.vectors|
            && (forall i | 0 <= i < |r.docs| :: r.docs[i].key == key(r.docs[i].doc) && r.vectors[i] == vec(r.docs[i].doc.text))
            && Picks(DocsOf(r.docs), newDocs, set i | 0 <= i < |newDocs| && forall j | 0 <= j < i :: key(newDocs[j]) != key(newDocs[i]))
  {
    var items := KeyedDocs(newDocs, key);
    forall item | item in items ensures item.text == textOf(item.key) {
      var i :| 0 <= i < |items| && items[i] == item;
      assert newDocs[i] in newDocs;
    }
    RefreshIsCold(index, items, e, textOf, vec);
    DocsOfWanted(newDocs, key, items, Wanted(items));
  }

  lemma DocsOfWanted(newDocs: seq<Doc>, key: Doc -> Key, items: seq<Keyed<Doc>>, wanted: seq<Keyed<Doc>>)
    requires items == KeyedDocs(newDocs, key) && wanted == Wanted(items)
    ensures forall i | 0 <= i < |wanted| :: wanted[i] == Keyed(key(wanted[i].value), wanted[i].value.text, wanted[i].value)
    ensures Picks(DocsOf(Listed(wanted)), newDocs, set i | 0 <= i < |newDocs| && forall j | 0 <= j < i :: key(newDocs[j]) != key(newDocs[i]))
  {
    WantedInOrder(items);
    SameFirsts(newDocs, key, items);
    PickedDocs(wanted, items, newDocs, DocsOf(Listed(wanted)), set i | 0 <= i < |items| && forall j | 0 <= j < i :: items[j].key != items[i].key);
    WantedOnce(items);
    forall i | 0 <= i < |wanted| ensures wanted[i] == Keyed(key(wanted[i].value), wanted[i].value.text, wanted[i].value) {
      assert wanted[i] in wanted && FirstOfKey(items, wanted[i]);
    }
  }

  lemma SameFirsts(newDocs: seq<Doc>, key: Doc -> Key, items: seq<Keyed<Doc>>)
    requires items == KeyedDocs(newDocs, key)
    ensures (set i | 0 <= i < |items| && forall j | 0 <= j < i :: items[j].key != items[i].key) ==
            set i | 0 <= i < |newDocs| && forall j | 0 <= j < i :: key(newDocs[j]) != key(newDocs[i])
  {
  }

  lemma PickedDocs(wanted: seq<Keyed<Doc>>, items: seq<Keyed<Doc>>, newDocs: seq<Doc>, docs: seq<Doc>, positions: set<nat>)
    requires Picks(wanted, items, positions) && |items| == |newDocs| && |docs| == |wanted|
    requires (forall i | 0 <= i < |items| :: items[i].value == newDocs[i]) && forall i | 0 <= i < |wanted| :: docs[i] == wanted[i].value
    ensures Picks(docs, newDocs, positions)
  {
    var at: seq<nat> :| InOrder(at, positions) && |at| == |wanted| && forall i | 0 <= i < |at| :: at[i] < |items| && wanted[i] == items[at[i]];
    assert forall i | 0 <= i < |at| :: docs[i] == newDocs[at[i]];
  }
}
