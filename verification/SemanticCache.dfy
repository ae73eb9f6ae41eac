/** The vectors of comment bundles, one for every input, cached by content key. */
module SemanticCache {
  import opened Options
  import opened VectorCache

  const SCHEMA_VERSION: nat := 1
  const MODEL_ID := "minishlab/potion-code-16M-v2"

  type Input = Keyed<()>

  datatype CachedVector = CachedVector(key: Key, vector: Vector)

  /** The persisted cache. */
  datatype Store = Store(schemaVersion: nat, modelId: string, vectors: seq<CachedVector>)

  function Pairs(vectors: seq<CachedVector>): Vectors {
    if vectors == [] then map[]
    else Pairs(vectors[..|vectors| - 1])[vectors[|vectors| - 1].key := vectors[|vectors| - 1].vector]
  }

  /** The vectors of a cache of the current schema and model. */
  function Reusable(store: Store): Vectors {
    if store.schemaVersion == SCHEMA_VERSION && store.modelId == MODEL_ID then Pairs(store.vectors) else map[]
  }

  function ToEmbed(store: Store, inputs: seq<Input>): seq<Input> {
    Missing(Wanted(inputs), Reusable(store))
  }

  function Persisted(items: seq<Input>, have: Vectors): (r: seq<CachedVector>)
    requires KeysOf(items) <= have.Keys
    ensures |r| == |items|
    ensures forall i | 0 <= i < |r| :: items[i].key in have && r[i] == CachedVector(items[i].key, have[items[i].key])
  {
    if items == [] then []
    else
      var n := |items| - 1;
      assert items == items[..n] + [items[n]];
      KeysSnoc(items[..n], items[n]);
      Persisted(items[..n], have) + [CachedVector(items[n].key, have[items[n].key])]
  }

  /** What is known once the missing vectors are embedded; the model is only asked when some are. */
  function Known(store: Store, inputs: seq<Input>, embedded: seq<Vector>): (r: Vectors)
    requires |embedded| == |ToEmbed(store, inputs)|
    ensures KeysOf(inputs) <= r.Keys && KeysOf(Wanted(inputs)) <= r.Keys
  {
    WantedOnce(inputs);
    MissingExactly(Wanted(inputs), Reusable(store));
    Filled(Reusable(store), ToEmbed(store, inputs), embedded)
  }

  class SemanticVectors {
    /** The cache file. */
    var file: Store

    constructor (file: Store)
      ensures this.file == file
    {
      this.file := file;
    }

    /** One vector for every input; nothing is persisted when the model is not available or fails. */
    method Vectors(inputs: seq<Input>, model: Option<Embedder>) returns (out: Option<seq<Vector>>)
      modifies this
      ensures var missing := ToEmbed(old(file), inputs);
              var embedded := if missing == [] then [] else if model.None? then [] else model.value.embed(Texts(missing));
              if |embedded| != |missing| then out == None && file == old(file)
              else && out == Some(Gathered(inputs, Known(old(file), inputs, embedded)))
                   && file == Store(SCHEMA_VERSION, MODEL_ID, Persisted(Wanted(inputs), Known(old(file), inputs, embedded)))
    {
      var cache := ResetIfStale(file);
      var existing := CollectPairs(cache.vectors);
      assert existing == Reusable(file);
      var wanted := Dedupe(inputs);
      var missing := FindMissing(wanted, existing);
      var embedded: seq<Vector> := [];
      if missing != [] {
        if model.None? {
          return None;
        }
        embedded := model.value.embed(Texts(missing));
        if |embedded| != |missing| {
          return None;
        }
        existing := Fill(existing, missing, embedded);
      }
      assert existing == Known(file, inputs, embedded);
      WantedOnce(inputs);
      out := Some(Gathered(inputs, existing));
      file := Store(SCHEMA_VERSION, MODEL_ID, Persisted(wanted, existing));
    }

    method ResetIfStale(loaded: Store) returns (cache: Store)
      ensures cache.schemaVersion == SCHEMA_VERSION && cache.modelId == MODEL_ID
      ensures Pairs(cache.vectors) == Reusable(loaded)
    {
      cache := loaded;
      if cache.schemaVersion != SCHEMA_VERSION || cache.modelId != MODEL_ID {
        cache := Store(SCHEMA_VERSION, MODEL_ID, []);
      }
    }

    method CollectPairs(vectors: seq<CachedVector>) returns (pairs: Vectors)
      ensures pairs == Pairs(vectors)
    {
      pairs := map[];
      for i := 0 to |vectors|
        invariant pairs == Pairs(vectors[..i])
      {
        assert vectors[..i + 1][..i] == vectors[..i];
        pairs := pairs[vectors[i].key := vectors[i].vector];
      }
      assert vectors[..|vectors|] == vectors;
    }
  }

  // ---------------------------------------------------------------- main results

  /** A cache that is stale, or whose every vector is the embedding of the text its key stands for. */
  ghost predicate CoherentStore(store: Store, textOf: Key -> string, vec: string -> Vector) {
    store.schemaVersion == SCHEMA_VERSION && store.modelId == MODEL_ID ==>
      forall i | 0 <= i < |store.vectors| :: store.vectors[i].vector == vec(textOf(store.vectors[i].key))
  }

  /** A cache of this schema and model gives every key its last vector; any other cache gives nothing. */
  lemma ReusableExactly(store: Store, k: Key)
    ensures k in Reusable(store) <==>
            store.schemaVersion == 1 && store.modelId == "minishlab/potion-code-16M-v2" && exists i :: 0 <= i < |store.vectors| && store.vectors[i].key == k
    ensures forall i | 0 <= i < |store.vectors| && store.vectors[i].key == k && (forall j | i < j < |store.vectors| :: store.vectors[j].key != k) ::
              k in Reusable(store) ==> Reusable(store)[k] == store.vectors[i].vector
  {
    PairsUpTo(store.vectors, k);
  }

  lemma {:induction false} PairsUpTo(vectors: seq<CachedVector>, k: Key)
    ensures k in Pairs(vectors) <==> exists i :: 0 <= i < |vectors| && vectors[i].key == k
    ensures forall i | 0 <= i < |vectors| && vectors[i].key == k && (forall j | i < j < |vectors| :: vectors[j].key != k) ::
              k in Pairs(vectors) && Pairs(vectors)[k] == vectors[i].vector
  {
    if vectors != [] {
      var n := |vectors| - 1;
      PairsUpTo(vectors[..n], k);
      assert forall i | 0 <= i < n :: vectors[..n][i] == vectors[i];
    }
  }

  lemma {:induction false} PairsCoherent(vectors: seq<CachedVector>, textOf: Key -> string, vec: string -> Vector)
    requires forall i | 0 <= i < |vectors| :: vectors[i].vector == vec(textOf(vectors[i].key))
    ensures Coherent(Pairs(vectors), textOf, vec)
  {
    if vectors != [] {
      PairsCoherent(vectors[..|vectors| - 1], textOf, vec);
    }
  }

  /** From any coherent cache every input gets the embedding of its own text, even when keys repeat, and the
      cache then holds exactly the distinct wanted keys in order, coherently. */
  lemma EveryInputItsOwn(store: Store, inputs: seq<Input>, textOf: Key -> string, vec: string -> Vector)
    requires CoherentStore(store, textOf, vec) && KeyedBy(inputs, textOf)
    ensures var embedded := Embedded(vec, Texts(ToEmbed(store, inputs)));
            var known := Known(store, inputs, embedded);
            && Gathered(inputs, known) == Embedded(vec, Texts(inputs))
            && CoherentStore(Store(SCHEMA_VERSION, MODEL_ID, Persisted(Wanted(inputs), known)), textOf, vec)
  {
    var missing := ToEmbed(store, inputs);
    var embedded := Embedded(vec, Texts(missing));
    if store.schemaVersion == SCHEMA_VERSION && store.modelId == MODEL_ID {
      PairsCoherent(store.vectors, textOf, vec);
    }
    MissingExactly(Wanted(inputs), Reusable(store));
    WantedOnce(inputs);
    forall w | w in Wanted(inputs) ensures w.text == textOf(w.key) {
      assert FirstOfKey(inputs, w);
    }
    FilledCoherent(Reusable(store), missing, embedded, textOf, vec);
    GatheredOwn(inputs, Known(store, inputs, embedded), textOf, vec);
  }

  /** What is persisted are the distinct keys of the inputs, each once, in the order they first appear. */
  lemma PersistsWantedKeys(store: Store, inputs: seq<Input>, embedded: seq<Vector>)
    requires |embedded| == |ToEmbed(store, inputs)|
    ensures var kept := Persisted(Wanted(inputs), Known(store, inputs, embedded));
            && (forall i, j | 0 <= i < j < |kept| :: kept[i].key != kept[j].key)
            && (forall k :: k in KeysOf(inputs) <==> exists i :: 0 <= i < |kept| && kept[i].key == k)
  {
    WantedOnce(inputs);
    var kept := Persisted(Wanted(inputs), Known(store, inputs, embedded));
    forall k ensures k in KeysOf(inputs) <==> exists i :: 0 <= i < |kept| && kept[i].key == k {
      if k in KeysOf(inputs) {
        var i :| 0 <= i < |Wanted(inputs)| && Wanted(inputs)[i].key == k;
        assert kept[i].key == k;
      }
      if i :| 0 <= i < |kept| && kept[i].key == k {
        assert Wanted(inputs)[i].key == k;
      }
    }
  }
}
