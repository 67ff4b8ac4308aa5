/**
 * The embedder and its cache as the objects they are: fields reassigned call by call. Each method
 * is proved to do what `EmbeddingCache` says of the values its fields hold.
 */
module EmbeddingStore {
  import opened Basics
  import opened EmbeddingCache

  /** `load` is what loading the model would give during the call. */
  class SentenceTransformerEmbedder {
    const configured: string
    var model: Option<Model>
    var useFallback: bool

    function View(): Provider
      reads this
    {
      Provider(configured, model, useFallback)
    }

    constructor (configured: string)
      ensures View() == Provider(configured, None, false) && ValidProvider(View())
    {
      this.configured := configured;
      model, useFallback := None, false;
    }

    method EnsureModelLoaded(load: Option<Model>, allowDownload: bool) returns (loaded: bool)
      modifies this
      ensures (View(), loaded) == Ensure(old(View()), load, allowDownload)
    {
      if model.Some? { return true; }
      if useFallback && !allowDownload { return false; }
      if load.None? {
        if !allowDownload { useFallback := true; }
        return false;
      }
      model := load;
      useFallback := false;
      return true;
    }

    method EmbedTexts(enc: Encoder, texts: seq<string>, w: Weather) returns (answer: Answer)
      modifies this
      ensures (View(), answer) == Answered(old(View()), enc, texts, w)
      ensures answer.Miscounted? <==> Miscounts(old(View()), texts, w)
      ensures answer.Good? ==> |answer.vectors| == |texts|
      ensures old(ValidProvider(View())) ==> ValidProvider(View())
    {
      if texts == [] { return Good([]); }
      var loaded := EnsureModelLoaded(w.load, false);
      if !loaded { return Good(Vectors(enc, FallbackName(View()), texts)); }
      if w.miscounts { return Miscounted; }
      return Good(Vectors(enc, Namespace(View()), texts));
    }
  }

  function Hashed(ns: string, computed: map<string, Vector>): map<ContentHash, Vector> {
    map t | t in computed :: ContentHash(t, ns) := computed[t]
  }

  lemma ZipGrows(keys: seq<string>, values: seq<Vector>, i: nat)
    requires i < |keys| == |values|
    ensures Zip(keys[..i + 1], values[..i + 1]) == Zip(keys[..i], values[..i])[keys[i] := values[i]]
  {
    assert keys[..i + 1][..i] == keys[..i] && values[..i + 1][..i] == values[..i];
  }

  lemma HashedGrows(ns: string, computed: map<string, Vector>, text: string, vector: Vector)
    ensures Hashed(ns, computed[text := vector]) == Hashed(ns, computed)[ContentHash(text, ns) := vector]
  {}

  function Rehashed(from: string, ns: string, vectors: map<ContentHash, Vector>,
                    textsByHash: map<ContentHash, string>): map<ContentHash, Vector>
    requires forall h | h in vectors :: h.namespace == from && h in textsByHash && textsByHash[h] == h.text
  {
    assert forall h, k | h in vectors && k in vectors && textsByHash[h] == textsByHash[k] :: h == k;
    map h | h in vectors :: ContentHash(textsByHash[h], ns) := vectors[h]
  }

  lemma RehashIsHash(from: string, ns: string, computed: map<string, Vector>, textsByHash: map<ContentHash, string>)
    requires forall h | h in Hashed(from, computed) :: h in textsByHash && textsByHash[h] == h.text
    ensures forall h | h in Hashed(from, computed) :: h.namespace == from
    ensures Rehashed(from, ns, Hashed(from, computed), textsByHash) == Hashed(ns, computed)
  {
    var hashed := Hashed(from, computed);
    assert forall t | t in computed :: ContentHash(t, from) in hashed;
    var again := Rehashed(from, ns, hashed, textsByHash);
    assert forall t | t in computed :: ContentHash(t, ns) in again;
  }

  function Stored(ns: string, vectors: map<ContentHash, Vector>): map<Slot, Vector> {
    map h | h in vectors :: Slot(ns, h) := vectors[h]
  }

  lemma StoredIsRows(ns: string, computed: map<string, Vector>)
    ensures Stored(ns, Hashed(ns, computed)) == Rows(ns, computed)
  {
    assert forall t | t in computed :: ContentHash(t, ns) in Hashed(ns, computed);
  }

  class SQLiteCachedEmbeddingProvider {
    const provider: SentenceTransformerEmbedder
    /** The rows of the cache file, and the namespace the open handle on it was opened for. */
    var slots: map<Slot, Vector>
    var cache: Option<string>
    var cacheNamespace: Option<string>
    var cacheDisabled: bool

    ghost predicate Valid()
      reads this, provider
    {
      cache == cacheNamespace && EmbeddingCache.Valid(View())
    }

    function View(): State
      reads this, provider
    {
      State(provider.View(), slots, cache, cacheDisabled)
    }

    constructor (provider: SentenceTransformerEmbedder, slots: map<Slot, Vector>)
      requires ValidProvider(provider.View())
      ensures Valid() && View() == State(provider.View(), slots, None, false) && this.provider == provider
    {
      this.provider, this.slots := provider, slots;
      cache, cacheNamespace, cacheDisabled := None, None, false;
    }

    method DisableCache()
      modifies this
      ensures View() == Disable(old(View())) && cache == cacheNamespace
    {
      cacheDisabled := true;
      cache := None;
      cacheNamespace := None;
    }

    method OpenCache(fails: bool)
      requires Valid()
      modifies this
      ensures Valid() && View() == GetCache(old(View()), fails)
    {
      if cacheDisabled { return; }
      var namespace := Namespace(provider.View());
      if cache.Some? && cacheNamespace == Some(namespace) { return; }
      if fails {
        DisableCache();
        return;
      }
      cache := Some(namespace);
      cacheNamespace := Some(namespace);
    }

    /** Hashes made in the namespace of the lookup are remade when the namespace has moved since. */
    method PutComputedVectors(vectors: map<ContentHash, Vector>, sourceNs: string,
                              textsByHash: map<ContentHash, string>, ghost computed: map<string, Vector>, w: Weather)
      requires Valid() && vectors == Hashed(sourceNs, computed)
      requires forall h | h in vectors :: h in textsByHash && textsByHash[h] == h.text
      modifies this
      ensures Valid() && View() == Put(old(View()), computed, w)
    {
      hide IsFallbackModel, Hashed, Rows;
      if IsFallbackModel(ModelName(provider.View())) { return; }
      OpenCache(w.reopenFails);
      if cache.None? { return; }
      var namespace := cache.value;
      var toStore := vectors;
      if namespace != sourceNs {
        RehashIsHash(sourceNs, namespace, computed, textsByHash);
        toStore := Rehashed(sourceNs, namespace, vectors, textsByHash);
      }
      if w.writeFails {
        DisableCache();
        return;
      }
      slots := slots + Stored(namespace, toStore);
      StoredIsRows(namespace, computed);
    }

    /** The texts whose hash has no stored vector, in first-seen order, as the dictionary keeps them. */
    method MissingTexts(namespace: string, texts: seq<string>) returns (missing: seq<string>)
      ensures missing == Missing(slots, namespace, texts)
    {
      missing := [];
      for i := 0 to |texts|
        invariant missing == Missing(slots, namespace, texts[..i])
      {
        assert texts[..i + 1][..i] == texts[..i];
        if SlotOf(namespace, texts[i]) !in slots && texts[i] !in missing { missing := missing + [texts[i]]; }
      }
      assert texts[..|texts|] == texts;
    }

    method ByHash(namespace: string, keys: seq<string>, values: seq<Vector>)
      returns (vectors: map<ContentHash, Vector>, textsByHash: map<ContentHash, string>)
      requires |keys| == |values|
      ensures vectors == Hashed(namespace, Zip(keys, values))
      ensures forall h | h in vectors :: h in textsByHash && textsByHash[h] == h.text
    {
      vectors, textsByHash := map[], map[];
      for i := 0 to |keys|
        invariant vectors == Hashed(namespace, Zip(keys[..i], values[..i]))
        invariant forall h | h in vectors :: h in textsByHash && textsByHash[h] == h.text
      {
        ZipGrows(keys, values, i);
        hide Hashed, Zip;
        HashedGrows(namespace, Zip(keys[..i], values[..i]), keys[i], values[i]);
        vectors := vectors[ContentHash(keys[i], namespace) := values[i]];
        textsByHash := textsByHash[ContentHash(keys[i], namespace) := keys[i]];
      }
      assert keys[..|keys|] == keys && values[..|keys|] == values;
    }

    method EmbedTexts(enc: Encoder, texts: seq<string>, w: Weather) returns (answer: Answer)
      requires Valid()
      modifies this, provider
      ensures Valid() && (View(), answer) == Call(old(View()), enc, texts, w)
    {
      hide IsFallbackModel, Missing, Zip, Hashed, Rows, Put, Vectors, Ensure, Cached;
      if texts == [] { return Good([]); }
      if IsFallbackModel(ModelName(provider.View())) {
        answer := provider.EmbedTexts(enc, texts, w);
        return;
      }
      OpenCache(w.openFails);
      if cache.None? {
        answer := provider.EmbedTexts(enc, texts, w);
        return;
      }
      if w.readFails {
        DisableCache();
        answer := provider.EmbedTexts(enc, texts, w);
        return;
      }
      answer := AnswerFromCache(enc, texts, w);
    }

    /** The open cache answers what it can; the provider is asked for the rest, and miscounting is an error. */
    method AnswerFromCache(enc: Encoder, texts: seq<string>, w: Weather) returns (answer: Answer)
      requires Valid() && cache.Some?
      modifies this, provider
      ensures Valid() && (View(), answer) == Cached(old(View()), enc, texts, w)
    {
      hide IsFallbackModel, Missing, Zip, Hashed, Rows, Put, Vectors, Ensure;
      var namespace := cache.value;
      var stored := slots;
      var missing := MissingTexts(namespace, texts);
      MissingIsComplete(stored, namespace, texts);
      var computed := [];
      if missing != [] {
        var given := provider.EmbedTexts(enc, missing, w);
        if given.Miscounted? { return CountError; }
        computed := given.vectors;
        var byHash, textsByHash := ByHash(namespace, missing, computed);
        PutComputedVectors(byHash, namespace, textsByHash, Zip(missing, computed), w);
      }
      ZipKeys(missing, computed);
      var computedNow := Zip(missing, computed);
      answer := Good(seq(|texts|, i requires 0 <= i < |texts| =>
        if SlotOf(namespace, texts[i]) in stored then stored[SlotOf(namespace, texts[i])] else computedNow[texts[i]]));
    }
  }
}
