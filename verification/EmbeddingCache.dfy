/**
 * A content-hash cache in front of an embedding provider that may load its model, or give up and
 * fall back to hashing, in the middle of a call. `enc(namespace, text)` is the vector the encoder
 * of a namespace gives for a text; a content hash is modelled by what it is computed from.
 */
module EmbeddingCache {
  import opened Basics

  type Vector = seq<real>

  type Encoder = (string, string) -> Vector

  // ---------------------------------------------------------------- the provider

  /** A loaded model; some declare the namespace of their encoder. */
  datatype Model = Model(namespace: Option<string>)

  datatype Provider = Provider(configured: string, model: Option<Model>, useFallback: bool)

  function FallbackName(p: Provider): string { "hash:" + p.configured }

  function ModelName(p: Provider): string { if p.useFallback then FallbackName(p) else p.configured }

  function Namespace(p: Provider): string {
    if p.model.Some? && p.model.value.namespace.Some? && p.model.value.namespace.value != ""
    then p.model.value.namespace.value else ModelName(p)
  }

  predicate IsSpace(c: char) { c == ' ' || c == '\t' || c == '\n' || c == '\r' }

  function TrimLeft(s: string): string { if s != "" && IsSpace(s[0]) then TrimLeft(s[1..]) else s }

  function TrimRight(s: string): string {
    if s != "" && IsSpace(s[|s| - 1]) then TrimRight(s[..|s| - 1]) else s
  }

  function LowerChar(c: char): char { if 'A' <= c <= 'Z' then c - 'A' + 'a' else c }

  function Lower(s: string): string { seq(|s|, i requires 0 <= i < |s| => LowerChar(s[i])) }

  predicate IsFallbackModel(name: string) {
    var n := Lower(TrimRight(TrimLeft(name)));
    "hash:" <= n || n == "hashing-local"
  }

  /** The name a provider reports after giving up is always recognised as a fallback. */
  lemma FallbackIsRecognised(p: Provider)
    ensures IsFallbackModel(FallbackName(p))
  {
    assert TrimLeft("hash:" + p.configured) == "hash:" + p.configured;
    PrefixSurvivesTrim("hash:", p.configured);
  }

  lemma {:induction false} PrefixSurvivesTrim(prefix: string, rest: string)
    requires prefix != "" && !IsSpace(prefix[|prefix| - 1])
    ensures prefix <= TrimRight(prefix + rest)
  {
    var s := prefix + rest;
    if rest != "" && IsSpace(s[|s| - 1]) {
      assert s[..|s| - 1] == prefix + rest[..|rest| - 1];
      PrefixSurvivesTrim(prefix, rest[..|rest| - 1]);
    }
  }

  predicate Blank(s: string) { forall i | 0 <= i < |s| :: IsSpace(s[i]) }

  lemma {:induction false} TrimLeftDrops(blank: string, rest: string)
    requires Blank(blank) && (rest != "" ==> !IsSpace(rest[0]))
    ensures TrimLeft(blank + rest) == rest
  {
    if blank != "" {
      TrimLeftDrops(blank[1..], rest);
      assert (blank + rest)[1..] == blank[1..] + rest;
    } else {
      assert blank + rest == rest;
    }
  }

  lemma {:induction false} TrimRightDrops(rest: string, blank: string)
    requires Blank(blank) && (rest != "" ==> !IsSpace(rest[|rest| - 1]))
    ensures TrimRight(rest + blank) == rest
    decreases |blank|
  {
    if blank != "" {
      var n := |blank| - 1;
      TrimRightDrops(rest, blank[..n]);
      assert (rest + blank)[..|rest + blank| - 1] == rest + blank[..n];
    } else {
      assert rest + blank == rest;
    }
  }

  /** These letters, in either case. */
  predicate Spells(s: string, word: string) { |s| == |word| && forall i | 0 <= i < |s| :: LowerChar(s[i]) == word[i] }

  /** A name means the fallback exactly if, blanks around it aside and in either case, it begins with `hash:` or is `hashing-local`. */
  lemma FallbackNameIff(before: string, name: string, behind: string)
    requires Blank(before) && Blank(behind) && name != "" && !IsSpace(name[0]) && !IsSpace(name[|name| - 1])
    ensures IsFallbackModel(before + (name + behind))
            <==> (|name| >= 5 && Spells(name[..5], "hash:")) || Spells(name, "hashing-local")
  {
    TrimLeftDrops(before, name + behind);
    TrimRightDrops(name, behind);
    var n := Lower(name);
    assert "hash:" <= n <==> |n| >= 5 && n[..5] == "hash:";
    assert |name| >= 5 ==> (n[..5] == "hash:" <==> Spells(name[..5], "hash:"));
    assert n == "hashing-local" <==> Spells(name, "hashing-local");
  }

  /** The namespace is the one the loaded model declares, else the name of the fallback while in use, else the model's. */
  lemma NamespaceTells(p: Provider)
    ensures p.model.Some? && p.model.value.namespace.Some? && p.model.value.namespace.value != "" ==> Namespace(p) == p.model.value.namespace.value
    ensures p.model.None? || p.model.value.namespace.None? || p.model.value.namespace.value == "" ==>
              Namespace(p) == if p.useFallback then "hash:" + p.configured else p.configured
  {}

  /** `_ensure_model_loaded`: a failed local load is remembered, a failed download is not. */
  function Ensure(p: Provider, load: Option<Model>, allowDownload: bool): (Provider, bool) {
    if p.model.Some? then (p, true)
    else if p.useFallback && !allowDownload then (p, false)
    else if load.None? then (if allowDownload then p else p.(useFallback := true), false)
    else (p.(model := load, useFallback := false), true)
  }

  function Vectors(enc: Encoder, ns: string, texts: seq<string>): seq<Vector> {
    seq(|texts|, i requires 0 <= i < |texts| => enc(ns, texts[i]))
  }

  /** The provider alone: what a caller gets without the cache. */
  function Embed(p: Provider, enc: Encoder, texts: seq<string>, load: Option<Model>): (Provider, seq<Vector>) {
    if texts == [] then (p, [])
    else
      var (after, loaded) := Ensure(p, load, false);
      (after, if loaded then Vectors(enc, Namespace(after), texts) else Vectors(enc, FallbackName(after), texts))
  }

  ghost predicate ValidProvider(p: Provider) { p.useFallback ==> p.model.None? }

  lemma EmbedUsesItsNamespace(p: Provider, enc: Encoder, texts: seq<string>, load: Option<Model>)
    requires ValidProvider(p) && texts != []
    ensures var (after, vectors) := Embed(p, enc, texts, load);
            ValidProvider(after) && vectors == Vectors(enc, Namespace(after), texts)
  {}

  // ---------------------------------------------------------------- the cache

  datatype ContentHash = ContentHash(text: string, namespace: string)

  datatype Slot = Slot(namespace: string, hash: ContentHash)

  datatype State = State(provider: Provider, slots: map<Slot, Vector>, open: Option<string>, disabled: bool)

  /** What the environment does during one call. */
  datatype Weather = Weather(load: Option<Model>, miscounts: bool, openFails: bool, readFails: bool, reopenFails: bool, writeFails: bool)

  /** Vectors, one per text; another number of vectors, passed on as they are; or the error about it. */
  datatype Answer = Good(vectors: seq<Vector>) | Miscounted | CountError

  /** Asked for these texts, a loaded model returns the wrong number of vectors. */
  predicate Miscounts(p: Provider, texts: seq<string>, w: Weather) {
    w.miscounts && texts != [] && Ensure(p, w.load, false).1
  }

  /** The provider alone, well behaved or not. */
  function Answered(p: Provider, enc: Encoder, texts: seq<string>, w: Weather): (Provider, Answer) {
    var (after, vectors) := Embed(p, enc, texts, w.load);
    (after, if Miscounts(p, texts, w) then Miscounted else Good(vectors))
  }

  function Disable(st: State): State { st.(open := None, disabled := true) }

  /** The cache of the provider's current namespace, reopened when the namespace has changed. */
  function GetCache(st: State, fails: bool): State {
    if st.disabled || st.open == Some(Namespace(st.provider)) then st
    else if fails then Disable(st)
    else st.(open := Some(Namespace(st.provider)))
  }

  function Direct(st: State, enc: Encoder, texts: seq<string>, w: Weather): (State, Answer) {
    var (p, answer) := Answered(st.provider, enc, texts, w);
    (st.(provider := p), answer)
  }

  function SlotOf(ns: string, text: string): Slot { Slot(ns, ContentHash(text, ns)) }

  /** The texts without a cached vector, each once, in order of first appearance. */
  function Missing(slots: map<Slot, Vector>, ns: string, texts: seq<string>): seq<string> {
    if texts == [] then []
    else
      var earlier := Missing(slots, ns, texts[..|texts| - 1]);
      var t := texts[|texts| - 1];
      if SlotOf(ns, t) in slots || t in earlier then earlier else earlier + [t]
  }

  /** Where a text first appears, or their number. */
  function FirstAt(texts: seq<string>, t: string): (n: nat)
    ensures n <= |texts| && (n < |texts| ==> texts[n] == t) && forall i | 0 <= i < n :: texts[i] != t
  {
    if texts == [] || texts[0] == t then 0 else 1 + FirstAt(texts[1..], t)
  }

  /** The missing texts come in the order in which they first appear. */
  lemma {:induction false} MissingInOrder(slots: map<Slot, Vector>, ns: string, texts: seq<string>)
    ensures forall i | 0 <= i < |Missing(slots, ns, texts)| :: Missing(slots, ns, texts)[i] in texts
    ensures forall i, j | 0 <= i < j < |Missing(slots, ns, texts)| ::
              FirstAt(texts, Missing(slots, ns, texts)[i]) < FirstAt(texts, Missing(slots, ns, texts)[j])
    decreases |texts|
  {
    if texts != [] {
      var init, t := texts[..|texts| - 1], texts[|texts| - 1];
      MissingInOrder(slots, ns, init);
      assert texts == init + [t];
      forall u | u in init ensures FirstAt(texts, u) == FirstAt(init, u) < |init| {
        var i :| 0 <= i < |init| && init[i] == u;
        assert FirstAt(init, u) <= i;
        assert texts[FirstAt(init, u)] == u;
      }
      if t !in Missing(slots, ns, init) && SlotOf(ns, t) !in slots {
        MissingIsComplete(slots, ns, init);
        assert t !in init;
        assert FirstAt(texts, t) == |init|;
      }
    }
  }

  function Zip(keys: seq<string>, values: seq<Vector>): map<string, Vector>
    requires |keys| == |values|
  {
    if keys == [] then map[] else Zip(keys[..|keys| - 1], values[..|keys| - 1])[keys[|keys| - 1] := values[|keys| - 1]]
  }

  /** One row per computed text, under a namespace and the hash made in it. */
  function Rows(ns: string, computed: map<string, Vector>): map<Slot, Vector> {
    map t | t in computed :: SlotOf(ns, t) := computed[t]
  }

  /** Computed vectors are stored under the namespace in force now, whichever they were looked up in. */
  function Put(st: State, computed: map<string, Vector>, w: Weather): State {
    if IsFallbackModel(ModelName(st.provider)) then st
    else
      var cached := GetCache(st, w.reopenFails);
      if cached.open.None? then cached
      else if w.writeFails then Disable(cached)
      else cached.(slots := cached.slots + Rows(cached.open.value, computed))
  }

  /** `SQLiteCachedEmbeddingProvider.embed`. */
  function Call(st: State, enc: Encoder, texts: seq<string>, w: Weather): (State, Answer) {
    if texts == [] then (st, Good([]))
    else if IsFallbackModel(ModelName(st.provider)) then Direct(st, enc, texts, w)
    else
      var cached := GetCache(st, w.openFails);
      if cached.open.None? then Direct(cached, enc, texts, w)
      else if w.readFails then Direct(Disable(cached), enc, texts, w)
      else Cached(cached, enc, texts, w)
  }

  /** Stored vectors for the texts that have one, the provider's for the others. */
  function Cached(st: State, enc: Encoder, texts: seq<string>, w: Weather): (State, Answer)
    requires st.open.Some?
  {
    var ns := st.open.value;
    var missing := Missing(st.slots, ns, texts);
    var (p, vectors) := Embed(st.provider, enc, missing, w.load);
    if Miscounts(st.provider, missing, w) then (st.(provider := p), CountError)
    else
      EmbedLength(st.provider, enc, missing, w.load);
      MissingIsComplete(st.slots, ns, texts);
      ZipKeys(missing, vectors);
      var computed := Zip(missing, vectors);
      (if missing == [] then st else Put(st.(provider := p), computed, w),
       Good(seq(|texts|, i requires 0 <= i < |texts| =>
              if SlotOf(ns, texts[i]) in st.slots then st.slots[SlotOf(ns, texts[i])] else computed[texts[i]])))
  }

  lemma EmbedLength(p: Provider, enc: Encoder, texts: seq<string>, load: Option<Model>)
    ensures |Embed(p, enc, texts, load).1| == |texts|
  {}

  lemma {:induction false} MissingIsComplete(slots: map<Slot, Vector>, ns: string, texts: seq<string>)
    ensures forall i | 0 <= i < |texts| :: SlotOf(ns, texts[i]) in slots || texts[i] in Missing(slots, ns, texts)
    ensures forall t | t in Missing(slots, ns, texts) :: SlotOf(ns, t) !in slots
    ensures forall i, j | 0 <= i < j < |Missing(slots, ns, texts)| ::
              Missing(slots, ns, texts)[i] != Missing(slots, ns, texts)[j]
  {
    if texts != [] { MissingIsComplete(slots, ns, texts[..|texts| - 1]); }
  }

  lemma {:induction false} ZipKeys(keys: seq<string>, values: seq<Vector>)
    requires |keys| == |values|
    ensures forall k :: k in Zip(keys, values) <==> k in keys
  {
    if keys != [] { ZipKeys(keys[..|keys| - 1], values[..|keys| - 1]); }
  }

  lemma {:induction false} ZipEncoded(enc: Encoder, ns: string, keys: seq<string>)
    ensures forall k | k in keys :: k in Zip(keys, Vectors(enc, ns, keys)) && Zip(keys, Vectors(enc, ns, keys))[k] == enc(ns, k)
    ensures forall k | k in Zip(keys, Vectors(enc, ns, keys)) :: k in keys
  {
    if keys != [] {
      var init := keys[..|keys| - 1];
      assert Vectors(enc, ns, keys)[..|keys| - 1] == Vectors(enc, ns, init);
      ZipEncoded(enc, ns, init);
      assert forall k | k in keys :: k in init || k == keys[|keys| - 1];
    }
  }

  // ---------------------------------------------------------------- soundness

  /** Every stored vector is the one the encoder of its namespace gives for its text. */
  ghost predicate Sound(st: State, enc: Encoder) {
    forall s | s in st.slots :: s.hash.namespace == s.namespace && st.slots[s] == enc(s.namespace, s.hash.text)
  }

  ghost predicate Valid(st: State) { ValidProvider(st.provider) && (st.disabled ==> st.open.None?) }

  lemma PutIsSound(st: State, enc: Encoder, texts: seq<string>, w: Weather)
    requires Valid(st) && Sound(st, enc)
    ensures var after := Put(st, Zip(texts, Vectors(enc, Namespace(st.provider), texts)), w);
            Valid(after) && Sound(after, enc) && after.provider == st.provider
            && forall s | s in st.slots :: s in after.slots
  {
    ZipEncoded(enc, Namespace(st.provider), texts);
    hide IsFallbackModel;
  }

  /** No call ever stores a wrong vector, whatever the provider and the files do during it. */
  lemma CallIsSound(st: State, enc: Encoder, texts: seq<string>, w: Weather)
    requires Valid(st) && Sound(st, enc)
    ensures var after := Call(st, enc, texts, w).0;
            Valid(after) && Sound(after, enc) && forall s | s in st.slots :: s in after.slots
  {
    hide IsFallbackModel, Missing, Zip;
    if texts != [] {
      EmbedUsesItsNamespace(st.provider, enc, texts, w.load);
      var cached := GetCache(st, w.openFails);
      if cached.open.Some? {
        var ns := cached.open.value;
        var missing := Missing(cached.slots, ns, texts);
        if missing != [] {
          EmbedUsesItsNamespace(cached.provider, enc, missing, w.load);
          var (p, vectors) := Embed(cached.provider, enc, missing, w.load);
          PutIsSound(cached.(provider := p), enc, missing, w);
        }
      }
    }
  }

  /** After a provider has given up, nothing it computes is stored. */
  lemma FallbackStoresNothing(st: State, computed: map<string, Vector>, w: Weather)
    requires st.provider.useFallback
    ensures Put(st, computed, w) == st
  {
    FallbackIsRecognised(st.provider);
  }

  datatype Event = Embedding(texts: seq<string>, weather: Weather) | Download(load: Option<Model>)

  function Step(st: State, enc: Encoder, e: Event): State {
    match e
    case Embedding(texts, w) => Call(st, enc, texts, w).0
    case Download(load) => st.(provider := Ensure(st.provider, load, true).0)
  }

  function History(st: State, enc: Encoder, es: seq<Event>): State
    decreases es
  {
    if es == [] then st else History(Step(st, enc, es[0]), enc, es[1..])
  }

  /** Over any sequence of calls, downloads and failures the cache stays sound. */
  lemma {:induction false} HistoryIsSound(st: State, enc: Encoder, es: seq<Event>)
    requires Valid(st) && Sound(st, enc)
    ensures Valid(History(st, enc, es)) && Sound(History(st, enc, es), enc)
    decreases es
  {
    if es != [] {
      if es[0].Embedding? { CallIsSound(st, enc, es[0].texts, es[0].weather); }
      hide Call;
      HistoryIsSound(Step(st, enc, es[0]), enc, es[1..]);
    }
  }

  // ---------------------------------------------------------------- transparency

  /** The call consults the cache. */
  predicate Consults(st: State, w: Weather) {
    !IsFallbackModel(ModelName(st.provider)) && GetCache(st, w.openFails).open.Some? && !w.readFails
  }

  /** It consults the cache and finds this text there. */
  predicate Hit(st: State, w: Weather, text: string) {
    Consults(st, w) && SlotOf(Namespace(st.provider), text) in st.slots
  }

  /** Position by position: a hit is encoded in the namespace before the call, a miss in the one after. */
  lemma CallIsExact(st: State, enc: Encoder, texts: seq<string>, w: Weather)
    requires Valid(st) && Sound(st, enc)
    ensures var answer := Call(st, enc, texts, w).1;
            && (!Miscounts(st.provider, texts, w) ==> answer.Good?)
            && (answer.Good? ==> |answer.vectors| == |texts|)
            && (answer.Good? ==> forall i | 0 <= i < |texts| ::
                     answer.vectors[i] == enc(if Hit(st, w, texts[i]) then Namespace(st.provider)
                                              else Namespace(Embed(st.provider, enc, texts, w.load).0), texts[i]))
            && (Miscounts(st.provider, texts, w) ==> (answer.Miscounted? <==> !Consults(st, w)))
  {
    hide IsFallbackModel, Missing, Zip;
    if texts != [] {
      EmbedUsesItsNamespace(st.provider, enc, texts, w.load);
      var cached := GetCache(st, w.openFails);
      assert cached.open.Some? ==> cached.open.value == Namespace(st.provider);
      if Consults(st, w) {
        var missing := Missing(cached.slots, cached.open.value, texts);
        MissingIsComplete(cached.slots, cached.open.value, texts);
        if missing != [] {
          EmbedUsesItsNamespace(cached.provider, enc, missing, w.load);
          ZipEncoded(enc, Namespace(Embed(cached.provider, enc, missing, w.load).0), missing);
        }
      }
    }
  }

  ghost predicate HitsAgree(st: State, enc: Encoder, texts: seq<string>, w: Weather) {
    forall i | 0 <= i < |texts| && Hit(st, w, texts[i]) ::
      enc(Namespace(st.provider), texts[i]) == enc(Namespace(Embed(st.provider, enc, texts, w.load).0), texts[i])
  }

  /**
   * Transparency. With a provider that counts right, a call answers what the provider alone would
   * exactly when, for every text served from the cache, the encoders of the namespaces before and after
   * the call agree; so always when the call does not change the namespace, with duplicates, partial
   * hits and cache failures. With one that counts wrong, exactly when the cache is not consulted.
   */
  lemma TransparentIff(st: State, enc: Encoder, texts: seq<string>, w: Weather)
    requires Valid(st) && Sound(st, enc)
    ensures var (p, alone) := Answered(st.provider, enc, texts, w);
            && (Call(st, enc, texts, w).1 == alone
                <==> if Miscounts(st.provider, texts, w) then !Consults(st, w) else HitsAgree(st, enc, texts, w))
            && (Namespace(p) == Namespace(st.provider) && !Miscounts(st.provider, texts, w) ==>
                  Call(st, enc, texts, w).1 == alone)
  {
    CallIsExact(st, enc, texts, w);
    var (p, alone) := Answered(st.provider, enc, texts, w);
    var answer := Call(st, enc, texts, w).1;
    if texts != [] { EmbedUsesItsNamespace(st.provider, enc, texts, w.load); }
    hide Call, Hit, Sound, Consults;
    if !Miscounts(st.provider, texts, w) {
      assert |alone.vectors| == |texts| && forall i | 0 <= i < |texts| :: alone.vectors[i] == enc(Namespace(p), texts[i]);
      if HitsAgree(st, enc, texts, w) {
        assert forall i | 0 <= i < |texts| :: answer.vectors[i] == alone.vectors[i];
        assert answer.vectors == alone.vectors;
      } else {
        var i :| 0 <= i < |texts| && Hit(st, w, texts[i]) && enc(Namespace(st.provider), texts[i]) != enc(Namespace(p), texts[i]);
        assert answer.vectors[i] != alone.vectors[i];
      }
    }
  }

  // ---------------------------------------------------------------- what is kept for later

  /** Nothing prevents this call from storing what it computes. */
  predicate CanStore(st: State, enc: Encoder, texts: seq<string>, w: Weather) {
    && Consults(st, w) && !w.reopenFails && !w.writeFails && !Miscounts(st.provider, Missing(st.slots, Namespace(st.provider), texts), w)
    && !IsFallbackModel(ModelName(Call(st, enc, texts, w).0.provider))
  }

  lemma RowsHold(ns: string, computed: map<string, Vector>)
    ensures forall t | t in computed :: SlotOf(ns, t) in Rows(ns, computed) && Rows(ns, computed)[SlotOf(ns, t)] == computed[t]
  {
    forall t | t in computed ensures SlotOf(ns, t) in Rows(ns, computed) && Rows(ns, computed)[SlotOf(ns, t)] == computed[t] {
      assert forall u | u in computed && SlotOf(ns, u) == SlotOf(ns, t) :: u == t;
    }
  }

  lemma PutHolds(st: State, computed: map<string, Vector>, w: Weather)
    requires !IsFallbackModel(ModelName(st.provider)) && !st.disabled && !w.reopenFails && !w.writeFails
    ensures var after := Put(st, computed, w);
            && after.open == Some(Namespace(st.provider)) && !after.disabled && after.provider == st.provider
            && (forall t | t in computed :: SlotOf(Namespace(st.provider), t) in after.slots)
            && (forall s | s in st.slots :: s in after.slots)
  {
    hide IsFallbackModel;
    RowsHold(Namespace(st.provider), computed);
    hide Rows;
  }

  /**
   * What a call computes is kept: if nothing prevents it, then every text it had to ask the provider for
   * has its vector afterwards in the provider's namespace of then, and the cache of that namespace is open.
   */
  lemma ComputedIsStored(st: State, enc: Encoder, texts: seq<string>, w: Weather)
    requires Valid(st) && Sound(st, enc) && texts != [] && CanStore(st, enc, texts, w)
    ensures var after := Call(st, enc, texts, w).0;
            && (forall i | 0 <= i < |texts| && !Hit(st, w, texts[i]) ::
                  SlotOf(Namespace(after.provider), texts[i]) in after.slots
                  && after.slots[SlotOf(Namespace(after.provider), texts[i])] == enc(Namespace(after.provider), texts[i]))
            && !after.disabled
            && ((exists i :: 0 <= i < |texts| && !Hit(st, w, texts[i])) ==> after.open == Some(Namespace(after.provider)))
            && Call(st, enc, texts, w).1.Good?
  {
    var cached := GetCache(st, w.openFails);
    var ns := Namespace(st.provider);
    assert cached.open == Some(ns) && !cached.disabled && cached.slots == st.slots && cached.provider == st.provider;
    var missing := Missing(st.slots, ns, texts);
    MissingIsComplete(st.slots, ns, texts);
    CallIsSound(st, enc, texts, w);
    hide IsFallbackModel, Missing, Zip, Put, Sound;
    assert Call(st, enc, texts, w) == Cached(cached, enc, texts, w);
    if missing != [] {
      var (p, vectors) := Embed(st.provider, enc, missing, w.load);
      EmbedLength(st.provider, enc, missing, w.load);
      ZipKeys(missing, vectors);
      PutHolds(cached.(provider := p), Zip(missing, vectors), w);
    }
    assert Sound(Call(st, enc, texts, w).0, enc);
    SoundAt(Call(st, enc, texts, w).0, enc);
  }

  lemma SoundAt(st: State, enc: Encoder)
    requires Sound(st, enc)
    ensures forall ns, text | SlotOf(ns, text) in st.slots :: st.slots[SlotOf(ns, text)] == enc(ns, text)
  {}

  /** A call that finds all its texts answers them and leaves the provider out, whatever that would do. */
  lemma AllFoundNeedsNoProvider(st: State, enc: Encoder, texts: seq<string>, w: Weather)
    requires Valid(st) && Sound(st, enc) && forall i | 0 <= i < |texts| :: Hit(st, w, texts[i])
    ensures Call(st, enc, texts, w).1 == Good(Vectors(enc, Namespace(st.provider), texts))
    ensures Call(st, enc, texts, w).0.provider == st.provider && Call(st, enc, texts, w).0.slots == st.slots
  {
    var ns := Namespace(st.provider);
    if texts != [] {
      assert Hit(st, w, texts[0]);
      NothingMissing(st.slots, ns, texts);
      SoundAt(st, enc);
    }
    hide IsFallbackModel, Missing, Zip, Sound;
    assert Vectors(enc, ns, []) == [];
  }

  lemma {:induction false} NothingMissing(slots: map<Slot, Vector>, ns: string, texts: seq<string>)
    requires forall i | 0 <= i < |texts| :: SlotOf(ns, texts[i]) in slots
    ensures Missing(slots, ns, texts) == []
  {
    if texts != [] { NothingMissing(slots, ns, texts[..|texts| - 1]); }
  }

  lemma {:induction false} HistoryKeepsSlots(st: State, enc: Encoder, es: seq<Event>)
    requires Valid(st) && Sound(st, enc)
    ensures forall s | s in st.slots :: s in History(st, enc, es).slots
    decreases es
  {
    if es != [] {
      if es[0].Embedding? { CallIsSound(st, enc, es[0].texts, es[0].weather); }
      hide Call;
      HistoryKeepsSlots(Step(st, enc, es[0]), enc, es[1..]);
    }
  }

  /**
   * The cache pays off: once a call could store what it computed and the namespace stayed what it was,
   * the same texts are answered at any later time at which the cache of that namespace is consulted,
   * with the same vectors and without the provider, whether that could load, would count wrong or not.
   */
  lemma RepeatedCallIsServed(st: State, enc: Encoder, texts: seq<string>, w: Weather, es: seq<Event>, later: Weather)
    requires Valid(st) && Sound(st, enc) && texts != [] && CanStore(st, enc, texts, w)
    requires var after := Call(st, enc, texts, w).0;
             var now := History(after, enc, es);
             Namespace(after.provider) == Namespace(st.provider) == Namespace(now.provider) && Consults(now, later)
    ensures var now := History(Call(st, enc, texts, w).0, enc, es);
            && Call(now, enc, texts, later).1 == Good(Vectors(enc, Namespace(st.provider), texts))
            && Call(now, enc, texts, later).0.provider == now.provider && Call(now, enc, texts, later).0.slots == now.slots
  {
    ComputedIsStored(st, enc, texts, w);
    CallIsSound(st, enc, texts, w);
    hide Call, CanStore, Consults, Sound, Valid, IsFallbackModel, Namespace, Missing;
    var after := Call(st, enc, texts, w).0;
    HistoryIsSound(after, enc, es);
    HistoryKeepsSlots(after, enc, es);
    AllFoundNeedsNoProvider(History(after, enc, es), enc, texts, later);
  }

  // ---------------------------------------------------------------- loading and failing

  /**
   * Loading: a loaded model stays, and so does the resort to hashing until a download is allowed; a failed
   * local load is remembered as that resort, a failed download is not; a success ends it.
   */
  lemma LoadingTells(p: Provider, load: Option<Model>, allowDownload: bool)
    ensures var (after, loaded) := Ensure(p, load, allowDownload);
            && after.configured == p.configured && (loaded <==> after.model.Some?)
            && (p.model.Some? ==> after == p)
            && (p.model.None? && (!p.useFallback || allowDownload) ==> after.model == load)
            && (p.model.None? && p.useFallback && !allowDownload ==> after == p)
            && (p.model.None? ==> (after.useFallback <==> after.model.None? && (p.useFallback || !allowDownload)))
  {}

  /** A failure to open, read or write a cache ends caching for good: such a call, and any later one, does without. */
  lemma FailureEndsCaching(st: State, enc: Encoder, texts: seq<string>, w: Weather)
    requires Valid(st) && texts != [] && !IsFallbackModel(ModelName(st.provider))
    ensures !st.disabled && w.readFails ==> Call(st, enc, texts, w).0.disabled
    ensures !st.disabled && w.openFails && st.open != Some(Namespace(st.provider)) ==> Call(st, enc, texts, w).0.disabled
    ensures st.disabled || w.readFails || (w.openFails && st.open != Some(Namespace(st.provider))) ==>
              Call(st, enc, texts, w).1 == Answered(st.provider, enc, texts, w).1
              && Call(st, enc, texts, w).0.slots == st.slots
              && Call(st, enc, texts, w).0.provider == Answered(st.provider, enc, texts, w).0
    ensures st.disabled ==> Call(st, enc, texts, w).0.disabled
  {
    hide IsFallbackModel, Missing, Zip, Put;
  }

  lemma WriteFailureEndsCaching(st: State, computed: map<string, Vector>, w: Weather)
    requires !st.disabled && !IsFallbackModel(ModelName(st.provider))
    ensures Put(st, computed, w).disabled <==> w.writeFails || (w.reopenFails && st.open != Some(Namespace(st.provider)))
    ensures Put(st, computed, w).disabled ==> Put(st, computed, w).slots == st.slots
  {
    hide IsFallbackModel;
  }

  lemma PlainNameIsNoFallback()
    ensures !IsFallbackModel("m")
  {
    assert TrimRight(TrimLeft("m")) == "m";
    assert |Lower("m")| == 1;
  }

  lemma HitThenMiss(st: State, enc: Encoder, hit: string, miss: string, w: Weather)
    requires Valid(st) && Sound(st, enc)
    requires Hit(st, w, hit) && !Hit(st, w, miss) && !Miscounts(st.provider, [hit, miss], w)
    ensures Call(st, enc, [hit, miss], w).1
         == Good([enc(Namespace(st.provider), hit), enc(Namespace(Embed(st.provider, enc, [hit, miss], w.load).0), miss)])
  {
    hide *;
    CallIsExact(st, enc, [hit, miss], w);
    assert [hit, miss][0] == hit && [hit, miss][1] == miss;
  }

  /**
   * It does fail, for any encoder: a call that finds one text in the cache and whose provider gives up
   * on the other answers with vectors of two namespaces, where the provider alone uses one.
   */
  lemma MixedEncodersHappen(enc: Encoder)
    ensures var st := State(Provider("m", None, false), map[SlotOf("m", "hit") := enc("m", "hit")], None, false);
            var w := Weather(None, false, false, false, false, false);
            && Valid(st) && Sound(st, enc)
            && Call(st, enc, ["hit", "miss"], w).1 == Good([enc("m", "hit"), enc("hash:m", "miss")])
            && Answered(st.provider, enc, ["hit", "miss"], w).1 == Good([enc("hash:m", "hit"), enc("hash:m", "miss")])
  {
    var st := State(Provider("m", None, false), map[SlotOf("m", "hit") := enc("m", "hit")], None, false);
    var w := Weather(None, false, false, false, false, false);
    var texts := ["hit", "miss"];
    PlainNameIsNoFallback();
    hide IsFallbackModel;
    assert "hit" != "miss" by { assert |"hit"| != |"miss"|; }
    hide Call;
    HitThenMiss(st, enc, "hit", "miss", w);
    assert FallbackName(st.provider) == "hash:m";
    assert Vectors(enc, "hash:m", texts) == [enc("hash:m", "hit"), enc("hash:m", "miss")];
  }
}
