/** The embedding cache of brain/src/embeddings.rs, in front of the hashing-trick backend. */
module EmbedCache {
  import opened Numbers
  import opened HashEmbed

  /** What a text looks up under, and what its embedding is without any cache. */
  datatype Spec<!X, !K, !V> = Spec(key: X -> K, pure: X -> V)

  /** What the cache makes of a text. */
  function Looked<X, K, V>(s: Spec<X, K, V>, cache: map<K, V>, text: X): V {
    if s.key(text) in cache then cache[s.key(text)] else s.pure(text)
  }

  ghost function Answers<X, K, V>(s: Spec<X, K, V>, cache: map<K, V>, texts: seq<X>): (r: seq<V>)
    ensures |r| == |texts| && forall i :: 0 <= i < |texts| ==> r[i] == Looked(s, cache, texts[i])
  {
    seq(|texts|, i requires 0 <= i < |texts| => Looked(s, cache, texts[i]))
  }

  /** The cache after storing those of the first n texts that were not in `known`. */
  function Stored<X, K, V>(s: Spec<X, K, V>, known: map<K, V>, texts: seq<X>, n: nat): map<K, V>
    requires n <= |texts|
  {
    if n == 0 then known
    else
      var c := Stored(s, known, texts, n - 1);
      if s.key(texts[n - 1]) in known then c else c[s.key(texts[n - 1]) := s.pure(texts[n - 1])]
  }

  datatype Op<X> = One(text: X) | Batch(texts: seq<X>) | Clear

  function TextsOf<X>(op: Op<X>): seq<X> {
    match op
    case One(t) => [t]
    case Batch(ts) => ts
    case Clear => []
  }

  function Next<X, K, V>(s: Spec<X, K, V>, cache: map<K, V>, op: Op<X>): map<K, V> {
    if op.Clear? then map[] else Stored(s, cache, TextsOf(op), |TextsOf(op)|)
  }

  /** Every answer of a run is the embedding of its own text. */
  ghost predicate RunIsRight<X, K, V>(s: Spec<X, K, V>, cache: map<K, V>, ops: seq<Op<X>>)
    decreases |ops|
  {
    ops == [] ||
    (var texts := TextsOf(ops[0]);
     && (forall i :: 0 <= i < |texts| ==> Answers(s, cache, texts)[i] == s.pure(texts[i]))
     && RunIsRight(s, Next(s, cache, ops[0]), ops[1..]))
  }

  /** Texts with the same key have the same embedding. */
  ghost predicate KeysAgree<X(!new), K, V>(s: Spec<X, K, V>) {
    forall a, b :: s.key(a) == s.key(b) ==> s.pure(a) == s.pure(b)
  }

  ghost predicate Sound<X(!new), K, V>(s: Spec<X, K, V>, cache: map<K, V>) {
    forall t :: s.key(t) in cache ==> cache[s.key(t)] == s.pure(t)
  }

  lemma {:induction false} StoredIsSound<X(!new), K, V>(s: Spec<X, K, V>, known: map<K, V>, texts: seq<X>, n: nat)
    requires KeysAgree(s) && Sound(s, known) && n <= |texts|
    ensures Sound(s, Stored(s, known, texts, n))
  {
    if n > 0 {
      StoredIsSound(s, known, texts, n - 1);
    }
  }

  lemma {:induction false} SoundRunIsRight<X(!new), K, V>(s: Spec<X, K, V>, cache: map<K, V>, ops: seq<Op<X>>)
    requires KeysAgree(s) && Sound(s, cache)
    ensures RunIsRight(s, cache, ops)
    decreases |ops|
  {
    if ops != [] {
      var texts := TextsOf(ops[0]);
      StoredIsSound(s, cache, texts, |texts|);
      SoundRunIsRight(s, Next(s, cache, ops[0]), ops[1..]);
    }
  }

  lemma CollisionShows<X, K, V>(s: Spec<X, K, V>, a: X, b: X)
    requires s.key(a) == s.key(b) && s.pure(a) != s.pure(b)
    ensures !RunIsRight(s, map[], [One(a), One(b)])
  {
    var ops := [One(a), One(b)];
    var c := Next(s, map[], One(a));
    assert Stored(s, map[], [a], 0) == map[];
    assert c == map[s.key(a) := s.pure(a)];
    assert ops[1..] == [One(b)];
    assert Answers(s, c, [b])[0] == s.pure(a);
    assert TextsOf(ops[1..][0]) == [b] && [b][0] == b;
  }

  /** The cache never changes an answer, in any run from an empty one, if and only if texts that share a key
      share their embedding. */
  lemma CacheIsTransparentIff<X(!new), K, V>(s: Spec<X, K, V>)
    ensures (forall ops :: RunIsRight(s, map[], ops)) <==> KeysAgree(s)
  {
    if KeysAgree(s) {
      forall ops
        ensures RunIsRight(s, map[], ops)
      {
        SoundRunIsRight(s, map[], ops);
      }
    } else {
      var a, b :| s.key(a) == s.key(b) && s.pure(a) != s.pure(b);
      CollisionShows(s, a, b);
    }
  }

  lemma InjectiveRunsAreRight<X(!new), K, V>(s: Spec<X, K, V>, ops: seq<Op<X>>)
    requires forall a, b :: s.key(a) == s.key(b) ==> a == b
    ensures RunIsRight(s, map[], ops)
  {
    SoundRunIsRight(s, map[], ops);
  }

  // ----- batches -----

  datatype Slot<V> = Empty | Filled(vector: V)

  /** Positions of the texts, among the first n, that the cache does not know. */
  function Misses<X, K, V>(s: Spec<X, K, V>, cache: map<K, V>, texts: seq<X>, n: nat): (r: seq<nat>)
    requires n <= |texts|
    ensures forall i :: 0 <= i < |r| ==> r[i] < n
  {
    if n == 0 then []
    else Misses(s, cache, texts, n - 1) + if s.key(texts[n - 1]) in cache then [] else [n - 1]
  }

  lemma {:induction false} MissesAre<X, K, V>(s: Spec<X, K, V>, cache: map<K, V>, texts: seq<X>, n: nat, i: nat)
    requires n <= |texts|
    ensures i in Misses(s, cache, texts, n) <==> i < n && s.key(texts[i]) !in cache
  {
    if n > 0 {
      MissesAre(s, cache, texts, n - 1, i);
    }
  }

  /** The cache after storing the texts at these positions. */
  function StoredAt<X, K, V>(s: Spec<X, K, V>, cache: map<K, V>, texts: seq<X>, at: seq<nat>): map<K, V>
    requires forall i :: 0 <= i < |at| ==> at[i] < |texts|
  {
    if at == [] then cache
    else
      var t := texts[at[|at| - 1]];
      StoredAt(s, cache, texts, at[..|at| - 1])[s.key(t) := s.pure(t)]
  }

  lemma {:induction false} MissesStored<X, K, V>(s: Spec<X, K, V>, cache: map<K, V>, texts: seq<X>, n: nat)
    requires n <= |texts|
    ensures StoredAt(s, cache, texts, Misses(s, cache, texts, n)) == Stored(s, cache, texts, n)
  {
    if n > 0 {
      MissesStored(s, cache, texts, n - 1);
      var init := Misses(s, cache, texts, n - 1);
      assert (init + [n - 1])[..|init|] == init && init + [] == init;
    }
  }

  /** What a batch holds once the misses at these positions are computed. */
  ghost predicate Resolved<X, K, V>(
    s: Spec<X, K, V>, cache: map<K, V>, texts: seq<X>, done: seq<nat>, slots: seq<Slot<V>>) {
    && |slots| == |texts|
    && forall i :: 0 <= i < |texts| ==>
         slots[i] == if s.key(texts[i]) in cache then Filled(cache[s.key(texts[i])])
                     else if i in done then Filled(s.pure(texts[i]))
                     else Empty
  }

  lemma ResolvedStep<X, K, V>(
    s: Spec<X, K, V>, cache: map<K, V>, texts: seq<X>, done: seq<nat>, slots: seq<Slot<V>>, at: nat)
    requires Resolved(s, cache, texts, done, slots) && at < |texts| && s.key(texts[at]) !in cache
    ensures Resolved(s, cache, texts, done + [at], slots[at := Filled(s.pure(texts[at]))])
  {
  }

  lemma StoredAtSnoc<X, K, V>(s: Spec<X, K, V>, cache: map<K, V>, texts: seq<X>, at: seq<nat>, p: nat)
    requires (forall i :: 0 <= i < |at| ==> at[i] < |texts|) && p < |texts|
    ensures StoredAt(s, cache, texts, at + [p])
         == StoredAt(s, cache, texts, at)[s.key(texts[p]) := s.pure(texts[p])]
  {
    assert (at + [p])[..|at|] == at;
  }

  lemma ResolvedAll<X, K, V>(s: Spec<X, K, V>, cache: map<K, V>, texts: seq<X>, slots: seq<Slot<V>>)
    requires Resolved(s, cache, texts, Misses(s, cache, texts, |texts|), slots)
    ensures forall i :: 0 <= i < |texts| ==> slots[i] == Filled(Looked(s, cache, texts[i]))
  {
    forall i: nat | i < |texts|
      ensures slots[i] == Filled(Looked(s, cache, texts[i]))
    {
      MissesAre(s, cache, texts, |texts|, i);
    }
  }

  // ----- the embedder -----

  /** The embedder over any backend that computes a function of the text. */
  class Embedder<!X, !K(==), !V> {
    const spec: Spec<X, K, V>
    const zero: V
    var cache: map<K, V>

    constructor (spec: Spec<X, K, V>, zero: V)
      ensures this.spec == spec && cache == map[]
    {
      this.spec, this.zero := spec, zero;
      cache := map[];
    }

    /** The answer of the cache, or the embedding, which is then stored. */
    method Embed(text: X) returns (v: V)
      modifies this`cache
      ensures [v] == Answers(spec, old(cache), [text])
      ensures cache == Next(spec, old(cache), One(text))
    {
      var key := spec.key(text);
      assert Stored(spec, cache, [text], 0) == cache;
      if key in cache {
        return cache[key];
      }
      v := spec.pure(text);
      cache := cache[key := v];
    }

    /** Fills the slots of known texts, and lists the other positions. */
    method Resolve(texts: seq<X>) returns (slots: seq<Slot<V>>, missing: seq<nat>)
      ensures Resolved(spec, cache, texts, [], slots)
      ensures missing == Misses(spec, cache, texts, |texts|)
    {
      slots, missing := [], [];
      for k := 0 to |texts|
        invariant Resolved(spec, cache, texts[..k], [], slots)
        invariant missing == Misses(spec, cache, texts, k)
      {
        var key := spec.key(texts[k]);
        if key in cache {
          slots := slots + [Filled(cache[key])];
        } else {
          slots := slots + [Empty];
          missing := missing + [k];
        }
      }
      assert texts[..|texts|] == texts;
    }

    method Compute(texts: seq<X>, missing: seq<nat>, slots0: seq<Slot<V>>) returns (slots: seq<Slot<V>>)
      requires Resolved(spec, cache, texts, [], slots0)
      requires missing == Misses(spec, cache, texts, |texts|)
      modifies this`cache
      ensures Resolved(spec, old(cache), texts, missing, slots)
      ensures cache == StoredAt(spec, old(cache), texts, missing)
    {
      slots := slots0;
      for k := 0 to |missing|
        invariant Resolved(spec, old(cache), texts, missing[..k], slots)
        invariant cache == StoredAt(spec, old(cache), texts, missing[..k])
      {
        var slot := missing[k];
        MissesAre(spec, old(cache), texts, |texts|, slot);
        assert missing[..k + 1] == missing[..k] + [slot];
        ResolvedStep(spec, old(cache), texts, missing[..k], slots, slot);
        StoredAtSnoc(spec, old(cache), texts, missing[..k], slot);
        var v := spec.pure(texts[slot]);
        cache := cache[spec.key(texts[slot]) := v];
        slots := slots[slot := Filled(v)];
      }
      assert missing[..|missing|] == missing;
    }

    /** The answers in the order of the texts; only texts the cache did not know are computed and stored. */
    method EmbedBatch(texts: seq<X>) returns (out: seq<V>)
      modifies this`cache
      ensures out == Answers(spec, old(cache), texts)
      ensures cache == Next(spec, old(cache), Batch(texts))
    {
      var slots, missing := Resolve(texts);
      slots := Compute(texts, missing, slots);
      ResolvedAll(spec, old(cache), texts, slots);
      MissesStored(spec, old(cache), texts, |texts|);
      out := Unwrap(slots, Answers(spec, old(cache), texts));
    }

    /** No slot is left empty, so the zero vector is never used. */
    method Unwrap(slots: seq<Slot<V>>, ghost answers: seq<V>) returns (out: seq<V>)
      requires |slots| == |answers| && forall i :: 0 <= i < |slots| ==> slots[i] == Filled(answers[i])
      ensures out == answers
    {
      out := [];
      for i := 0 to |slots|
        invariant |out| == i && forall j :: 0 <= j < i ==> out[j] == answers[j]
      {
        out := out + [if slots[i].Filled? then slots[i].vector else zero];
      }
    }

    method ClearCache()
      modifies this`cache
      ensures cache == Next(spec, old(cache), Clear)
    {
      cache := map[];
    }
  }

  // ----- the hashing-trick backend -----

  type Key = seq<Byte>
  type Vector = seq<real>

  /** The parts of the embedder that are fixed: the digest of a text, its tokens, its lower-case bytes and the
      square root. */
  datatype Setup = Setup(key: Text -> Key, tokens: Text -> seq<Text>, lower: Text -> Text, sqrt: real -> real)

  function Fallback(s: Setup): Spec<Text, Key, Vector> {
    Spec(s.key, text => Hashed(s.tokens(text), s.lower(text), s.sqrt))
  }

  /** With the fallback and digests that do not collide, every vector of every run is the hashed embedding of
      its own text. */
  lemma FallbackRunsAreRight(s: Setup, ops: seq<Op<Text>>)
    requires forall a, b :: s.key(a) == s.key(b) ==> a == b
    ensures RunIsRight(Fallback(s), map[], ops)
  {
    InjectiveRunsAreRight(Fallback(s), ops);
  }
}
