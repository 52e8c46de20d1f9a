/** The BM25 index of brain/src/retrieve.rs against a naive scan of the documents. */
module Bm25 {
  import opened Numbers
  import opened TopK

  const K1: real := 1.5
  const B: real := 0.75
  const EPSILON: real := 0.00000011920928955078125

  /** A document: its id and its tokens. */
  datatype Doc<K> = Doc(id: nat, tokens: seq<K>)

  // ----- the naive scan -----

  ghost function Count<K>(tokens: seq<K>, t: K): nat {
    if tokens == [] then 0 else Count(tokens[..|tokens| - 1], t) + if tokens[|tokens| - 1] == t then 1 else 0
  }

  /** How many documents hold a token. */
  ghost function DocFreq<K>(docs: seq<Doc<K>>, t: K): nat {
    if docs == [] then 0 else DocFreq(docs[..|docs| - 1], t) + if t in docs[|docs| - 1].tokens then 1 else 0
  }

  ghost function TotalLength<K>(docs: seq<Doc<K>>): nat {
    if docs == [] then 0 else TotalLength(docs[..|docs| - 1]) + |docs[|docs| - 1].tokens|
  }

  ghost function AverageLength<K>(docs: seq<Doc<K>>): real {
    if docs == [] then 0.0 else TotalLength(docs) as real / |docs| as real
  }

  /** The inverse document frequency of a token that d of n documents hold. */
  function Idf(ln: real -> real, n: nat, d: nat): real {
    ln((n as real - d as real + 0.5) / (d as real + 0.5) + 1.0)
  }

  function Max(a: real, b: real): real {
    if a >= b then a else b
  }

  /** What a token that occurs tf times in a document of this length adds to its score. */
  function Part(idf: real, tf: nat, len: nat, average: real): real
    requires tf > 0 && average >= 0.0
  {
    idf * (tf as real * (K1 + 1.0) / Denominator(tf, len, average))
  }

  function Denominator(tf: nat, len: nat, average: real): (d: real)
    requires average >= 0.0
    ensures d >= tf as real
  {
    NonNegativeRatio(len, Max(average, 1.0));
    tf as real + K1 * (1.0 - B + B * (len as real / Max(average, 1.0)))
  }

  lemma NonNegativeRatio(n: nat, x: real)
    requires x > 0.0
    ensures n as real / x >= 0.0
  {
  }

  lemma AverageNonNegative<K>(docs: seq<Doc<K>>)
    ensures AverageLength(docs) >= 0.0
  {
    if docs != [] {
      NonNegativeRatio(TotalLength(docs), |docs| as real);
    }
  }

  /** The BM25 score of a document, by the formula. */
  ghost function Score<K>(ln: real -> real, docs: seq<Doc<K>>, tokens: seq<K>, query: seq<K>): real {
    if query == [] then 0.0
    else
      var t := query[|query| - 1];
      AverageNonNegative(docs);
      Score(ln, docs, tokens, query[..|query| - 1])
      + if Count(tokens, t) == 0 then 0.0
        else Part(Idf(ln, |docs|, DocFreq(docs, t)), Count(tokens, t), |tokens|, AverageLength(docs))
  }

  ghost predicate Shares<K(!new)>(tokens: seq<K>, query: seq<K>) {
    exists t :: t in query && t in tokens
  }

  /** The documents among the first n that share a token with the query, with their scores, in order. */
  ghost function NaiveHits<K(!new)>(ln: real -> real, docs: seq<Doc<K>>, query: seq<K>, n: nat): seq<Hit>
    requires n <= |docs|
  {
    if n == 0 then []
    else
      var tokens := docs[n - 1].tokens;
      NaiveHits(ln, docs, query, n - 1)
      + if Shares(tokens, query) then [Hit(n - 1, Score(ln, docs, tokens, query))] else []
  }

  /** `ln` as far as it matters here. */
  ghost predicate Logarithm(ln: real -> real) {
    forall x :: x > 1.0 ==> ln(x) > 0.0
  }

  lemma {:induction false} CountPositive<K>(tokens: seq<K>, t: K)
    ensures Count(tokens, t) > 0 <==> t in tokens
  {
    if tokens != [] {
      CountPositive(tokens[..|tokens| - 1], t);
      assert tokens == tokens[..|tokens| - 1] + [tokens[|tokens| - 1]];
    }
  }

  lemma {:induction false} DocFreqBounds<K>(docs: seq<Doc<K>>, t: K)
    ensures DocFreq(docs, t) <= |docs|
  {
    if docs != [] {
      DocFreqBounds(docs[..|docs| - 1], t);
    }
  }

  lemma QuotientPositive(x: real, y: real)
    requires x > 0.0 && y > 0.0
    ensures x / y > 0.0
  {
  }

  lemma IdfPositive(ln: real -> real, n: nat, d: nat)
    requires Logarithm(ln) && d <= n
    ensures Idf(ln, n, d) > 0.0
  {
    QuotientPositive(n as real - d as real + 0.5, d as real + 0.5);
  }

  lemma PartPositive(idf: real, tf: nat, len: nat, average: real)
    requires tf > 0 && average >= 0.0 && idf > 0.0
    ensures Part(idf, tf, len, average) > 0.0
  {
    var d := Denominator(tf, len, average);
    QuotientPositive(tf as real * (K1 + 1.0), d);
    var q := tf as real * (K1 + 1.0) / d;
    ProductPositive(idf, q, idf * q);
  }

  /** A document has a positive score exactly when it shares a token with the query. */
  lemma {:induction false} ScorePositiveIff<K(!new)>(ln: real -> real, docs: seq<Doc<K>>, tokens: seq<K>, query: seq<K>)
    requires Logarithm(ln)
    ensures Score(ln, docs, tokens, query) >= 0.0
    ensures Score(ln, docs, tokens, query) > 0.0 <==> Shares(tokens, query)
  {
    if query != [] {
      var init, t := query[..|query| - 1], query[|query| - 1];
      ScorePositiveIff(ln, docs, tokens, init);
      SharesSnoc(tokens, query);
      CountPositive(tokens, t);
      if Count(tokens, t) > 0 {
        DocFreqBounds(docs, t);
        IdfPositive(ln, |docs|, DocFreq(docs, t));
        AverageNonNegative(docs);
        PartPositive(Idf(ln, |docs|, DocFreq(docs, t)), Count(tokens, t), |tokens|, AverageLength(docs));
      }
    }
  }

  lemma SharesSnoc<K(!new)>(tokens: seq<K>, query: seq<K>)
    requires query != []
    ensures Shares(tokens, query) <==> Shares(tokens, query[..|query| - 1]) || query[|query| - 1] in tokens
  {
    var init, t := query[..|query| - 1], query[|query| - 1];
    assert query == init + [t];
    if Shares(tokens, query) {
      var u :| u in query && u in tokens;
      assert u in init || u == t;
    } else {
      assert t in query;
      assert forall u :: u in init ==> u in query;
    }
  }

  /** The scan lists exactly the documents that share a token, each with its score, in rising order. */
  lemma {:induction false} NaiveHitsAre<K(!new)>(ln: real -> real, docs: seq<Doc<K>>, query: seq<K>, n: nat)
    requires n <= |docs|
    ensures
      var hits := NaiveHits(ln, docs, query, n);
      && (forall h :: h in hits <==> h.node < n && Shares(docs[h.node].tokens, query)
                                      && h.score == Score(ln, docs, docs[h.node].tokens, query))
      && (forall i, j :: 0 <= i < j < |hits| ==> hits[i].node < hits[j].node)
      && |hits| <= n
  {
    if n > 0 {
      NaiveHitsAre(ln, docs, query, n - 1);
      var init := NaiveHits(ln, docs, query, n - 1);
      assert forall i :: 0 <= i < |init| ==> init[i] in init;
    }
  }
}
