/** What the scores of brain/src/embed_store.rs say about rows. */
module NearestLaws {
  import opened EmbedStore
  import HashEmbed
  import EmbedNorms

  /** The numbers that a row of bit patterns stands for. */
  ghost function Values(row: seq<nat>, value: nat -> real): (v: seq<real>)
    ensures |v| == |row|
  {
    seq(|row|, i requires 0 <= i < |row| => value(row[i]))
  }

  lemma ValuesInit(row: seq<nat>, value: nat -> real)
    requires row != []
    ensures Values(row, value)[..|row| - 1] == Values(row[..|row| - 1], value)
  {
  }

  /** The score of a row is its similarity to the query. */
  lemma {:induction false} DotIsSimilarity(row: seq<nat>, query: seq<nat>, value: nat -> real)
    requires |row| == |query|
    ensures Dot(row, query, value) == EmbedNorms.Similarity(Values(row, value), Values(query, value))
  {
    if row != [] {
      DotIsSimilarity(row[..|row| - 1], query[..|query| - 1], value);
      ValuesInit(row, value);
      ValuesInit(query, value);
    }
  }

  lemma {:induction false} SimilarityToItself(v: seq<real>)
    ensures EmbedNorms.Similarity(v, v) == HashEmbed.SumSquares(v)
  {
    if v != [] {
      SimilarityToItself(v[..|v| - 1]);
      HashEmbed.SumSquaresSnoc(v[..|v| - 1], v[|v| - 1]);
      assert v == v[..|v| - 1] + [v[|v| - 1]];
    }
  }

  /** A row scores its squared length with itself, and no row that is no longer than the query scores more than the
      query itself would. */
  lemma ItselfIsNearest(row: seq<nat>, query: seq<nat>, value: nat -> real)
    requires |row| == |query|
    ensures Dot(query, query, value) == HashEmbed.SumSquares(Values(query, value)) >= 0.0
    ensures HashEmbed.SumSquares(Values(row, value)) <= HashEmbed.SumSquares(Values(query, value)) ==>
              Dot(row, query, value) <= Dot(query, query, value)
  {
    DotIsSimilarity(query, query, value);
    DotIsSimilarity(row, query, value);
    SimilarityToItself(Values(query, value));
    EmbedNorms.SquaresNonNegative(Values(query, value));
    EmbedNorms.SimilarityBelow(Values(row, value), Values(query, value));
  }
}
