/** Building and searching the BM25 index of brain/src/retrieve.rs. */
module Bm25Index {
  import opened Numbers
  import opened TopK
  import opened Bm25

  datatype Entry<!K> = Entry(terms: map<K, nat>, len: nat)

  datatype Index<!K> = Index(docs: seq<Entry<K>>, idf: map<K, real>, avgLen: real, ids: seq<nat>)

  /** The table counts the tokens. */
  ghost predicate Counts<K(!new)>(terms: map<K, nat>, tokens: seq<K>) {
    forall t :: (t in terms <==> t in tokens) && (t in terms ==> terms[t] == Count(tokens, t))
  }

  /** The table holds every document frequency. */
  ghost predicate Frequencies<K(!new)>(df: map<K, nat>, docs: seq<Doc<K>>) {
    forall t :: (t in df <==> DocFreq(docs, t) > 0) && (t in df ==> df[t] == DocFreq(docs, t))
  }

  ghost predicate Entries<K(!new)>(entries: seq<Entry<K>>, docs: seq<Doc<K>>) {
    && |entries| == |docs|
    && forall i :: 0 <= i < |docs| ==> Counts(entries[i].terms, docs[i].tokens) && entries[i].len == |docs[i].tokens|
  }

  ghost predicate IdfTable<K(!new)>(ln: real -> real, idf: map<K, real>, docs: seq<Doc<K>>) {
    forall t :: (t in idf <==> DocFreq(docs, t) > 0) && (t in idf ==> idf[t] == Idf(ln, |docs|, DocFreq(docs, t)))
  }

  ghost predicate Ids<K>(ids: seq<nat>, docs: seq<Doc<K>>) {
    |ids| == |docs| && forall i :: 0 <= i < |docs| ==> ids[i] == docs[i].id
  }

  /** The index agrees with the documents. */
  ghost predicate Indexes<K(!new)>(ln: real -> real, index: Index<K>, docs: seq<Doc<K>>) {
    && Entries(index.docs, docs) && IdfTable(ln, index.idf, docs)
    && index.avgLen == AverageLength(docs) && Ids(index.ids, docs)
  }

  // ----- building -----

  function Bump<K>(m: map<K, nat>, t: K): map<K, nat> {
    m[t := (if t in m then m[t] else 0) + 1]
  }

  lemma CountsSnoc<K(!new)>(terms: map<K, nat>, tokens: seq<K>, t: K)
    requires Counts(terms, tokens)
    ensures Counts(Bump(terms, t), tokens + [t])
  {
    assert (tokens + [t])[..|tokens|] == tokens;
    CountPositive(tokens, t);
  }

  method CountTokens<K(==, !new)>(tokens: seq<K>) returns (terms: map<K, nat>)
    ensures Counts(terms, tokens)
  {
    terms := map[];
    for i := 0 to |tokens|
      invariant Counts(terms, tokens[..i])
    {
      CountsSnoc(terms, tokens[..i], tokens[i]);
      assert tokens[..i + 1] == tokens[..i] + [tokens[i]];
      terms := Bump(terms, tokens[i]);
    }
    assert tokens[..|tokens|] == tokens;
  }

  /** Adds one for every key, in whatever order they come. */
  method BumpAll<K(==, !new)>(df: map<K, nat>, terms: map<K, nat>) returns (r: map<K, nat>)
    ensures forall t :: t in r <==> t in df || t in terms
    ensures forall t :: t in r ==> r[t] == (if t in df then df[t] else 0) + if t in terms then 1 else 0
  {
    r := df;
    var left := terms.Keys;
    while left != {}
      invariant left <= terms.Keys
      invariant forall t :: t in r <==> t in df || t in terms.Keys - left
      invariant forall t :: t in r ==> r[t] == (if t in df then df[t] else 0) + if t in terms.Keys - left then 1 else 0
    {
      var t :| t in left;
      left := left - {t};
      r := Bump(r, t);
    }
  }

  lemma FrequenciesSnoc<K(!new)>(df: map<K, nat>, docs: seq<Doc<K>>, terms: map<K, nat>, doc: Doc<K>, r: map<K, nat>)
    requires Frequencies(df, docs) && Counts(terms, doc.tokens)
    requires forall t :: t in r <==> t in df || t in terms
    requires forall t :: t in r ==> r[t] == (if t in df then df[t] else 0) + if t in terms then 1 else 0
    ensures Frequencies(r, docs + [doc])
  {
    assert (docs + [doc])[..|docs|] == docs;
  }

  method IdfOf<K(==, !new)>(ln: real -> real, df: map<K, nat>, n: nat) returns (idf: map<K, real>)
    ensures idf.Keys == df.Keys && forall t :: t in df ==> idf[t] == Idf(ln, n, df[t])
  {
    idf := map[];
    var left := df.Keys;
    while left != {}
      invariant left <= df.Keys && idf.Keys == df.Keys - left
      invariant forall t :: t in idf ==> idf[t] == Idf(ln, n, df[t])
    {
      var t :| t in left;
      left := left - {t};
      idf := idf[t := Idf(ln, n, df[t])];
    }
  }

  lemma EntriesSnoc<K(!new)>(entries: seq<Entry<K>>, docs: seq<Doc<K>>, e: Entry<K>, doc: Doc<K>)
    requires Entries(entries, docs) && Counts(e.terms, doc.tokens) && e.len == |doc.tokens|
    ensures Entries(entries + [e], docs + [doc])
  {
  }

  method ReadDocuments<K(==, !new)>(docs: seq<Doc<K>>)
    returns (entries: seq<Entry<K>>, df: map<K, nat>, total: nat, ids: seq<nat>)
    ensures Entries(entries, docs) && Frequencies(df, docs) && total == TotalLength(docs) && Ids(ids, docs)
  {
    entries, df, total, ids := [], map[], 0, [];
    for k := 0 to |docs|
      invariant Entries(entries, docs[..k]) && Frequencies(df, docs[..k])
      invariant total == TotalLength(docs[..k]) && Ids(ids, docs[..k])
    {
      assert docs[..k + 1] == docs[..k] + [docs[k]];
      var terms := CountTokens(docs[k].tokens);
      var more := BumpAll(df, terms);
      FrequenciesSnoc(df, docs[..k], terms, docs[k], more);
      EntriesSnoc(entries, docs[..k], Entry(terms, |docs[k].tokens|), docs[k]);
      entries, df := entries + [Entry(terms, |docs[k].tokens|)], more;
      total, ids := total + |docs[k].tokens|, ids + [docs[k].id];
    }
    assert docs[..|docs|] == docs;
  }

  method BuildFromDocuments<K(==, !new)>(ln: real -> real, docs: seq<Doc<K>>) returns (index: Index<K>)
    ensures Indexes(ln, index, docs)
  {
    var entries, df, total, ids := ReadDocuments(docs);
    var n := if |docs| >= 1 then |docs| else 1;
    var idf := IdfOf(ln, df, n);
    var avgLen := if docs == [] then 0.0 else total as real / |docs| as real;
    assert IdfTable(ln, idf, docs);
    index := Index(entries, idf, avgLen, ids);
  }

  // ----- searching -----

  /** The contribution of a token as the code computes it; the guard on the denominator never applies. */
  function TermScore(idf: real, tf: nat, len: nat, average: real): (s: real)
    requires tf > 0 && average >= 0.0
    ensures s == Part(idf, tf, len, average)
  {
    var denom := Denominator(tf, len, average);
    idf * ((tf as real * (K1 + 1.0)) / Max(denom, EPSILON))
  }

  /** The score of one document, from the tables. */
  method ScoreEntry<K(==, !new)>(
    ln: real -> real, index: Index<K>, e: Entry<K>, query: seq<K>, ghost docs: seq<Doc<K>>, ghost doc: Doc<K>)
    returns (s: real)
    requires Indexes(ln, index, docs) && doc in docs && Counts(e.terms, doc.tokens) && e.len == |doc.tokens|
    ensures s == Score(ln, docs, doc.tokens, query)
  {
    s := 0.0;
    AverageNonNegative(docs);
    for k := 0 to |query|
      invariant s == Score(ln, docs, doc.tokens, query[..k])
    {
      var t := query[k];
      assert query[..k + 1][..k] == query[..k];
      CountPositive(doc.tokens, t);
      var tf := if t in e.terms then e.terms[t] else 0;
      if tf == 0 {
        continue;
      }
      HeldSomewhere(docs, doc, t);
      var idf := if t in index.idf then index.idf[t] else 0.0;
      s := s + TermScore(idf, tf, e.len, index.avgLen);
    }
    assert query[..|query|] == query;
  }

  lemma {:induction false} HeldSomewhere<K>(docs: seq<Doc<K>>, doc: Doc<K>, t: K)
    requires doc in docs && t in doc.tokens
    ensures DocFreq(docs, t) > 0
  {
    if docs[|docs| - 1] != doc {
      assert docs == docs[..|docs| - 1] + [docs[|docs| - 1]];
      HeldSomewhere(docs[..|docs| - 1], doc, t);
    }
  }

  /** The hits by position, before they are cut off and named. */
  method ScoreAll<K(==, !new)>(ln: real -> real, index: Index<K>, query: seq<K>, ghost docs: seq<Doc<K>>)
    returns (scored: seq<Hit>)
    requires Logarithm(ln) && Indexes(ln, index, docs)
    ensures scored == NaiveHits(ln, docs, query, |docs|)
  {
    scored := [];
    for i := 0 to |index.docs|
      invariant i <= |docs| && scored == NaiveHits(ln, docs, query, i)
    {
      var s := ScoreEntry(ln, index, index.docs[i], query, docs, docs[i]);
      ScorePositiveIff(ln, docs, docs[i].tokens, query);
      if s > 0.0 {
        scored := scored + [Hit(i, s)];
      }
    }
  }

  ghost function Named(ids: seq<nat>, hits: seq<Hit>): (r: seq<Hit>)
    requires forall h :: h in hits ==> h.node < |ids|
    ensures |r| == |hits| && forall i :: 0 <= i < |hits| ==> r[i] == Hit(ids[hits[i].node], hits[i].score)
  {
    seq(|hits|, i requires 0 <= i < |hits| => assert hits[i] in hits; Hit(ids[hits[i].node], hits[i].score))
  }

  /** The full ranking of the scan: positions of documents that share a token, with their scores. */
  ghost function Ranking<K(!new)>(ln: real -> real, docs: seq<Doc<K>>, query: seq<K>): (r: seq<Hit>)
    ensures forall h :: h in r ==> h.node < |docs|
  {
    var hits := NaiveHits(ln, docs, query, |docs|);
    NaiveHitsAre(ln, docs, query, |docs|);
    SortedMembers(hits);
    StableSort(hits)
  }

  lemma SortedMembers(hits: seq<Hit>)
    ensures |StableSort(hits)| == |hits| && forall h :: h in StableSort(hits) <==> h in hits
  {
    StableSortSorts(hits);
    assert forall h :: h in StableSort(hits) <==> h in multiset(StableSort(hits));
    assert forall h :: h in hits <==> h in multiset(hits);
  }

  /** The first k of the scan's ranking. */
  method Search<K(==, !new)>(ln: real -> real, index: Index<K>, query: seq<K>, topK: nat, ghost docs: seq<Doc<K>>)
    returns (r: seq<Hit>)
    requires Logarithm(ln) && Indexes(ln, index, docs)
    ensures
      var all := Ranking(ln, docs, query);
      r == Named(index.ids, all[..Min(topK, |all|)])
  {
    r := [];
    if index.docs == [] || topK == 0 {
      NaiveHitsAre(ln, docs, query, |docs|);
      SortedMembers(NaiveHits(ln, docs, query, |docs|));
      return;
    }
    var scored := ScoreAll(ln, index, query, docs);
    var sorted := StableSort(scored);
    ghost var all := Ranking(ln, docs, query);
    for i := 0 to Min(topK, |sorted|)
      invariant |r| == i && forall j :: 0 <= j < i ==> sorted[j].node < |index.ids|
      invariant forall j :: 0 <= j < i ==> r[j] == Hit(index.ids[sorted[j].node], sorted[j].score)
    {
      assert sorted[i] in all;
      r := r + [Hit(index.ids[sorted[i].node], sorted[i].score)];
    }
  }

  // ----- what the ranking is -----

  /** By descending score, ties by position. */
  ghost predicate Ranked(hits: seq<Hit>) {
    forall i, j :: 0 <= i < j < |hits| ==> RanksBefore(hits[i], hits[j])
  }

  ghost predicate RanksBefore(g: Hit, h: Hit) {
    g.score > h.score || (g.score == h.score && g.node < h.node)
  }

  lemma InsertRanked(s: seq<Hit>, h: Hit)
    requires Ranked(s) && forall g :: g in s ==> g.node < h.node
    ensures Ranked(Insert(s, h))
  {
    var p := Place(s, h.score);
    PlaceIs(s, h.score);
    forall i | 0 <= i < |s|
      ensures if i < p then RanksBefore(s[i], h) else RanksBefore(h, s[i])
    {
      assert s[i] in s;
    }
    InsertedRanked(s, h, p);
  }

  lemma InsertedRanked(s: seq<Hit>, h: Hit, p: nat)
    requires Ranked(s) && p <= |s|
    requires forall i :: 0 <= i < |s| ==> if i < p then RanksBefore(s[i], h) else RanksBefore(h, s[i])
    ensures Ranked(s[..p] + [h] + s[p..])
  {
    var r := s[..p] + [h] + s[p..];
    assert forall i :: 0 <= i < |r| ==> r[i] == if i < p then s[i] else if i == p then h else s[i - 1];
  }

  lemma {:induction false} SortRanks(s: seq<Hit>)
    requires forall i, j :: 0 <= i < j < |s| ==> s[i].node < s[j].node
    ensures Ranked(StableSort(s))
  {
    if s != [] {
      var init, h := s[..|s| - 1], s[|s| - 1];
      SortRanks(init);
      SortedMembers(init);
      InsertRanked(StableSort(init), h);
    }
  }

  /** With room for the whole corpus, a search returns exactly the documents that share a token with the
      query, each once, by descending score and then by position. */
  lemma RankingIsExact<K(!new)>(ln: real -> real, docs: seq<Doc<K>>, query: seq<K>)
    ensures
      var all := Ranking(ln, docs, query);
      && Ranked(all) && |all| <= |docs|
      && (forall i: nat :: i < |docs| ==>
            (Shares(docs[i].tokens, query) <==> Hit(i, Score(ln, docs, docs[i].tokens, query)) in all))
      && (forall h :: h in all ==> h.node < |docs| && h.score == Score(ln, docs, docs[h.node].tokens, query))
  {
    var hits := NaiveHits(ln, docs, query, |docs|);
    NaiveHitsAre(ln, docs, query, |docs|);
    SortedMembers(hits);
    SortRanks(hits);
  }
}
