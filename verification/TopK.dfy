/** The bounded top-k buffer of brain/src/embed_store.rs (`nearest`) against a full ranking. */
module TopK {
  import opened Sequences
  import opened Numbers

  datatype Hit = Hit(node: nat, score: real)

  // ----- the reference: all rows ranked by descending score, ties by position -----

  /** Row `a` ranks before row `b`. */
  ghost predicate Before(scores: seq<real>, a: nat, b: nat)
    requires a < |scores| && b < |scores|
  {
    scores[a] > scores[b] || (scores[a] == scores[b] && a < b)
  }

  /** `r` lists the first `n` rows, each once, in rank order. */
  ghost predicate IsRanking(scores: seq<real>, n: nat, r: seq<nat>) {
    && n <= |scores| && |r| == n && Within(r, n)
    && (forall i, j :: 0 <= i < j < n ==> Before(scores, r[i], r[j]))
    && (forall a: nat :: a < n ==> a in r)
  }

  // ----- insertion -----

  /** Hits in descending order of score. */
  ghost predicate Descending(s: seq<Hit>) {
    forall i, j :: 0 <= i < j < |s| ==> s[i].score >= s[j].score
  }

  /** Where a hit of score `x` goes: behind everything that scores at least as much. */
  function Place(s: seq<Hit>, x: real): (p: nat)
    ensures p <= |s|
  {
    if s == [] || s[0].score < x then 0 else 1 + Place(s[1..], x)
  }

  function Insert(s: seq<Hit>, h: Hit): seq<Hit> {
    var p := Place(s, h.score);
    s[..p] + [h] + s[p..]
  }

  /** A stable sort, descending: each hit goes behind those before it that score at least as much. */
  function StableSort(s: seq<Hit>): seq<Hit> {
    if s == [] then [] else Insert(StableSort(s[..|s| - 1]), s[|s| - 1])
  }

  lemma {:induction false} PlaceIs(s: seq<Hit>, x: real)
    requires Descending(s)
    ensures forall i :: 0 <= i < Place(s, x) ==> s[i].score >= x
    ensures forall i :: Place(s, x) <= i < |s| ==> s[i].score < x
  {
    if s != [] && s[0].score >= x {
      PlaceIs(s[1..], x);
      forall i | 0 <= i < |s|
        ensures i < Place(s, x) ==> s[i].score >= x
        ensures Place(s, x) <= i ==> s[i].score < x
      {
        assert i > 0 ==> s[i] == s[1..][i - 1];
      }
    }
  }

  lemma InsertDescending(s: seq<Hit>, h: Hit)
    requires Descending(s)
    ensures Descending(Insert(s, h))
  {
    PlaceIs(s, h.score);
  }

  lemma InsertKeeps(s: seq<Hit>, h: Hit)
    ensures |Insert(s, h)| == |s| + 1 && multiset(Insert(s, h)) == multiset(s) + multiset{h}
  {
    var p := Place(s, h.score);
    assert s == s[..p] + s[p..];
  }

  /** The sort keeps the hits and puts them in order. */
  lemma {:induction false} StableSortSorts(s: seq<Hit>)
    ensures Descending(StableSort(s)) && |StableSort(s)| == |s| && multiset(StableSort(s)) == multiset(s)
  {
    if s != [] {
      var init, h := s[..|s| - 1], s[|s| - 1];
      StableSortSorts(init);
      InsertDescending(StableSort(init), h);
      InsertKeeps(StableSort(init), h);
      assert s == init + [h];
    }
  }

  /** Hits already in order stay as they are. */
  lemma {:induction false} SortedStays(s: seq<Hit>)
    requires Descending(s)
    ensures StableSort(s) == s
  {
    if s != [] {
      var init, h := s[..|s| - 1], s[|s| - 1];
      SortedStays(init);
      PlaceIs(init, h.score);
      assert Place(init, h.score) == |init|;
      assert init[..|init|] + [h] + init[|init|..] == s;
    }
  }

  /** Sorting an ordered buffer with one hit pushed on is an insertion. */
  lemma SortPushed(s: seq<Hit>, h: Hit)
    requires Descending(s)
    ensures StableSort(s + [h]) == Insert(s, h)
  {
    SortedStays(s);
    assert (s + [h])[..|s|] == s;
  }

  // ----- hits of a ranking -----

  ghost function HitsOf(ids: seq<nat>, scores: seq<real>, r: seq<nat>): (h: seq<Hit>)
    requires |ids| == |scores| && Within(r, |ids|)
    ensures |h| == |r| && forall i :: 0 <= i < |r| ==> h[i] == Hit(ids[r[i]], scores[r[i]])
  {
    seq(|r|, i requires 0 <= i < |r| => Hit(ids[r[i]], scores[r[i]]))
  }

  lemma RankingDescends(ids: seq<nat>, scores: seq<real>, n: nat, r: seq<nat>)
    requires |ids| == |scores| && IsRanking(scores, n, r)
    ensures Within(r, |ids|) && Descending(HitsOf(ids, scores, r))
  {
  }

  /** Row `n` goes behind the rows that score at least as much. */
  lemma InsertInRanking(scores: seq<real>, n: nat, r: seq<nat>, p: nat)
    requires n < |scores| && IsRanking(scores, n, r) && p <= n
    requires forall i :: 0 <= i < p ==> scores[r[i]] >= scores[n]
    requires forall i :: p <= i < n ==> scores[r[i]] < scores[n]
    ensures IsRanking(scores, n + 1, r[..p] + [n] + r[p..])
  {
    var s := r[..p] + [n] + r[p..];
    forall a: nat | a < n + 1
      ensures a in s
    {
      if a < n {
        assert a in r;
        var i :| 0 <= i < |r| && r[i] == a;
        assert s[if i < p then i else i + 1] == a;
      } else {
        assert s[p] == n;
      }
    }
  }

  /** Placing row `n` in the ranking of the rows before it. */
  lemma RankingInsert(ids: seq<nat>, scores: seq<real>, n: nat, r: seq<nat>) returns (s: seq<nat>)
    requires |ids| == |scores| && n < |scores| && IsRanking(scores, n, r) && Within(r, |ids|)
    ensures IsRanking(scores, n + 1, s) && Within(s, |ids|)
    ensures HitsOf(ids, scores, s) == Insert(HitsOf(ids, scores, r), Hit(ids[n], scores[n]))
  {
    var h := HitsOf(ids, scores, r);
    RankingDescends(ids, scores, n, r);
    var p := Place(h, scores[n]);
    PlaceIs(h, scores[n]);
    InsertInRanking(scores, n, r, p);
    s := r[..p] + [n] + r[p..];
    assert HitsOf(ids, scores, s) == h[..p] + [Hit(ids[n], scores[n])] + h[p..];
  }

  // ----- the buffer -----

  lemma {:induction false} PlaceTruncated(s: seq<Hit>, x: real, k: nat)
    requires 0 < k <= |s| && x > s[k - 1].score
    ensures Place(s, x) == Place(s[..k - 1], x) < k
  {
    if s[0].score >= x {
      PlaceTruncated(s[1..], x, k - 1);
      assert s[..k - 1][1..] == s[1..][..k - 2];
    }
  }

  /** The first places of an insertion depend on the first places only. */
  lemma InsertEarly(s: seq<Hit>, h: Hit, k: nat)
    requires Descending(s) && 0 < k <= |s| && h.score > s[k - 1].score
    ensures Insert(s, h)[..k] == Insert(s[..k - 1], h)
  {
    var p := Place(s, h.score);
    PlaceTruncated(s, h.score, k);
    assert s[..k - 1][..p] == s[..p] && s[..k - 1][p..] == s[p..k - 1];
  }

  lemma InsertLate(s: seq<Hit>, h: Hit, k: nat)
    requires Descending(s) && 0 < k <= |s| && h.score <= s[k - 1].score
    ensures Insert(s, h)[..k] == s[..k]
  {
    PlaceIs(s, h.score);
    assert Place(s, h.score) >= k;
  }

  /** One row of the scan: the buffer goes from the best `k` of `full` to the best `k` with `h` added. */
  lemma BufferStep(full: seq<Hit>, h: Hit, k: nat)
    requires Descending(full) && k > 0
    ensures |full| < k ==> StableSort(full[..Min(k, |full|)] + [h]) == Insert(full, h)[..Min(k, |full| + 1)]
    ensures |full| >= k && h.score > full[k - 1].score ==>
      StableSort(full[..k - 1] + [h]) == Insert(full, h)[..Min(k, |full| + 1)]
    ensures |full| >= k && h.score <= full[k - 1].score ==> full[..k] == Insert(full, h)[..Min(k, |full| + 1)]
  {
    InsertKeeps(full, h);
    if |full| < k {
      assert full[..|full|] == full;
      SortPushed(full, h);
    } else {
      SortPushed(full[..k - 1], h);
      if h.score > full[k - 1].score {
        InsertEarly(full, h, k);
      } else {
        InsertLate(full, h, k);
      }
    }
  }

  /** The buffer after one more hit. */
  function Offer(heap: seq<Hit>, hit: Hit, k: nat): seq<Hit>
    requires k > 0
  {
    if |heap| < k then StableSort(heap + [hit])
    else if hit.score > heap[|heap| - 1].score then StableSort(heap[..|heap| - 1] + [hit])
    else heap
  }

  /** If the buffer holds the best `k` of the rows so far, offering it the next row keeps it so. */
  lemma OfferNext(ids: seq<nat>, scores: seq<real>, n: nat, r: seq<nat>, k: nat) returns (s: seq<nat>)
    requires |ids| == |scores| && n < |scores| && k > 0 && IsRanking(scores, n, r) && Within(r, |ids|)
    ensures IsRanking(scores, n + 1, s) && Within(s, |ids|)
    ensures Offer(HitsOf(ids, scores, r)[..Min(k, n)], Hit(ids[n], scores[n]), k) ==
            HitsOf(ids, scores, s)[..Min(k, n + 1)]
  {
    var full, hit := HitsOf(ids, scores, r), Hit(ids[n], scores[n]);
    var heap := full[..Min(k, n)];
    RankingDescends(ids, scores, n, r);
    BufferStep(full, hit, k);
    s := RankingInsert(ids, scores, n, r);
    assert |heap| >= k ==> heap[..|heap| - 1] == full[..k - 1];
  }

  /** A ranking is determined by the scores. */
  lemma {:induction false} RankingUnique(scores: seq<real>, n: nat, r: seq<nat>, s: seq<nat>, i: nat)
    requires IsRanking(scores, n, r) && IsRanking(scores, n, s) && i <= n
    ensures r[..i] == s[..i]
  {
    if i > 0 {
      RankingUnique(scores, n, r, s, i - 1);
      var k := i - 1;
      assert r[k] in s && s[k] in r;
      var a :| 0 <= a < n && s[a] == r[k];
      var b :| 0 <= b < n && r[b] == s[k];
      assert forall j :: 0 <= j < k ==> r[j] == r[..k][j] == s[..k][j] == s[j];
      assert r[..i] == r[..k] + [r[k]] && s[..i] == s[..k] + [s[k]];
    }
  }
}
