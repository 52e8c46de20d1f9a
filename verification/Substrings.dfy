/** First occurrences of one sequence inside another, and how they behave when texts are joined. */
module Substrings {
  import opened Sequences

  predicate OccursAt<T(==)>(text: seq<T>, n: seq<T>, p: nat) {
    p + |n| <= |text| && text[p..p + |n|] == n
  }

  ghost predicate Contains<T>(text: seq<T>, n: seq<T>) {
    exists p: nat :: OccursAt(text, n, p)
  }

  /** Tries so many positions in turn. */
  function Scan<T(==)>(text: seq<T>, n: seq<T>, from: nat, tries: nat): Option<nat>
    decreases tries
  {
    if tries == 0 then None
    else if OccursAt(text, n, from) then Some(from)
    else Scan(text, n, from + 1, tries - 1)
  }

  /** Where a needle first occurs at or after a position. */
  function FindFrom<T(==)>(text: seq<T>, n: seq<T>, from: nat): (r: Option<nat>)
    ensures r.Some? ==> from <= r.value && r.value + |n| <= |text|
  {
    ScanFinds(text, n, from, |text| + 1);
    Scan(text, n, from, |text| + 1)
  }

  lemma {:induction false} ScanFinds<T>(text: seq<T>, n: seq<T>, from: nat, tries: nat)
    ensures
      var r := Scan(text, n, from, tries);
      && (r.Some? ==> from <= r.value < from + tries && OccursAt(text, n, r.value))
      && (forall p: nat :: from <= p < (if r.Some? then r.value else from + tries) ==> !OccursAt(text, n, p))
    decreases tries
  {
    if tries != 0 && !OccursAt(text, n, from) {
      ScanFinds(text, n, from + 1, tries - 1);
    }
  }

  /** The occurrence found is the first; none is found only if there is none. */
  lemma FindMeans<T>(text: seq<T>, n: seq<T>, from: nat)
    ensures
      var r := FindFrom(text, n, from);
      && (r.Some? ==> from <= r.value && OccursAt(text, n, r.value))
      && (r.Some? ==> forall p: nat :: from <= p < r.value ==> !OccursAt(text, n, p))
      && (r.None? ==> forall p: nat :: from <= p ==> !OccursAt(text, n, p))
  {
    ScanFinds(text, n, from, |text| + 1);
  }

  lemma FindIs<T>(text: seq<T>, n: seq<T>, from: nat, at: nat)
    requires from <= at && OccursAt(text, n, at)
    requires forall p: nat :: from <= p < at ==> !OccursAt(text, n, p)
    ensures FindFrom(text, n, from) == Some(at)
  {
    FindMeans(text, n, from);
  }

  lemma OccursPoint<T>(text: seq<T>, n: seq<T>, p: nat, k: nat)
    requires OccursAt(text, n, p) && k < |n|
    ensures text[p + k] == n[k]
  {
    assert text[p..p + |n|][k] == n[k];
  }

  lemma OccursLeft<T>(a: seq<T>, b: seq<T>, n: seq<T>, p: nat)
    requires p + |n| <= |a|
    ensures OccursAt(a + b, n, p) <==> OccursAt(a, n, p)
  {
    assert (a + b)[p..p + |n|] == a[p..p + |n|];
  }

  lemma OccursRight<T>(a: seq<T>, b: seq<T>, n: seq<T>, p: nat)
    requires |a| <= p
    ensures OccursAt(a + b, n, p) <==> OccursAt(b, n, p - |a|)
  {
    if p + |n| <= |a + b| {
      assert (a + b)[p..p + |n|] == b[p - |a|..p - |a| + |n|];
    }
  }

  predicate Free<T(==)>(s: seq<T>, c: T) {
    forall i :: 0 <= i < |s| ==> s[i] != c
  }

  /** No occurrence can lie across the seam of two texts: the first character of the right one occurs in the
      needle at most in front, or the last one of the left one at most at the end. */
  predicate Seam<T(==)>(a: seq<T>, b: seq<T>, n: seq<T>) {
    a == [] || b == [] || n == [] || Free(n[1..], b[0]) || Free(n[..|n| - 1], a[|a| - 1])
  }

  lemma NothingAcross<T>(a: seq<T>, b: seq<T>, n: seq<T>, p: nat)
    requires Seam(a, b, n) && p < |a| < p + |n|
    ensures !OccursAt(a + b, n, p)
  {
    var k: nat := |a| - p - 1;
    assert n[1..][k] == n[k + 1] && n[..|n| - 1][k] == n[k];
    if OccursAt(a + b, n, p) {
      OccursPoint(a + b, n, p, k);
      OccursPoint(a + b, n, p, k + 1);
    }
  }

  /** Joined at such a seam, texts without the needle give a text without it. */
  lemma JoinLacks<T>(a: seq<T>, b: seq<T>, n: seq<T>)
    requires n != [] && Seam(a, b, n) && !Contains(a, n) && !Contains(b, n)
    ensures !Contains(a + b, n)
  {
    forall p: nat
      ensures !OccursAt(a + b, n, p)
    {
      if p + |n| <= |a| {
        OccursLeft(a, b, n, p);
      } else if p < |a| {
        NothingAcross(a, b, n, p);
      } else {
        OccursRight(a, b, n, p);
      }
    }
  }

  lemma FreeLacks<T>(s: seq<T>, n: seq<T>, k: nat)
    requires k < |n| && Free(s, n[k])
    ensures !Contains(s, n)
  {
    if p: nat :| OccursAt(s, n, p) {
      OccursPoint(s, n, p, k);
    }
  }

  lemma PartLacks<T>(a: seq<T>, b: seq<T>, n: seq<T>)
    requires !Contains(a + b, n)
    ensures !Contains(a, n) && !Contains(b, n)
  {
    forall p: nat
      ensures !OccursAt(a, n, p) && !OccursAt(b, n, p)
    {
      if p + |n| <= |a| {
        OccursLeft(a, b, n, p);
      }
      OccursRight(a, b, n, |a| + p);
    }
  }

  /** A needle behind a text without it is found where it was put. */
  lemma FoundAt<T>(before: seq<T>, mid: seq<T>, n: seq<T>, after: seq<T>)
    requires n != [] && !Contains(mid, n) && Seam(mid, n + after, n)
    ensures FindFrom(before + (mid + (n + after)), n, |before|) == Some(|before| + |mid|)
  {
    FoundFirst(mid, n, after);
    FindBehind(before, mid + (n + after), n, |mid|);
  }

  lemma FoundFirst<T>(mid: seq<T>, n: seq<T>, after: seq<T>)
    requires n != [] && !Contains(mid, n) && Seam(mid, n + after, n)
    ensures FindFrom(mid + (n + after), n, 0) == Some(|mid|)
  {
    var end := n + after;
    assert end[..|n|] == n;
    OccursRight(mid, end, n, |mid|);
    forall p: nat | p < |mid|
      ensures !OccursAt(mid + end, n, p)
    {
      if p + |n| <= |mid| {
        OccursLeft(mid, end, n, p);
      } else {
        NothingAcross(mid, end, n, p);
      }
    }
    FindIs(mid + end, n, 0, |mid|);
  }

  /** Searching behind a prefix is searching what follows it. */
  lemma FindBehind<T>(before: seq<T>, text: seq<T>, n: seq<T>, at: nat)
    requires FindFrom(text, n, 0) == Some(at)
    ensures FindFrom(before + text, n, |before|) == Some(at + |before|)
  {
    FindMeans(text, n, 0);
    OccursRight(before, text, n, at + |before|);
    forall p: nat | |before| <= p < at + |before|
      ensures !OccursAt(before + text, n, p)
    {
      OccursRight(before, text, n, p);
    }
    FindIs(before + text, n, |before|, at + |before|);
  }
}
