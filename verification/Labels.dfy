/** Partition labels: `compress` of brain/src/leiden.rs and the normal form it computes. */
module Labels {

  /** Two labellings of the same nodes cut them into the same classes. */
  ghost predicate Equivalent(a: seq<nat>, b: seq<nat>) {
    |a| == |b| && forall i, j :: 0 <= i < |a| && 0 <= j < |a| ==> (a[i] == a[j] <==> b[i] == b[j])
  }

  /** Nodes with the same label in `fine` have the same label in `coarse`. */
  ghost predicate Refines(fine: seq<nat>, coarse: seq<nat>) {
    |fine| == |coarse| && forall i, j :: 0 <= i < |fine| && 0 <= j < |fine| && fine[i] == fine[j] ==>
        coarse[i] == coarse[j]
  }

  /** The number of labels in use, when they are numbered by first appearance. */
  ghost function LabelCount(s: seq<nat>): nat {
    if s == [] then 0
    else
      var k := LabelCount(s[..|s| - 1]);
      if s[|s| - 1] == k then k + 1 else k
  }

  /** Labels are `0, 1, 2, ...` in order of first appearance. */
  ghost predicate Canonical(s: seq<nat>) {
    s == [] || (Canonical(s[..|s| - 1]) && s[|s| - 1] <= LabelCount(s[..|s| - 1]))
  }

  lemma CanonicalSnoc(s: seq<nat>, x: nat)
    ensures Canonical(s + [x]) <==> Canonical(s) && x <= LabelCount(s)
    ensures LabelCount(s + [x]) == LabelCount(s) + if x == LabelCount(s) then 1 else 0
  {
    assert (s + [x])[..|s|] == s;
  }

  /** A canonical labelling uses exactly the labels below its count. */
  lemma {:induction false} CanonicalDense(s: seq<nat>)
    requires Canonical(s)
    ensures forall c: nat :: c in s <==> c < LabelCount(s)
  {
    if s != [] {
      var init, x := s[..|s| - 1], s[|s| - 1];
      CanonicalDense(init);
      assert s == init + [x];
    }
  }

  /** A canonical labelling is the only canonical one of its partition. */
  lemma {:induction false} CanonicalUnique(a: seq<nat>, b: seq<nat>)
    requires Canonical(a) && Canonical(b) && Equivalent(a, b)
    ensures a == b
  {
    if a != [] {
      var n := |a| - 1;
      CanonicalUnique(a[..n], b[..n]);
      CanonicalDense(a[..n]);
      CanonicalDense(b[..n]);
      if j :| 0 <= j < n && a[j] == a[n] {
        assert b[j] == b[n] && a[..n][j] == b[..n][j];
      } else {
        assert a[n] !in a[..n];
        assert b[n] !in b[..n];
      }
      assert a == a[..n] + [a[n]] && b == b[..n] + [b[n]];
    }
  }

  /** `names` sends each old label met so far to its new label, the next free one being `next`. */
  ghost predicate Renamed(before: seq<nat>, after: seq<nat>, names: map<nat, nat>, next: nat) {
    && |before| == |after| && Canonical(after) && next == LabelCount(after)
    && (forall i :: 0 <= i < |before| ==> before[i] in names && names[before[i]] == after[i])
    && (forall c, d :: c in names && d in names && names[c] == names[d] ==> c == d)
    && (forall c :: c in names ==> names[c] < next)
  }

  lemma RenamedSnoc(before: seq<nat>, after: seq<nat>, names: map<nat, nat>, next: nat, c: nat)
    requires Renamed(before, after, names, next)
    ensures c in names ==> Renamed(before + [c], after + [names[c]], names, next)
    ensures c !in names ==> Renamed(before + [c], after + [next], names[c := next], next + 1)
  {
    CanonicalSnoc(after, if c in names then names[c] else next);
  }

  lemma RenamedEquivalent(before: seq<nat>, after: seq<nat>, names: map<nat, nat>, next: nat)
    requires Renamed(before, after, names, next)
    ensures Equivalent(after, before) && Canonical(after)
  {
  }

  lemma {:induction false} RenamedThere(s: seq<nat>) returns (after: seq<nat>, names: map<nat, nat>, next: nat)
    ensures Renamed(s, after, names, next)
  {
    if s == [] {
      after, names, next := [], map[], 0;
    } else {
      var init, c := s[..|s| - 1], s[|s| - 1];
      after, names, next := RenamedThere(init);
      RenamedSnoc(init, after, names, next, c);
      assert s == init + [c];
      if c in names {
        after := after + [names[c]];
      } else {
        after, names, next := after + [next], names[c := next], next + 1;
      }
    }
  }

  lemma CanonThere(s: seq<nat>)
    ensures exists r :: Relabels(r, s)
  {
    var after, names, next := RenamedThere(s);
    RenamedEquivalent(s, after, names, next);
    assert Relabels(after, s);
  }

  /** The same classes under canonical labels. */
  ghost function Canon(s: seq<nat>): (r: seq<nat>)
    ensures |r| == |s|
  {
    CanonThere(s);
    var r :| Relabels(r, s);
    r
  }

  /** `r` has the classes of `s` and canonical labels. */
  ghost predicate Relabels(r: seq<nat>, s: seq<nat>) {
    Equivalent(r, s) && Canonical(r)
  }

  lemma CanonRelabels(s: seq<nat>)
    ensures Equivalent(Canon(s), s) && Canonical(Canon(s))
  {
    CanonThere(s);
  }

  lemma CanonIs(s: seq<nat>, r: seq<nat>)
    requires Equivalent(r, s) && Canonical(r)
    ensures r == Canon(s)
  {
    CanonRelabels(s);
    EquivalentJoin(r, s, Canon(s));
    CanonicalUnique(r, Canon(s));
  }

  lemma EquivalentJoin(a: seq<nat>, b: seq<nat>, c: seq<nat>)
    requires Equivalent(a, b) && Equivalent(c, b)
    ensures Equivalent(a, c)
  {
  }

  /** Renumbers the labels in place, in order of first appearance. */
  method Compress(part: array<nat>)
    modifies part
    ensures Equivalent(part[..], old(part[..])) && Canonical(part[..]) && part[..] == Canon(old(part[..]))
  {
    ghost var before := part[..];
    var names: map<nat, nat> := map[];
    var next := 0;
    for k := 0 to part.Length
      invariant forall j :: k <= j < part.Length ==> part[j] == before[j]
      invariant Renamed(before[..k], part[..k], names, next)
    {
      ghost var done := part[..k];
      var c := part[k];
      RenamedSnoc(before[..k], done, names, next, c);
      if c !in names {
        names := names[c := next];
        next := next + 1;
      }
      part[k] := names[c];
      assert part[..k + 1] == done + [names[c]];
      assert before[..k + 1] == before[..k] + [c];
    }
    assert part[..part.Length] == part[..] && before[..part.Length] == before;
    RenamedEquivalent(before, part[..], names, next);
    CanonIs(before, part[..]);
  }
}
