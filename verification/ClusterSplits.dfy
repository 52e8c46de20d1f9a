/** What splitting communities does to the nodes they hold. */
module ClusterSplits {
  import opened Communities
  import opened ClusterGraph
  import opened ClusterLists

  /** The edges between members of a community. */
  ghost function Induced(links: seq<Link>, members: seq<NodeId>): seq<Link> {
    if links == [] then []
    else
      var l := links[|links| - 1];
      Induced(links[..|links| - 1], members) + if l.a in members && l.b in members then [l] else []
  }

  lemma {:induction false} InducedInside(links: seq<Link>, members: seq<NodeId>)
    ensures Touched(Induced(links, members)) <= Members(members)
  {
    if links != [] {
      var init, l := links[..|links| - 1], links[|links| - 1];
      InducedInside(init, members);
      if l.a in members && l.b in members {
        var sub := Induced(init, members);
        assert (sub + [l])[..|sub|] == sub;
      } else {
        assert Induced(init, members) + [] == Induced(init, members);
      }
    }
  }

  /** Inducing twice, the second time on a part, is inducing on the part. */
  lemma {:induction false} InducedTwice(links: seq<Link>, members: seq<NodeId>, part: seq<NodeId>)
    requires Members(part) <= Members(members)
    ensures Induced(Induced(links, members), part) == Induced(links, part)
  {
    if links != [] {
      var init, l := links[..|links| - 1], links[|links| - 1];
      InducedTwice(init, members, part);
      assert l.a in part ==> l.a in Members(part);
      assert l.b in part ==> l.b in Members(part);
      if l.a in members && l.b in members {
        var sub := Induced(init, members);
        assert (sub + [l])[..|sub|] == sub;
      } else {
        assert Induced(init, members) + [] == Induced(init, members);
      }
    }
  }

  method SubLinks(links: seq<Link>, members: seq<NodeId>) returns (sub: seq<Link>)
    ensures sub == Induced(links, members)
  {
    sub := [];
    for k := 0 to |links|
      invariant sub == Induced(links[..k], members)
    {
      assert links[..k + 1][..k] == links[..k];
      if links[k].a in members && links[k].b in members {
        sub := sub + [links[k]];
      }
    }
    assert links[..|links|] == links;
  }

  /** A community that was split, and the edges inside it. */
  datatype Split = Split(members: seq<NodeId>, links: seq<Link>)

  /** The members that no positive-weight edge inside the community touches. */
  ghost function LostIn(s: Split): multiset<NodeId> {
    multiset(s.members) - multiset(Touched(s.links))
  }

  ghost function Lost(splits: seq<Split>): multiset<NodeId> {
    if splits == [] then multiset{} else Lost(splits[..|splits| - 1]) + LostIn(splits[|splits| - 1])
  }

  lemma {:induction false} LostAppend(a: seq<Split>, b: seq<Split>)
    ensures Lost(a + b) == Lost(a) + Lost(b)
    decreases |b|
  {
    if b == [] {
      assert a + b == a;
    } else {
      var init, s := b[..|b| - 1], b[|b| - 1];
      LostAppend(a, init);
      SnocAssoc(a, b);
      assert (a + init + [s])[..|a + init|] == a + init;
      SumAssoc(Lost(a), Lost(init), LostIn(s));
    }
  }

  /** Every member of a split community touches a positive-weight edge inside it. */
  ghost predicate AllTouched(splits: seq<Split>) {
    forall s :: s in splits ==> Members(s.members) <= Touched(s.links)
  }

  lemma LostInNone(s: Split)
    requires AtMostOnce(multiset(s.members))
    ensures LostIn(s) == multiset{} <==> Members(s.members) <= Touched(s.links)
  {
    var m, t := multiset(s.members), multiset(Touched(s.links));
    if Members(s.members) <= Touched(s.links) {
      forall n
        ensures LostIn(s)[n] == 0
      {
        assert m[n] > 0 ==> n in Members(s.members);
      }
    } else {
      var n :| n in Members(s.members) && n !in Touched(s.links);
      assert LostIn(s)[n] > 0;
    }
  }

  lemma SumNone<T>(a: multiset<T>, b: multiset<T>)
    ensures a + b == multiset{} <==> a == multiset{} && b == multiset{}
  {
    assert forall x :: (a + b)[x] == a[x] + b[x];
    assert |a + b| == |a| + |b|;
  }

  lemma TouchedSnoc(splits: seq<Split>)
    requires splits != []
    ensures
      var s := splits[|splits| - 1];
      AllTouched(splits) <==> AllTouched(splits[..|splits| - 1]) && Members(s.members) <= Touched(s.links)
  {
    assert splits == splits[..|splits| - 1] + [splits[|splits| - 1]];
  }

  /** Nothing is lost if and only if every member of every split community touches an edge inside it. */
  lemma {:induction false} NoneLostIff(splits: seq<Split>)
    requires forall s :: s in splits ==> AtMostOnce(multiset(s.members))
    ensures Lost(splits) == multiset{} <==> AllTouched(splits)
  {
    if splits != [] {
      var init, s := splits[..|splits| - 1], splits[|splits| - 1];
      NoneLostIff(init);
      LostInNone(s);
      SumNone(Lost(init), LostIn(s));
      TouchedSnoc(splits);
    }
  }

  // ----- what a list of communities becomes -----

  ghost predicate PartOf(c: Community, d: Community) {
    Members(c.members) <= Members(d.members)
  }

  ghost predicate InsideOne(c: Community, cs: seq<Community>) {
    exists d :: d in cs && PartOf(c, d)
  }

  ghost predicate AllInside(out: seq<Community>, cs: seq<Community>) {
    forall c :: c in out ==> InsideOne(c, cs)
  }

  /** Not empty, and with a cohesion between 0 and 1. */
  ghost predicate Sane(c: Community) {
    c.members != [] && 0.0 <= c.cohesion <= 1.0
  }

  ghost predicate AllSane(cs: seq<Community>) {
    forall c :: c in cs ==> Sane(c)
  }

  /** A split that was made inside one of these communities, with all the edges there. */
  ghost predicate SplitOf(links: seq<Link>, d: Community, s: Split) {
    multiset(s.members) <= multiset(d.members) && |s.members| > 4 && s.links == Induced(links, s.members) != []
  }

  ghost predicate SplitOfOne(links: seq<Link>, cs: seq<Community>, s: Split) {
    exists d :: d in cs && SplitOf(links, d, s)
  }

  ghost predicate SplitsOf(links: seq<Link>, cs: seq<Community>, splits: seq<Split>) {
    forall s :: s in splits ==> SplitOfOne(links, cs, s)
  }

  /** `out` accounts for `cs`: every node is still held or was lost in one of the splits, and each community
      lies inside one that was there before. */
  ghost predicate Accounts(links: seq<Link>, cs: seq<Community>, out: seq<Community>, splits: seq<Split>) {
    && Holdings(out) + Lost(splits) == Holdings(cs)
    && AllInside(out, cs)
    && (AllSane(cs) ==> AllSane(out))
    && SplitsOf(links, cs, splits)
  }

  lemma AccountsItself(links: seq<Link>, cs: seq<Community>)
    ensures Accounts(links, cs, cs, [])
  {
    forall c | c in cs
      ensures InsideOne(c, cs)
    {
      assert PartOf(c, c);
    }
  }

  lemma AllInsideJoins(a: seq<Community>, cs: seq<Community>, b: seq<Community>, ds: seq<Community>)
    requires AllInside(a, cs) && AllInside(b, ds)
    ensures AllInside(a + b, cs + ds)
  {
    forall c | c in a + b
      ensures InsideOne(c, cs + ds)
    {
      var d :| (d in cs || d in ds) && PartOf(c, d);
      assert d in cs + ds;
    }
  }

  lemma SplitsOfJoins(links: seq<Link>, a: seq<Split>, cs: seq<Community>, b: seq<Split>, ds: seq<Community>)
    requires SplitsOf(links, cs, a) && SplitsOf(links, ds, b)
    ensures SplitsOf(links, cs + ds, a + b)
  {
    forall s | s in a + b
      ensures SplitOfOne(links, cs + ds, s)
    {
      var d :| (d in cs || d in ds) && SplitOf(links, d, s);
      assert d in cs + ds;
    }
  }

  lemma SumsJoin<T>(a: multiset<T>, x: multiset<T>, b: multiset<T>, y: multiset<T>)
    ensures (a + b) + (x + y) == (a + x) + (b + y)
  {
  }

  lemma HoldingsJoin(
    cs: seq<Community>, out: seq<Community>, splits: seq<Split>,
    ds: seq<Community>, more: seq<Community>, extra: seq<Split>)
    requires Holdings(out) + Lost(splits) == Holdings(cs) && Holdings(more) + Lost(extra) == Holdings(ds)
    ensures Holdings(out + more) + Lost(splits + extra) == Holdings(cs + ds)
  {
    HoldingsAppend(cs, ds);
    HoldingsAppend(out, more);
    LostAppend(splits, extra);
    SumsJoin(Holdings(out), Lost(splits), Holdings(more), Lost(extra));
  }

  lemma SaneJoin(cs: seq<Community>, out: seq<Community>, ds: seq<Community>, more: seq<Community>)
    requires (AllSane(cs) ==> AllSane(out)) && (AllSane(ds) ==> AllSane(more))
    ensures AllSane(cs + ds) ==> AllSane(out + more)
  {
    assert AllSane(cs + ds) ==> AllSane(cs) && AllSane(ds);
  }

  lemma AccountsJoin(
    links: seq<Link>, cs: seq<Community>, out: seq<Community>, splits: seq<Split>,
    ds: seq<Community>, more: seq<Community>, extra: seq<Split>)
    requires Accounts(links, cs, out, splits) && Accounts(links, ds, more, extra)
    ensures Accounts(links, cs + ds, out + more, splits + extra)
  {
    HoldingsJoin(cs, out, splits, ds, more, extra);
    AllInsideJoins(out, cs, more, ds);
    SplitsOfJoins(links, splits, cs, extra, ds);
    SaneJoin(cs, out, ds, more);
  }
}
