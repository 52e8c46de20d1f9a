/** When the refinement phase of brain/src/leiden.rs moves a node at all, and what each of its visits does. */
module RefinementMoves {
  import opened Modularity
  import opened Folds
  import opened LocalMoving
  import opened Labels
  import opened Refinement

  /** Two nodes bear one label. */
  ghost predicate Shared(p: seq<nat>) {
    exists v, w :: 0 <= v < w < |p| && p[v] == p[w]
  }

  ghost predicate Adjacent(g: Network, u: nat, v: nat) {
    u < |g.adj| && u != v && exists e :: e in g.adj[u] && e.0 == v
  }

  /** An edge inside an outer community along which a node that is alone would gain by moving. */
  ghost predicate Gainful(g: Network, outer: seq<nat>, u: nat, v: nat)
    requires Valid(g) && |outer| == |g.adj|
  {
    && u < |outer| && v < |outer| && outer[u] == outer[v] && Adjacent(g, u, v)
    && GainOf(g, Singletons(|g.adj|), u, v) > EPSILON
  }

  lemma AloneTouches(g: Network, u: nat, c: nat)
    requires Valid(g) && u < |g.adj|
    ensures Touches(g.adj[u], Singletons(|g.adj|), u, c) <==> Adjacent(g, u, c)
  {
    assert forall e :: e in g.adj[u] ==> e.0 < |g.adj|;
  }

  /** Alone, the node would gain by moving along some edge inside its outer community. */
  ghost predicate CanGain(g: Network, outer: seq<nat>, u: nat)
    requires Valid(g) && |outer| == |g.adj|
  {
    exists v: nat :: Gainful(g, outer, u, v)
  }

  lemma AloneSees(g: Network, outer: seq<nat>, u: nat, c: nat)
    requires Valid(g) && |outer| == |g.adj| && u < |g.adj|
    ensures c in InsideLabels(g.adj[u], outer, Singletons(|g.adj|), u)
       <==> c < |outer| && outer[c] == outer[u] && Adjacent(g, u, c)
  {
    AloneTouches(g, u, c);
    if c < |outer| {
      assert Singletons(|g.adj|)[c] == c;
    }
  }

  /** Visited while all are alone, a node moves if and only if it would gain along some edge. */
  lemma AloneMovesIff(g: Network, outer: seq<nat>, u: nat)
    requires Valid(g) && |outer| == |g.adj| && u < |g.adj|
    ensures Rehomed(g, outer, Singletons(|g.adj|), u) != Singletons(|g.adj|) <==> CanGain(g, outer, u)
  {
    var single := Singletons(|g.adj|);
    var near, c := InsideLabels(g.adj[u], outer, single, u), ChosenInside(g, outer, single, u);
    ScanIs(Listed(near), Gains(g, single, u), single[u]);
    if CanGain(g, outer, u) {
      var v: nat :| Gainful(g, outer, u, v);
      AloneSees(g, outer, u, v);
      ListedMembers(near, v);
    }
    ListedMembers(near, c.best);
    AloneSees(g, outer, u, c.best);
    if c.best != u && c.gain > EPSILON {
      assert Gainful(g, outer, u, c.best);
      assert single[u := c.best][u] != single[u];
    }
  }

  /** A node that moves ends up with the label of a neighbour. */
  lemma MovedShares(g: Network, outer: seq<nat>, p: seq<nat>, u: nat)
    requires Valid(g) && |p| == |g.adj| && u < |p| && Rehomed(g, outer, p, u) != p
    ensures Shared(Rehomed(g, outer, p, u))
  {
    var near, c := InsideLabels(g.adj[u], outer, p, u), ChosenInside(g, outer, p, u);
    ScanIs(Listed(near), Gains(g, p, u), p[u]);
    ListedMembers(near, c.best);
    var e :| e in g.adj[u] && e.0 != u && e.0 < |p| && p[e.0] == c.best;
    var r, v := p[u := c.best], e.0;
    assert r[u] == r[v];
    if u < v {
      assert Shared(r);
    } else {
      assert r[v] == r[u] && v < u;
    }
  }

  ghost predicate AnyGains(g: Network, outer: seq<nat>, order: seq<nat>, k: nat)
    requires Valid(g) && |outer| == |g.adj| && k <= |order|
  {
    exists j :: 0 <= j < k && CanGain(g, outer, order[j])
  }

  ghost predicate AsExpected(p: seq<nat>, n: nat, moved: bool) {
    |p| == n && if moved then Shared(p) else p == Singletons(n)
  }

  lemma NextVisit(g: Network, outer: seq<nat>, p: seq<nat>, u: nat, moved: bool)
    requires Valid(g) && |outer| == |g.adj| && u < |g.adj| && AsExpected(p, |g.adj|, moved)
    ensures AsExpected(Rehomed(g, outer, p, u), |g.adj|, moved || CanGain(g, outer, u))
  {
    AloneMovesIff(g, outer, u);
    if Rehomed(g, outer, p, u) != p {
      MovedShares(g, outer, p, u);
    }
  }

  /** As long as no visit has moved a node all are alone; from then on two nodes share a label. */
  lemma {:induction false} AloneOrShared(g: Network, outer: seq<nat>, order: seq<nat>, k: nat)
    requires Valid(g) && |outer| == |g.adj| && k <= |order| && forall j :: 0 <= j < k ==> order[j] < |g.adj|
    ensures AsExpected(Folded(RehomeOf(g, outer), Singletons(|g.adj|), order, k), |g.adj|, AnyGains(g, outer, order, k))
  {
    if k > 0 {
      AloneOrShared(g, outer, order, k - 1);
      var p := Folded(RehomeOf(g, outer), Singletons(|g.adj|), order, k - 1);
      NextVisit(g, outer, p, order[k - 1], AnyGains(g, outer, order, k - 1));
      AnyGainsNext(g, outer, order, k);
    }
  }

  lemma AnyGainsNext(g: Network, outer: seq<nat>, order: seq<nat>, k: nat)
    requires Valid(g) && |outer| == |g.adj| && 0 < k <= |order|
    ensures AnyGains(g, outer, order, k) <==> AnyGains(g, outer, order, k - 1) || CanGain(g, outer, order[k - 1])
  {
  }

  lemma SingletonsApart(n: nat)
    ensures !Shared(Singletons(n))
  {
  }

  lemma {:induction false} SingletonsCanonical(n: nat)
    ensures Canonical(Singletons(n)) && LabelCount(Singletons(n)) == n
  {
    if n > 0 {
      SingletonsCanonical(n - 1);
      assert Singletons(n) == Singletons(n - 1) + [n - 1];
      CanonicalSnoc(Singletons(n - 1), n - 1);
    }
  }

  lemma CanonShared(p: seq<nat>)
    ensures Shared(Canon(p)) <==> Shared(p)
    ensures Canon(Singletons(|p|)) == Singletons(|p|)
  {
    CanonRelabels(p);
    SingletonsCanonical(|p|);
    CanonIs(Singletons(|p|), Singletons(|p|));
  }

  /** Some edge inside an outer community would let a node that is alone gain. */
  ghost predicate SomeGainful(g: Network, outer: seq<nat>)
    requires Valid(g) && |outer| == |g.adj|
  {
    exists u: nat, v: nat :: Gainful(g, outer, u, v)
  }

  lemma OrderGains(g: Network, outer: seq<nat>, order: seq<nat>)
    requires Valid(g) && |outer| == |g.adj| && IsOrder(order, |g.adj|)
    ensures AnyGains(g, outer, order, |order|) <==> SomeGainful(g, outer)
  {
    if SomeGainful(g, outer) {
      var u: nat, v: nat :| Gainful(g, outer, u, v);
      assert u in order;
      var j :| 0 <= j < |order| && order[j] == u;
      assert CanGain(g, outer, order[j]);
    }
  }

  /** Refinement leaves every node alone if and only if no edge inside an outer community would let a single node
      gain; otherwise two nodes end up in one community. */
  lemma RefinementMovesIff(g: Network, outer: seq<nat>, order: seq<nat>)
    requires Valid(g) && |outer| == |g.adj| && IsOrder(order, |g.adj|)
    ensures
      var r := RefinedOf(g, outer, order);
      && |r| == |g.adj|
      && (r == Singletons(|g.adj|) <==> !SomeGainful(g, outer))
      && (Shared(r) <==> SomeGainful(g, outer))
  {
    AloneOrShared(g, outer, order, |order|);
    OrderGains(g, outer, order);
    CanonShared(RefinedRaw(g, outer, order));
    SingletonsApart(|g.adj|);
  }

  // ----- every visit -----

  /** A refined community inside the outer community of `u` that a neighbour is in. */
  ghost predicate Near(g: Network, outer: seq<nat>, p: seq<nat>, u: nat, c: nat)
    requires u < |g.adj|
  {
    Inner(outer, u, c) && Touches(g.adj[u], p, u, c)
  }

  /** What a visit may make of a refinement: it moves the node to a community near it that gains more than the
      tolerance and is near the best of them, or leaves it because none of them gains more than the tolerance above
      zero or above staying. */
  ghost predicate VisitDone(g: Network, outer: seq<nat>, p: seq<nat>, q: seq<nat>, u: nat)
    requires Valid(g) && |p| == |g.adj| && u < |p|
  {
    if q == p then
      forall c: nat :: Near(g, outer, p, u, c) ==>
        GainOf(g, p, u, c) <= EPSILON || GainOf(g, p, u, c) <= GainOf(g, p, u, p[u]) + EPSILON
    else
      exists c: nat ::
        && Near(g, outer, p, u, c) && c != p[u] && q == p[u := c] && GainOf(g, p, u, c) > EPSILON
        && forall k: nat :: Near(g, outer, p, u, k) ==> GainOf(g, p, u, k) <= GainOf(g, p, u, c) + EPSILON
  }

  lemma RehomedIsVisit(g: Network, outer: seq<nat>, p: seq<nat>, u: nat)
    requires Valid(g) && |p| == |g.adj| && u < |p|
    ensures VisitDone(g, outer, p, Rehomed(g, outer, p, u), u)
  {
    var near, c := InsideLabels(g.adj[u], outer, p, u), ChosenInside(g, outer, p, u);
    ScanIs(Listed(near), Gains(g, p, u), p[u]);
    ListedMembers(near, c.best);
    forall k: nat | Near(g, outer, p, u, k)
      ensures GainOf(g, p, u, k) <= c.gain + EPSILON
    {
      ListedMembers(near, k);
    }
    if c.best != p[u] && c.gain > EPSILON {
      assert Near(g, outer, p, u, c.best);
    }
  }

  /** One state before each visit and one after the last, from single nodes on. */
  ghost predicate Visits(g: Network, outer: seq<nat>, order: seq<nat>, trace: seq<seq<nat>>)
    requires Valid(g)
  {
    && |trace| == |order| + 1 && trace[0] == Singletons(|g.adj|)
    && forall k :: 0 <= k < |order| ==>
         |trace[k]| == |g.adj| && order[k] < |g.adj| && VisitDone(g, outer, trace[k], trace[k + 1], order[k])
  }

  /** A refinement visits every node of the order once, in that order, from single nodes on. */
  lemma RefinementVisits(g: Network, outer: seq<nat>, order: seq<nat>) returns (trace: seq<seq<nat>>)
    requires Valid(g) && forall k :: 0 <= k < |order| ==> order[k] < |g.adj|
    ensures Visits(g, outer, order, trace) && |trace[|order|]| == |g.adj|
    ensures Equivalent(RefinedOf(g, outer, order), trace[|order|])
  {
    trace := FoldTrace(RehomeOf(g, outer), Fitting(g), Singletons(|g.adj|), order);
    forall k | 0 <= k < |order|
      ensures |trace[k]| == |g.adj| && VisitDone(g, outer, trace[k], trace[k + 1], order[k])
    {
      assert Fitting(g)(trace[k]);
      RehomedIsVisit(g, outer, trace[k], order[k]);
    }
    assert Fitting(g)(trace[|order|]);
    CanonRelabels(RefinedRaw(g, outer, order));
  }
}
