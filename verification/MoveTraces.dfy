/** What the visits and passes of the local moving of brain/src/leiden.rs do, one after the other. */
module MoveTraces {
  import opened Modularity
  import opened Folds
  import opened LocalMoving

  /** What a visit may make of a partition: it moves the node to a neighbouring community that gains more than staying
      and the tolerance, and is near the best of them, or leaves it because it is near its best. */
  ghost predicate MoveDone(g: Network, p: seq<nat>, q: seq<nat>, u: nat)
    requires Valid(g) && |p| == |g.adj| && u < |p|
  {
    if q == p then NearBest(g, p, u)
    else
      exists c: nat ::
        && Touches(g.adj[u], p, u, c) && c != p[u] && q == p[u := c]
        && GainOf(g, p, u, c) > GainOf(g, p, u, p[u]) + EPSILON
        && forall k: nat :: Touches(g.adj[u], p, u, k) ==> GainOf(g, p, u, k) <= GainOf(g, p, u, c) + EPSILON
  }

  lemma VisitedIsMove(g: Network, p: seq<nat>, u: nat)
    requires Valid(g) && |p| == |g.adj| && u < |p|
    ensures MoveDone(g, p, Visited(g, p, u), u)
  {
    VisitedRaises(g, p, u);
    ChosenIs(g, p, u);
    var q := Visited(g, p, u);
    if q != p {
      assert Touches(g.adj[u], p, u, q[u]) && q[u] != p[u];
    }
  }

  /** One state before each visit and one after the last. */
  ghost predicate PassTrace(g: Network, order: seq<nat>, trace: seq<seq<nat>>)
    requires Valid(g)
  {
    && |trace| == |order| + 1
    && forall k :: 0 <= k < |order| ==>
         |trace[k]| == |g.adj| && order[k] < |g.adj| && MoveDone(g, trace[k], trace[k + 1], order[k])
  }

  /** A pass visits every node of the order once, in that order. */
  lemma PassVisits(g: Network, part: seq<nat>, order: seq<nat>) returns (trace: seq<seq<nat>>)
    requires Valid(g) && |part| == |g.adj| && forall k :: 0 <= k < |order| ==> order[k] < |g.adj|
    ensures PassTrace(g, order, trace) && trace[0] == part && trace[|order|] == Passed(g, part, order)
  {
    trace := FoldTrace(VisitOf(g), Fitting(g), part, order);
    forall k | 0 <= k < |order|
      ensures |trace[k]| == |g.adj| && MoveDone(g, trace[k], trace[k + 1], order[k])
    {
      assert Fitting(g)(trace[k]);
      VisitedIsMove(g, trace[k], order[k]);
    }
  }

  /** Local moving makes passes that each change something, at most so many, and stops before only if the next one
      would change nothing. */
  lemma LocalMovedIs(g: Network, part: seq<nat>, order: seq<nat>, passes: nat)
    requires Valid(g) && |part| == |g.adj|
    ensures StoppedAfter(PassOf(g, order), part, passes, LocalPasses(g, part, order, passes),
                         LocalMoved(g, part, order, passes))
  {
    UntilIs(PassOf(g, order), part, passes);
  }
}
