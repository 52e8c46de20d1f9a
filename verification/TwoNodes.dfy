/** The solver of brain/src/leiden.rs on two nodes and one edge: it joins them. */
module TwoNodes {
  import opened Numbers
  import opened Sums
  import opened Modularity
  import opened Folds
  import opened LocalMoving
  import opened Labels
  import opened Refinement
  import opened RefinementMoves
  import opened Communities
  import opened Grouping
  import opened Leiden

  ghost predicate Pair(g: Network, w: real) {
    w > 0.0 && g.adj == [[(1, w)], [(0, w)]] && g.twoM == 2.0 * w && g.gamma == 1.0
  }

  lemma SumTwo(x: real, y: real)
    ensures Sum([x, y]) == x + y
  {
    SumSnoc([], x);
    SumSnoc([x], y);
    assert [] + [x] == [x] && [x] + [y] == [x, y];
  }

  lemma Quarter(w: real, m: real, t: real, x: real)
    requires w > 0.0 && m == 2.0 * w && x == w * w && t == m * m
    ensures t > 0.0 && m > 0.0 && w / m - x / t == 0.25 && 0.0 / m - 0.0 / t == 0.0
  {
    ProductPositive(w, w, x);
    assert t == 4.0 * x;
    QuotientOf(w, m, 0.5);
    QuotientOf(x, t, 0.25);
  }

  lemma QuotientOf(x: real, t: real, q: real)
    requires t > 0.0 && x == q * t
    ensures x / t == q
  {
  }

  lemma PairGain(g: Network, w: real)
    requires Pair(g, w)
    ensures Gain(g, w, w, w) == 0.25 && Gain(g, 0.0, 0.0, w) == 0.0
  {
    Quarter(w, g.twoM, g.twoM * g.twoM, w * w);
  }

  lemma PairStrengths(g: Network, w: real)
    requires Pair(g, w)
    ensures Strengths(g.adj) == [w, w]
  {
    assert Strength([]) == 0.0;
  }

  lemma PairInto(w: real, p: seq<nat>, u: nat, v: nat, c: nat)
    requires |p| == 2 && u < 2 && v == 1 - u
    ensures (forall e :: e in [(v, w)] ==> e.0 < |p|)
    ensures Into([(v, w)], p, u, c) == if p[v] == c then w else 0.0
    ensures Touches([(v, w)], p, u, p[v])
  {
    var row: seq<Entry> := [(v, w)];
    assert row[..0] == [] && (v, w) in row;
    assert Into(row[..0], p, u, c) == 0.0;
  }

  lemma PairSigma(g: Network, w: real, p: seq<nat>, c: nat)
    requires Pair(g, w) && |p| == 2
    ensures Sigma(g, p, c) == (if p[0] == c then w else 0.0) + if p[1] == c then w else 0.0
  {
    PairStrengths(g, w);
    assert Mask([w, w], p, c) == [if p[0] == c then w else 0.0, if p[1] == c then w else 0.0];
    SumTwo(if p[0] == c then w else 0.0, if p[1] == c then w else 0.0);
  }

  /** Apart, either node gains a quarter by joining the other and nothing by staying. */
  lemma PairGains(g: Network, w: real, p: seq<nat>, u: nat, v: nat)
    requires Valid(g) && Pair(g, w) && |p| == 2 && p[0] != p[1] && u < 2 && v == 1 - u
    ensures GainOf(g, p, u, p[v]) == 0.25 && GainOf(g, p, u, p[u]) == 0.0 && Touches(g.adj[u], p, u, p[v])
  {
    PairStrengths(g, w);
    assert Strength(g.adj[u]) == Strengths(g.adj)[u];
    PairInto(w, p, u, v, p[v]);
    PairInto(w, p, u, v, p[u]);
    PairSigma(g, w, p, p[v]);
    PairSigma(g, w, p, p[u]);
    PairGain(g, w);
  }

  lemma ApartAlike(g: Network, p: seq<nat>, q: seq<nat>)
    requires Valid(g) && |p| == |q| == |g.adj| == 2 && p[0] != p[1] && q[0] != q[1]
    ensures Quality(g, p) == Quality(g, q)
  {
    QualityEquivalent(g, p, q);
  }

  lemma NoMovesNoPasses(g: Network, part: seq<nat>, order: seq<nat>, n: nat)
    requires Valid(g) && |part| == |g.adj| && LocalMoves(g, part, order, n) == 0
    ensures LocalPasses(g, part, order, n) == 0
  {
    PassIdleIff(g, part, order);
  }

  /** Apart, the two are not near their best. */
  lemma ApartIsUnsettled(g: Network, w: real, p: seq<nat>)
    requires Valid(g) && Pair(g, w) && |p| == 2 && p[0] != p[1]
    ensures !Settled(g, p)
  {
    PairGains(g, w, p, 0, 1);
    assert !NearBest(g, p, 0);
  }

  lemma NoMovesToApart(g: Network, p: seq<nat>, r: seq<nat>, moves: nat)
    requires Valid(g) && |p| == |r| == |g.adj| == 2 && r[0] != r[1] && Improved(g, p, r, moves)
    ensures moves == 0
  {
    assert r[0] in p && r[1] in p;
    ApartAlike(g, p, r);
    if moves > 0 {
      StepsPositive(2.0 * EPSILON, moves);
    }
  }

  /** Local moving joins the two, wherever it starts. */
  lemma PairMoved(g: Network, w: real, p: seq<nat>, draws: nat -> nat, at: nat)
    requires Valid(g) && Pair(g, w) && |p| == 2
    ensures Leiden.Moved(g, p, draws, at)[0] == Leiden.Moved(g, p, draws, at)[1]
  {
    var r := Leiden.Moved(g, p, draws, at);
    Leiden.IterationLaws(g, p, draws, at);
    if r[0] != r[1] {
      NoMovesToApart(g, p, r, Leiden.Moves(g, p, draws, at));
      NoMovesNoPasses(g, p, OrderOf(|g.adj|, draws, at), MAX_PASSES);
      ApartIsUnsettled(g, w, r);
    }
  }

  lemma PairIsGainful(g: Network, w: real, outer: seq<nat>)
    requires Valid(g) && Pair(g, w) && |outer| == 2 && outer[0] == outer[1]
    ensures SomeGainful(g, outer)
  {
    PairGains(g, w, Singletons(2), 0, 1);
    assert (1, w) in g.adj[0];
    assert Gainful(g, outer, 0, 1);
  }

  lemma PairNetwork(graph: Graph, w: real)
    requires Wired(graph) && |graph.ids| == 2 && graph.edges == [Edge(0, 1, w)] && w > 0.0
    ensures Pair(NetworkOf(graph, 1.0), w)
  {
    var edges := graph.edges;
    assert edges[..0] == [];
    assert RowsOf(2, edges[..0]) == [[], []];
    var none: seq<seq<Entry>> := [[], []];
    assert none[0] + [(1, w)] == [(1, w)] && none[1] + [(0, w)] == [(0, w)];
    assert AddEdge(none, 0, 1, w) == [[(1, w)], [(0, w)]];
    assert RowsOf(2, edges) == AddEdge(none, 0, 1, w);
    assert TotalWeight(edges[..0]) == 0.0;
  }

  /** With at least one iteration, the nodes at the two ends of an edge are one community. */
  lemma PairIsOne(graph: Graph, w: real, maxIterations: nat, minDelta: real, draws: nat -> nat)
    requires |graph.ids| == 2 && graph.edges == [Edge(0, 1, w)] && w > 0.0 && maxIterations > 0
    ensures Wired(graph)
    ensures Found(graph, 1.0, maxIterations, minDelta, draws) == [Community(0, graph.ids, 1.0)]
  {
    var g := NetworkOf(graph, 1.0);
    PairNetwork(graph, w);
    var s := Leiden.StartOf(g, maxIterations, minDelta, draws);
    PairMoved(g, w, s.part, draws, s.at);
    PairIsGainful(g, w, LastMoved(g, maxIterations, minDelta, draws));
    SolvedGroupsIff(g, maxIterations, minDelta, draws);
    LabelsAre(graph, 1.0, maxIterations, minDelta, draws);
    var part := LabelsOf(graph, 1.0, maxIterations, minDelta, draws);
    OneLabel(part);
    CommunitiesThere(graph, part);
    PairFound(graph, w, Found(graph, 1.0, maxIterations, minDelta, draws));
  }

  lemma OneLabel(part: seq<nat>)
    requires |part| == 2 && Canonical(part) && Shared(part)
    ensures part == [0, 0]
  {
    assert part[..1] == [part[0]] && part[..1][..0] == [];
    CanonicalSnoc([], part[0]);
    CanonicalSnoc([part[0]], part[1]);
    assert [] + [part[0]] == [part[0]] && [part[0]] + [part[1]] == part;
  }

  lemma PairFound(graph: Graph, w: real, out: seq<Community>)
    requires Wired(graph) && |graph.ids| == 2 && graph.edges == [Edge(0, 1, w)] && w > 0.0
    requires CommunitiesOf(graph, [0, 0], out)
    ensures out == [Community(0, graph.ids, 1.0)]
  {
    CanonicalSnoc([], 0);
    CanonicalSnoc([0], 0);
    assert [] + [0] == [0] && [0] + [0] == [0, 0];
    assert CommunityOf(graph, [0, 0], 0, out[0]);
    assert [0, 0][..1] == [0] && [0][..0] == [];
    assert Bearers([0], 0) == [0] && Bearers([0, 0], 0) == [0, 1];
    assert Names(graph.ids, [0, 1]) == graph.ids;
    PairNetwork(graph, w);
    PairCohesion(RowsOf(2, graph.edges), w);
  }

  lemma OneEntry(v: nat, w: real, part: seq<nat>, c: nat)
    requires v < |part|
    ensures forall e :: e in [(v, w)] ==> e.0 < |part|
    ensures RowInside([(v, w)], part, c) == (if part[v] == c then w else 0.0) && Strength([(v, w)]) == w
  {
    var row: seq<Entry> := [(v, w)];
    assert row[..0] == [] && RowInside(row[..0], part, c) == 0.0 && Strength(row[..0]) == 0.0;
  }

  lemma PairCohesion(adj: seq<seq<Entry>>, w: real)
    requires adj == [[(1, w)], [(0, w)]] && w > 0.0
    ensures RowsInRange(adj) && Cohesion(adj, [0, 0], [0, 1], 0) == 1.0
  {
    OneEntry(1, w, [0, 0], 0);
    OneEntry(0, w, [0, 0], 0);
    var members: seq<nat> := [0, 1];
    assert members[..1] == [0] && members[..1][..0] == [];
    assert Inside(adj, [0, 0], members[..1], 0) == w && Incident(adj, members[..1]) == w;
    QuotientOf(2.0 * w, 2.0 * w, 1.0);
  }

  // ----- the solver's own modularity -----

  lemma OneRow(g: Network, w: real, part: seq<nat>, u: nat, v: nat)
    requires Pair(g, w) && |part| == 2 && u < 2 && v == 1 - u
    ensures forall e :: e in [(v, w)] ==> e.0 < |part|
    ensures RowQuality(g, [w, w], part, u, [(v, w)]) == if part[0] == part[1] then 0.5 * w else 0.0
  {
    var row: seq<Entry> := [(v, w)];
    assert row[..0] == [];
    assert RowQuality(g, [w, w], part, u, row[..0]) == 0.0;
    PairTerm(g, w);
  }

  lemma PairTerm(g: Network, w: real)
    requires Pair(g, w)
    ensures PairQuality(g, w, w, w) == 0.5 * w
  {
    var x := g.gamma * w * w;
    assert x == w * w;
    assert 0.5 * w * g.twoM == x;
    QuotientOf(x, g.twoM, 0.5 * w);
    TermIs(g, w, x);
  }

  lemma TermIs(g: Network, w: real, x: real)
    requires g.twoM > 0.0 && x == g.gamma * w * w
    ensures PairQuality(g, w, w, w) == w - x / g.twoM
  {
  }

  /** By the solver's own measure the two nodes are worth a half together and nothing apart. */
  lemma PairSolverQuality(g: Network, w: real, part: seq<nat>)
    requires Valid(g) && Pair(g, w) && |part| == 2
    ensures SolverQuality(g, part) == if part[0] == part[1] then 0.5 else 0.0
  {
    PairStrengths(g, w);
    OneRow(g, w, part, 0, 1);
    OneRow(g, w, part, 1, 0);
    var s := [w, w];
    assert AdjacentQuality(g, s, part, 0) == 0.0;
    assert AdjacentQuality(g, s, part, 1) == RowQuality(g, s, part, 0, g.adj[0]);
    assert AdjacentQuality(g, s, part, 2) == AdjacentQuality(g, s, part, 1) + RowQuality(g, s, part, 1, g.adj[1]);
    QuotientOf(w, 2.0 * w, 0.5);
    QuotientOf(0.0, 2.0 * w, 0.0);
  }
}
