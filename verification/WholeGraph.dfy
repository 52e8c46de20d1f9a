/** The modularity of a graph taken as one community. */
module WholeGraph {
  import opened Sums
  import opened Modularity
  import opened Communities

  /** The summed strength of all nodes. */
  ghost function TotalStrength(adj: seq<seq<Entry>>): real {
    Sum(Strengths(adj))
  }

  lemma {:induction false} WeightsSum(row: seq<Entry>, n: nat)
    requires forall e :: e in row ==> e.0 < n
    ensures Sum(Weights(row, n)) == Strength(row)
  {
    if row == [] {
      SumZeros(Weights(row, n));
    } else {
      var init, e := row[..|row| - 1], row[|row| - 1];
      assert e in row && row == init + [e];
      WeightsSum(init, n);
      WeightsSnoc(init, e, n);
      SumUpdate(Weights(init, n), e.0, Weights(init, n)[e.0] + e.1);
    }
  }

  ghost function Zeros(n: nat): (z: seq<nat>)
    ensures |z| == n && forall i :: 0 <= i < n ==> z[i] == 0
  {
    seq(n, i => 0)
  }

  /** With everyone in one community, a node is pulled by its whole strength, less what chance gives. */
  lemma WholePull(g: Network, u: nat)
    requires Valid(g) && u < |g.adj|
    ensures Pull(g, Zeros(|g.adj|), u, 0) == Gain(g, Strength(g.adj[u]), TotalStrength(g.adj), Strength(g.adj[u]))
  {
    var n := |g.adj|;
    var w, s := Weights(g.adj[u], n), Strengths(g.adj);
    assert Mask(Bonds(g, u), Zeros(n), 0) == Bonds(g, u);
    GainSums(g, w, s, Bonds(g, u), Strength(g.adj[u]));
    WeightsSum(g.adj[u], n);
  }

  lemma Distributes(c: real, a: real, b: real)
    ensures c * (a + b) == c * a + c * b && c * 0.0 == 0.0
  {
  }

  lemma GainsAdd(g: Network, k: real, a: real, b: real)
    requires g.twoM > 0.0
    ensures Gain(g, a, k, a) + Gain(g, b, k, b) == Gain(g, a + b, k, a + b)
    ensures Gain(g, 0.0, k, 0.0) == 0.0
  {
    var t := SquareOf(g.twoM);
    var c := g.gamma * k;
    Distributes(c, a, b);
    DivideSum(a, b, g.twoM);
    DivideSum(c * a, c * b, t);
  }

  lemma {:induction false} PartsSum(g: Network, s: seq<real>, k: real, p: seq<real>)
    requires g.twoM > 0.0 && |s| == |p| && forall u :: 0 <= u < |p| ==> p[u] == Gain(g, s[u], k, s[u])
    ensures Sum(p) == Gain(g, Sum(s), k, Sum(s))
  {
    if p == [] {
      GainsAdd(g, k, 0.0, 0.0);
    } else {
      var n := |p| - 1;
      PartsSum(g, s[..n], k, p[..n]);
      GainsAdd(g, k, Sum(s[..n]), s[n]);
    }
  }

  lemma WholeQuality(g: Network)
    requires Valid(g)
    ensures
      var k := TotalStrength(g.adj);
      Quality(g, Zeros(|g.adj|)) == Gain(g, k, k, k)
  {
    var n := |g.adj|;
    var s, p := Strengths(g.adj), Pulls(g, Zeros(n));
    forall u: nat | u < n
      ensures p[u] == Gain(g, s[u], TotalStrength(g.adj), s[u])
    {
      WholePull(g, u);
    }
    PartsSum(g, s, TotalStrength(g.adj), p);
  }

  // ----- every edge has two ends -----

  ghost predicate LoopFree(edges: seq<Edge>) {
    forall i :: 0 <= i < |edges| ==> edges[i].a != edges[i].b
  }

  lemma PushStrength(adj: seq<seq<Entry>>, a: nat, e: Entry)
    requires a < |adj|
    ensures TotalStrength(adj[a := adj[a] + [e]]) == TotalStrength(adj) + e.1
  {
    assert (adj[a] + [e])[..|adj[a]|] == adj[a];
    assert Strengths(adj[a := adj[a] + [e]]) == Strengths(adj)[a := Strength(adj[a]) + e.1];
    SumUpdate(Strengths(adj), a, Strength(adj[a]) + e.1);
  }

  /** Without self-loops the strengths add up to twice the weight of the edges. */
  lemma {:induction false} TwoEnds(n: nat, edges: seq<Edge>)
    requires EdgesWithin(edges, n) && LoopFree(edges)
    ensures TotalStrength(RowsOf(n, edges)) == 2.0 * TotalWeight(edges)
  {
    if edges == [] {
      SumZeros(Strengths(RowsOf(n, edges)));
    } else {
      var init, e := edges[..|edges| - 1], edges[|edges| - 1];
      TwoEnds(n, init);
      if e.w > 0.0 {
        var adj := RowsOf(n, init);
        PushStrength(adj, e.a, (e.b, e.w));
        PushStrength(adj[e.a := adj[e.a] + [(e.b, e.w)]], e.b, (e.a, e.w));
      }
    }
  }

  lemma Regrouped(a: real, b: real, c: real)
    ensures a * b * c == a * (b * c)
  {
  }

  lemma QuotientIs(x: real, t: real, q: real)
    requires t > 0.0 && x == q * t
    ensures x / t == q
  {
  }

  lemma GainAt(g: Network, t: real, x: real)
    requires g.twoM > 0.0 && t == g.twoM * g.twoM && t > 0.0 && x == g.gamma * g.twoM * g.twoM && x / t == g.gamma
    ensures Gain(g, g.twoM, g.twoM, g.twoM) == 1.0 - g.gamma
  {
    assert g.twoM / g.twoM == 1.0;
    assert Gain(g, g.twoM, g.twoM, g.twoM) == g.twoM / g.twoM - g.gamma * g.twoM * g.twoM / t;
  }

  lemma WholeGain(g: Network)
    requires g.twoM > 0.0
    ensures Gain(g, g.twoM, g.twoM, g.twoM) == 1.0 - g.gamma
  {
    var t := SquareOf(g.twoM);
    var x := g.gamma * g.twoM * g.twoM;
    Regrouped(g.gamma, g.twoM, g.twoM);
    QuotientIs(x, t, g.gamma);
    GainAt(g, t, x);
  }

  /** A graph without self-loops has modularity one less the resolution as one community. */
  lemma OneCommunity(graph: Graph, resolution: real)
    requires Wired(graph) && LoopFree(graph.edges) && TotalWeight(graph.edges) > 0.0
    ensures Quality(NetworkOf(graph, resolution), Zeros(|graph.ids|)) == 1.0 - resolution
  {
    var g := NetworkOf(graph, resolution);
    WholeQuality(g);
    TwoEnds(|graph.ids|, graph.edges);
    WholeGain(g);
  }

  // ----- the weight between two nodes -----

  /** The summed positive weight of the edges between two nodes. */
  ghost function Between(edges: seq<Edge>, u: nat, v: nat): real {
    if edges == [] then 0.0
    else
      var e := edges[|edges| - 1];
      Between(edges[..|edges| - 1], u, v)
      + if e.w > 0.0 && ((e.a == u && e.b == v) || (e.a == v && e.b == u)) then e.w else 0.0
  }

  /** The rows hold between any two nodes exactly the weight of the edges between them. */
  lemma {:induction false} RowsWeigh(n: nat, edges: seq<Edge>, u: nat, v: nat)
    requires EdgesWithin(edges, n) && u < n && v < n
    ensures RowsInRange(RowsOf(n, edges)) && Weights(RowsOf(n, edges)[u], n)[v] == Between(edges, u, v)
  {
    RowsSymmetric(n, edges);
    if edges != [] {
      var init, e := edges[..|edges| - 1], edges[|edges| - 1];
      RowsWeigh(n, init, u, v);
      if e.w > 0.0 {
        AddEdgeWeights(RowsOf(n, init), e.a, e.b, e.w, u, v);
      }
    }
  }
}
