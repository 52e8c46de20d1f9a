/** A graph on which a refinement move of brain/src/leiden.rs lowers the modularity. */
module RefinementLoss {
  import opened Modularity
  import opened Folds
  import opened LocalMoving
  import opened Refinement
  import opened Communities

  /** The next 32-bit float after 1: 1 + 2^-23. */
  const HEAVY: real := 1.00000011920928955078125

  /** 2^20. */
  const HUGE: real := 1048576.0

  /** Node 2 between nodes 0 and 1, a little closer to node 1, and a heavy pair that makes both gains small. */
  function Example(): Graph {
    Graph([10, 11, 12, 13, 14], [Edge(0, 2, 1.0), Edge(1, 2, HEAVY), Edge(3, 4, HUGE)])
  }

  function ExampleRows(): seq<seq<Entry>> {
    [[(2, 1.0)], [(2, HEAVY)], [(0, 1.0), (1, HEAVY)], [(4, HUGE)], [(3, HUGE)]]
  }

  lemma AddsEdge(adj: seq<seq<Entry>>, a: nat, b: nat, w: real, more: seq<seq<Entry>>)
    requires |adj| == |more| == 5 && a < b < 5
    requires more[a] == adj[a] + [(b, w)] && more[b] == adj[b] + [(a, w)]
    requires forall i :: 0 <= i < 5 && i != a && i != b ==> more[i] == adj[i]
    ensures AddEdge(adj, a, b, w) == more
  {
  }

  lemma RowsAre()
    ensures Wired(Example()) && RowsOf(5, Example().edges) == ExampleRows()
    ensures TotalWeight(Example().edges) == 1.0 + HEAVY + HUGE
  {
    var none: seq<Edge> := [];
    var one := [Edge(0, 2, 1.0)];
    var two := [Edge(0, 2, 1.0), Edge(1, 2, HEAVY)];
    assert one[..0] == none && two[..1] == one && Example().edges[..2] == two;
    var r0: seq<seq<Entry>> := [[], [], [], [], []];
    var r1: seq<seq<Entry>> := [[(2, 1.0)], [], [(0, 1.0)], [], []];
    var r2: seq<seq<Entry>> := [[(2, 1.0)], [(2, HEAVY)], [(0, 1.0), (1, HEAVY)], [], []];
    assert RowsOf(5, none) == r0;
    AddsEdge(r0, 0, 2, 1.0, r1);
    assert RowsOf(5, one) == r1;
    AddsEdge(r1, 1, 2, HEAVY, r2);
    assert RowsOf(5, two) == r2;
    AddsEdge(r2, 3, 4, HUGE, ExampleRows());
    assert TotalWeight(none) == 0.0 && TotalWeight(one) == 1.0 && TotalWeight(two) == 1.0 + HEAVY;
  }

  const TWO_M: real := 2.0 * (1.0 + HEAVY + HUGE)

  /** What the solver makes of it at resolution 0. */
  ghost function ExampleNetwork(): (g: Network)
    ensures Valid(g) && Positive(g) && g.twoM == TWO_M && g.gamma == 0.0 && g.adj == ExampleRows()
  {
    RowsAre();
    NetworkOf(Example(), 0.0)
  }

  lemma GainAtZero(g: Network, k: real, st: real, su: real)
    requires g.twoM > 0.0 && g.gamma == 0.0
    ensures Gain(g, k, st, su) == k / g.twoM
  {
    var t := SquareOf(g.twoM);
    assert g.gamma * st * su == 0.0;
  }

  /** Without a null model, the gain is a share of the weight. */
  lemma ExampleGain(part: seq<nat>, u: nat, c: nat)
    requires |part| == 5 && u < 5
    ensures GainOf(ExampleNetwork(), part, u, c) == Into(ExampleNetwork().adj[u], part, u, c) / TWO_M
  {
    var g := ExampleNetwork();
    var su := Strength(g.adj[u]);
    GainAtZero(g, Into(g.adj[u], part, u, c), Sigma(g, part, c) - if part[u] == c then su else 0.0, su);
  }

  lemma IntoOne(e: Entry, part: seq<nat>, u: nat, c: nat)
    requires e.0 < |part|
    ensures Into([e], part, u, c) == if e.0 != u && part[e.0] == c then e.1 else 0.0
  {
    assert [e][..0] == [];
    assert Into([], part, u, c) == 0.0;
  }

  lemma IntoTwo(e: Entry, f: Entry, part: seq<nat>, u: nat, c: nat)
    requires e.0 < |part| && f.0 < |part|
    ensures Into([e, f], part, u, c)
         == (if e.0 != u && part[e.0] == c then e.1 else 0.0) + if f.0 != u && part[f.0] == c then f.1 else 0.0
  {
    IntoOne(e, part, u, c);
    assert [e, f][..1] == [e];
  }

  lemma ListedOne(a: nat)
    ensures Listed({a}) == [a]
  {
    assert {a} - {a} == {};
    assert Listed({}) == [];
  }

  lemma ListedTwo(a: nat, b: nat)
    requires a < b
    ensures Listed({a, b}) == [a, b]
  {
    assert Least({a, b}) == a && {a, b} - {a} == {b};
    ListedOne(b);
  }

  lemma ScanOne(a: nat, f: nat -> real, cu: nat)
    ensures Scan([a], f, cu) == if f(a) > EPSILON then Choice(a, f(a)) else Choice(cu, 0.0)
  {
    assert [a][..0] == [];
    assert Scan([], f, cu) == Choice(cu, 0.0);
  }

  lemma ScanTwo(a: nat, b: nat, f: nat -> real, cu: nat)
    requires f(a) > EPSILON && f(b) <= f(a) + EPSILON
    ensures Scan([a, b], f, cu) == Choice(a, f(a))
  {
    ScanOne(a, f, cu);
    assert [a, b][..1] == [a];
  }

  /** Both gains are above the tolerance, and closer to each other than it. */
  lemma Shares()
    ensures EPSILON < 1.0 / TWO_M < HEAVY / TWO_M <= 1.0 / TWO_M + EPSILON
  {
  }

  /** The path and the pair, each a community. */
  const OUTER: seq<nat> := [0, 0, 0, 3, 3]

  /** Node 1, visited first, joins node 2. */
  lemma FirstVisit()
    ensures Rehomed(ExampleNetwork(), OUTER, [0, 1, 2, 3, 4], 1) == [0, 2, 2, 3, 4]
  {
    var g, p := ExampleNetwork(), [0, 1, 2, 3, 4];
    var row := g.adj[1];
    assert (2, HEAVY) in row && Touches(row, p, 1, 2);
    assert InsideLabels(row, OUTER, p, 1) == {2};
    ListedOne(2);
    ExampleGain(p, 1, 2);
    IntoOne((2, HEAVY), p, 1, 2);
    Shares();
    ScanOne(2, Gains(g, p, 1), 1);
  }

  /** Node 2, visited next, leaves node 1 for node 0, where it gains less. */
  lemma SecondVisit()
    ensures Rehomed(ExampleNetwork(), OUTER, [0, 2, 2, 3, 4], 2) == [0, 2, 0, 3, 4]
    ensures GainOf(ExampleNetwork(), [0, 2, 2, 3, 4], 2, 0) < GainOf(ExampleNetwork(), [0, 2, 2, 3, 4], 2, 2)
  {
    var g, p := ExampleNetwork(), [0, 2, 2, 3, 4];
    var row := g.adj[2];
    assert (0, 1.0) in row && Touches(row, p, 2, 0);
    assert (1, HEAVY) in row && Touches(row, p, 2, 2);
    assert InsideLabels(row, OUTER, p, 2) == {0, 2};
    ListedTwo(0, 2);
    ExampleGain(p, 2, 0);
    ExampleGain(p, 2, 2);
    IntoTwo((0, 1.0), (1, HEAVY), p, 2, 0);
    IntoTwo((0, 1.0), (1, HEAVY), p, 2, 2);
    Shares();
    ScanTwo(0, 2, Gains(g, p, 2), 2);
  }

  /** Refining in the order 1, 2, 0, 3, 4 lowers the modularity with its second visit. */
  lemma RefinementCanLose()
    ensures
      var g := ExampleNetwork();
      var visit, order := RehomeOf(g, OUTER), [1, 2, 0, 3, 4];
      && Folded(visit, Singletons(5), order, 1) == [0, 2, 2, 3, 4]
      && Folded(visit, Singletons(5), order, 2) == [0, 2, 0, 3, 4]
      && Quality(g, [0, 2, 0, 3, 4]) < Quality(g, [0, 2, 2, 3, 4])
  {
    var g := ExampleNetwork();
    assert Singletons(5) == [0, 1, 2, 3, 4];
    FirstVisit();
    SecondVisit();
    LosesWith(g);
    assert Folded(RehomeOf(g, OUTER), Singletons(5), [1, 2, 0, 3, 4], 0) == [0, 1, 2, 3, 4];
  }

  lemma LosesWith(g: Network)
    requires g == ExampleNetwork()
    ensures Quality(g, [0, 2, 0, 3, 4]) < Quality(g, [0, 2, 2, 3, 4])
  {
    SecondVisit();
    assert Rooted([0, 2, 2, 3, 4], OUTER);
    RehomedChanges(g, OUTER, [0, 2, 2, 3, 4], 2);
  }
}
