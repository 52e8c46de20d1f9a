/** A run of brain/src/cluster_runner.rs in which splitting a community loses a node. */
module ClusterLoss {
  import opened Communities
  import opened ClusterGraph
  import opened ClusterLists
  import opened ClusterSplits
  import opened ClusterRunner

  /** Three edges, of which the solver puts two and one end of the third in one community. */
  const TOP := [Link(1, 2, 1.0), Link(3, 4, 1.0), Link(5, 6, 1.0)]
  const LARGE: seq<NodeId> := [1, 2, 3, 4, 5]
  const SUB := [Link(1, 2, 1.0), Link(3, 4, 1.0)]

  const CONFIG := Config(1.0, 10, 0.0, 0, 0.625, 1, 1.5)

  ghost function Whole(links: seq<Link>): seq<Community> {
    if GraphOf(links).ids == [] then [] else [Community(0, GraphOf(links).ids, 1.0)]
  }

  ghost function TopParts(): seq<Community> {
    [Community(0, LARGE, 1.0), Community(1, [6], 0.0)]
  }

  ghost function SubParts(): seq<Community> {
    [Community(0, [1, 2], 1.0), Community(1, [3, 4], 1.0)]
  }

  /** The trivial solver, except for two lists of edges. */
  ghost function Cases(a: seq<Link>, x: seq<Community>, b: seq<Link>, y: seq<Community>): Solver {
    (cfg: Config, links: seq<Link>) => if links == a then x else if links == b then y else Whole(links)
  }

  ghost function Example(): Solver {
    Cases(TOP, TopParts(), SUB, SubParts())
  }

  lemma SubTouched()
    ensures Touched(SUB) == {1, 2, 3, 4}
  {
    assert SUB[..1] == [Link(1, 2, 1.0)] && SUB[..1][..0] == [];
    assert Touched(SUB[..1]) == {1, 2};
  }

  lemma TopTouched()
    ensures Touched(TOP) == {1, 2, 3, 4, 5, 6} && 5 in Touched(TOP) && |Touched(TOP)| == 6
  {
    SubTouched();
    assert TOP[..2] == SUB;
  }

  lemma TwoHeld(c: Community, d: Community)
    ensures Holdings([c, d]) == multiset(c.members) + multiset(d.members)
  {
    HoldingsOne(c);
    HoldingsSnoc([c], d);
    assert [c] + [d] == [c, d];
  }

  lemma SixHeld()
    ensures multiset(LARGE) + multiset([6]) == multiset({1, 2, 3, 4, 5, 6})
  {
  }

  lemma TopHeld()
    ensures Holdings(TopParts()) == multiset(Touched(TOP)) && AllSane(TopParts())
  {
    TopTouched();
    SixHeld();
    TwoHeld(Community(0, LARGE, 1.0), Community(1, [6], 0.0));
  }

  lemma SubHeld()
    ensures Holdings(SubParts()) == multiset(Touched(SUB)) && AllSane(SubParts())
  {
    SubTouched();
    TwoHeld(Community(0, [1, 2], 1.0), Community(1, [3, 4], 1.0));
  }

  lemma WholeHeld(links: seq<Link>)
    ensures Holdings(Whole(links)) == multiset(Touched(links)) && AllSane(Whole(links))
  {
    GraphIs(links);
    DistinctHeld(GraphOf(links).ids);
    if Whole(links) != [] {
      HoldingsOne(Whole(links)[0]);
    }
  }

  lemma CasesReliable(a: seq<Link>, x: seq<Community>, b: seq<Link>, y: seq<Community>)
    requires Holdings(x) == multiset(Touched(a)) && AllSane(x)
    requires Holdings(y) == multiset(Touched(b)) && AllSane(y)
    ensures Reliable(Cases(a, x, b, y))
  {
    forall cfg, links
      ensures Holdings(Cases(a, x, b, y)(cfg, links)) == multiset(Touched(links))
              && AllSane(Cases(a, x, b, y)(cfg, links))
    {
      WholeHeld(links);
    }
  }

  lemma ExampleIsReliable()
    ensures Reliable(Example())
  {
    TopHeld();
    SubHeld();
    CasesReliable(TOP, TopParts(), SUB, SubParts());
  }

  lemma InducedSnoc(links: seq<Link>, l: Link, members: seq<NodeId>)
    ensures Induced(links + [l], members)
         == Induced(links, members) + if l.a in members && l.b in members then [l] else []
  {
    assert (links + [l])[..|links|] == links;
  }

  lemma LargeIs(n: NodeId)
    ensures n in LARGE <==> 1 <= n <= 5
  {
    assert LARGE[0] == 1 && LARGE[1] == 2 && LARGE[2] == 3 && LARGE[3] == 4 && LARGE[4] == 5;
  }

  lemma InducedFrom(a: Link, b: Link, c: Link, members: seq<NodeId>)
    requires a.a in members && a.b in members && b.a in members && b.b in members && c.b !in members
    ensures Induced([a, b, c], members) == [a, b]
  {
    InducedSnoc([], a, members);
    InducedSnoc([a], b, members);
    InducedSnoc([a, b], c, members);
    assert [] + [a] == [a] && [a] + [b] == [a, b] && [a, b] + [c] == [a, b, c];
  }

  lemma InducedSub()
    ensures Induced(TOP, LARGE) == SUB
  {
    LargeIs(1);
    LargeIs(2);
    LargeIs(3);
    LargeIs(4);
    LargeIs(6);
    InducedFrom(Link(1, 2, 1.0), Link(3, 4, 1.0), Link(5, 6, 1.0), LARGE);
  }

  lemma Splits()
    ensures Splitting(Example(), CONFIG, TOP, 6, Example()(CONFIG, TOP), 0).splits == [Split(LARGE, SUB)]
  {
    var cs := Example()(CONFIG, TOP);
    InducedSub();
    assert Threshold(CONFIG, 6) == 4;
    assert SplitCommunity(Example(), CONFIG, TOP, cs[0], 0).splits == [Split(LARGE, SUB)];
    assert SplitFirst(Example(), CONFIG, TOP, 4, cs, 1, 0).splits == [Split(LARGE, SUB)];
    assert SplitFirst(Example(), CONFIG, TOP, 4, cs, 2, 0).splits == [Split(LARGE, SUB)];
  }

  lemma FifthLost()
    ensures Lost([Split(LARGE, SUB)])[5] == 1 && !AllTouched([Split(LARGE, SUB)])
  {
    SubTouched();
    LostSnoc([], Split(LARGE, SUB));
    assert [] + [Split(LARGE, SUB)] == [Split(LARGE, SUB)];
    assert LARGE[4] == 5;
    assert 5 in Members(LARGE) && Split(LARGE, SUB) in [Split(LARGE, SUB)];
  }

  lemma HeldNowhere(cs: seq<Community>, n: NodeId)
    requires Holdings(cs)[n] == 0
    ensures HeldByNone(cs, n)
  {
    forall c | c in cs
      ensures n !in c.members
    {
      HeldByOne(cs, c);
      assert multiset(c.members)[n] == 0;
    }
  }

  ghost predicate HeldByNone(cs: seq<Community>, n: NodeId) {
    forall c :: c in cs ==> n !in c.members
  }

  /** A node that a split of the run loses is in no community. */
  lemma LostForGood(solve: Solver, cfg: Config, links: seq<Link>, totalNodes: nat, splits: seq<Split>, n: NodeId)
    requires Reliable(solve) && Lost(splits)[n] > 0
    requires Splitting(solve, cfg, links, totalNodes, solve(cfg, links), 0).splits == splits
    ensures HeldByNone(Splitting(solve, cfg, links, totalNodes, solve(cfg, links), 0).communities, n)
  {
    RunAccounts(solve, cfg, links, totalNodes);
    var o := Splitting(solve, cfg, links, totalNodes, solve(cfg, links), 0);
    assert (Holdings(o.communities) + Lost(o.splits))[n] <= 1;
    HeldNowhere(o.communities, n);
  }

  ghost function ExampleRun(): Outcome {
    Splitting(Example(), CONFIG, TOP, 6, Example()(CONFIG, TOP), 0)
  }

  lemma ExampleLoses()
    ensures HeldByNone(ExampleRun().communities, 5)
  {
    ExampleIsReliable();
    Splits();
    FifthLost();
    LostForGood(Example(), CONFIG, TOP, 6, [Split(LARGE, SUB)], 5);
  }

  lemma ExampleSplits()
    ensures ExampleRun().splits == [Split(LARGE, SUB)] && !AllTouched(ExampleRun().splits)
  {
    Splits();
    FifthLost();
  }

  /** Six nodes, each touched by an edge and put in one community by the solver: the fifth is lost, because its only
      neighbour is in the other community when its own is split. */
  lemma NodeCanBeLost()
    ensures Reliable(Example()) && 5 in Touched(TOP) && |Touched(TOP)| == 6
    ensures ExampleRun().splits == [Split(LARGE, SUB)] && !AllTouched(ExampleRun().splits)
    ensures HeldByNone(ExampleRun().communities, 5)
  {
    TopTouched();
    ExampleIsReliable();
    ExampleSplits();
    ExampleLoses();
  }
}
