/** When the solver of brain/src/leiden.rs puts two nodes in one community. */
module Grouping {
  import opened Modularity
  import opened LocalMoving
  import opened Labels
  import opened RefinementMoves
  import opened Communities
  import Leiden

  /** What the last local moving of the solver found. */
  ghost function LastMoved(g: Network, maxIterations: nat, minDelta: real, draws: nat -> nat): (r: seq<nat>)
    requires Valid(g) && maxIterations > 0
    ensures |r| == |g.adj|
  {
    var s := Leiden.StartOf(g, maxIterations, minDelta, draws);
    Leiden.Moved(g, s.part, draws, s.at)
  }

  /** The solver puts two nodes in one community if and only if some edge inside what its last local moving found
      would let a node that is alone gain. */
  lemma SolvedGroupsIff(g: Network, maxIterations: nat, minDelta: real, draws: nat -> nat)
    requires Valid(g) && maxIterations > 0
    ensures
      var part := Leiden.Solved(g, maxIterations, minDelta, draws);
      Shared(part) <==> SomeGainful(g, LastMoved(g, maxIterations, minDelta, draws))
  {
    var s := Leiden.StartOf(g, maxIterations, minDelta, draws);
    Leiden.SolvedIsIteration(g, maxIterations, minDelta, draws);
    OrderIsOrder(|g.adj|, draws, AfterShuffle(|g.adj|, s.at));
    RefinementMovesIff(g, LastMoved(g, maxIterations, minDelta, draws),
                       OrderOf(|g.adj|, draws, AfterShuffle(|g.adj|, s.at)));
  }

  ghost predicate Grouped(out: seq<Community>) {
    exists c :: 0 <= c < |out| && |out[c].members| >= 2
  }

  lemma TwoBearers(part: seq<nat>, c: nat)
    ensures |Bearers(part, c)| >= 2 <==> exists v, w :: 0 <= v < w < |part| && part[v] == part[w] == c
  {
    BearersAre(part, c);
    var b := Bearers(part, c);
    if v, w :| 0 <= v < w < |part| && part[v] == part[w] == c {
      assert v in b && w in b;
      var i :| 0 <= i < |b| && b[i] == v;
      var j :| 0 <= j < |b| && b[j] == w;
      assert i != j;
    }
    if |b| >= 2 {
      assert b[0] in b && b[1] in b && b[0] < b[1];
      assert part[b[0]] == part[b[1]] == c;
    }
  }

  lemma SharedIsGrouped(graph: Graph, part: seq<nat>, out: seq<Community>)
    requires Wired(graph) && |part| == |graph.ids| && Canonical(part) && CommunitiesOf(graph, part, out)
    ensures Grouped(out) <==> Shared(part)
  {
    if Shared(part) {
      var v, w :| 0 <= v < w < |part| && part[v] == part[w];
      var c := part[v];
      CanonicalDense(part);
      assert c in part && CommunityOf(graph, part, c, out[c]);
      TwoBearers(part, c);
    }
    if Grouped(out) {
      var c: nat :| c < |out| && |out[c].members| >= 2;
      assert CommunityOf(graph, part, c, out[c]);
      TwoBearers(part, c);
    }
  }

  /** Some community has two members if and only if such an edge is there. */
  lemma RunGroupsIff(graph: Graph, resolution: real, maxIterations: nat, minDelta: real, draws: nat -> nat)
    requires Wired(graph) && maxIterations > 0
    ensures Grouped(Found(graph, resolution, maxIterations, minDelta, draws))
       <==> SomeGainful(NetworkOf(graph, resolution),
                        LastMoved(NetworkOf(graph, resolution), maxIterations, minDelta, draws))
  {
    var g := NetworkOf(graph, resolution);
    LabelsAre(graph, resolution, maxIterations, minDelta, draws);
    var part := LabelsOf(graph, resolution, maxIterations, minDelta, draws);
    CommunitiesThere(graph, part);
    SharedIsGrouped(graph, part, Found(graph, resolution, maxIterations, minDelta, draws));
    SolvedGroupsIff(g, maxIterations, minDelta, draws);
  }
}
