/** `LeidenSolver::run` of brain/src/leiden.rs: from a weighted graph to a list of communities. */
module Communities {
  import opened Sequences
  import opened Modularity
  import opened LocalMoving
  import opened Labels
  import Refinement
  import Leiden

  type NodeId = nat

  datatype Edge = Edge(a: nat, b: nat, w: real)

  /** An undirected graph: the node at each index, and edges between indices. */
  datatype Graph = Graph(ids: seq<NodeId>, edges: seq<Edge>)

  ghost predicate EdgesWithin(edges: seq<Edge>, n: nat) {
    forall i :: 0 <= i < |edges| ==> edges[i].a < n && edges[i].b < n
  }

  ghost predicate Wired(graph: Graph) {
    EdgesWithin(graph.edges, |graph.ids|)
  }

  ghost predicate WellFormed(graph: Graph) {
    |graph.ids| <= Leiden.USIZE_MAX && Wired(graph)
  }

  datatype Community = Community(id: nat, members: seq<NodeId>, cohesion: real)

  // ----- adjacency rows -----

  ghost predicate PositiveRows(adj: seq<seq<Entry>>) {
    forall u, e :: 0 <= u < |adj| && e in adj[u] ==> e.1 > 0.0
  }

  lemma WeightsSnoc(row: seq<Entry>, e: Entry, n: nat)
    requires (forall f :: f in row ==> f.0 < n) && e.0 < n
    ensures forall f :: f in row + [e] ==> f.0 < n
    ensures Weights(row + [e], n) == Weights(row, n)[e.0 := Weights(row, n)[e.0] + e.1]
  {
    assert (row + [e])[..|row|] == row;
  }

  /** The rows after an edge between `a` and `b`; a self-loop is entered once. */
  function AddEdge(adj: seq<seq<Entry>>, a: nat, b: nat, w: real): (r: seq<seq<Entry>>)
    requires a < |adj| && b < |adj|
    ensures |r| == |adj|
  {
    var one := adj[a := adj[a] + [(b, w)]];
    if a != b then one[b := one[b] + [(a, w)]] else one
  }

  lemma PushEntry(adj: seq<seq<Entry>>, a: nat, e: Entry)
    requires RowsInRange(adj) && a < |adj| && e.0 < |adj|
    ensures RowsInRange(adj[a := adj[a] + [e]])
  {
    WeightsSnoc(adj[a], e, |adj|);
  }

  lemma PushWeights(adj: seq<seq<Entry>>, a: nat, e: Entry, u: nat, v: nat)
    requires a < |adj| && e.0 < |adj| && u < |adj| && v < |adj|
    requires RowsInRange(adj) && RowsInRange(adj[a := adj[a] + [e]])
    ensures Weights(adj[a := adj[a] + [e]][u], |adj|)[v] ==
            Weights(adj[u], |adj|)[v] + if u == a && v == e.0 then e.1 else 0.0
  {
    if u == a {
      WeightsSnoc(adj[a], e, |adj|);
    }
  }

  lemma AddEdgeInRange(adj: seq<seq<Entry>>, a: nat, b: nat, w: real)
    requires RowsInRange(adj) && a < |adj| && b < |adj|
    ensures RowsInRange(AddEdge(adj, a, b, w))
  {
    PushEntry(adj, a, (b, w));
    if a != b {
      PushEntry(adj[a := adj[a] + [(b, w)]], b, (a, w));
    }
  }

  lemma AddEdgeWeights(adj: seq<seq<Entry>>, a: nat, b: nat, w: real, u: nat, v: nat)
    requires RowsInRange(adj) && a < |adj| && b < |adj| && u < |adj| && v < |adj|
    requires RowsInRange(AddEdge(adj, a, b, w))
    ensures Weights(AddEdge(adj, a, b, w)[u], |adj|)[v] ==
            Weights(adj[u], |adj|)[v] + if (u == a && v == b) || (u == b && v == a) then w else 0.0
  {
    PushEntry(adj, a, (b, w));
    PushWeights(adj, a, (b, w), u, v);
    if a != b {
      PushWeights(adj[a := adj[a] + [(b, w)]], b, (a, w), u, v);
    }
  }

  lemma AddEdgeKeeps(adj: seq<seq<Entry>>, a: nat, b: nat, w: real)
    requires Symmetric(adj) && PositiveRows(adj) && a < |adj| && b < |adj| && w > 0.0
    ensures Symmetric(AddEdge(adj, a, b, w)) && PositiveRows(AddEdge(adj, a, b, w))
  {
    var more := AddEdge(adj, a, b, w);
    AddEdgeInRange(adj, a, b, w);
    forall u, v | 0 <= u < |adj| && 0 <= v < |adj|
      ensures Weights(more[u], |adj|)[v] == Weights(more[v], |adj|)[u]
    {
      AddEdgeWeights(adj, a, b, w, u, v);
      AddEdgeWeights(adj, a, b, w, v, u);
    }
  }

  /** The adjacency rows of `n` nodes; edges of no weight are dropped. */
  ghost function RowsOf(n: nat, edges: seq<Edge>): (adj: seq<seq<Entry>>)
    requires EdgesWithin(edges, n)
    ensures |adj| == n
  {
    if edges == [] then seq(n, i => [])
    else
      var adj, e := RowsOf(n, edges[..|edges| - 1]), edges[|edges| - 1];
      if e.w <= 0.0 then adj else AddEdge(adj, e.a, e.b, e.w)
  }

  /** Adjacency rows come out symmetric and positive. */
  lemma {:induction false} RowsSymmetric(n: nat, edges: seq<Edge>)
    requires EdgesWithin(edges, n)
    ensures Symmetric(RowsOf(n, edges)) && PositiveRows(RowsOf(n, edges))
  {
    if edges != [] {
      var init, e := edges[..|edges| - 1], edges[|edges| - 1];
      RowsSymmetric(n, init);
      if e.w > 0.0 {
        AddEdgeKeeps(RowsOf(n, init), e.a, e.b, e.w);
      }
    }
  }

  /** The summed weight of the edges that count. */
  ghost function TotalWeight(edges: seq<Edge>): (t: real)
    ensures t >= 0.0
  {
    if edges == [] then 0.0
    else
      var e := edges[|edges| - 1];
      TotalWeight(edges[..|edges| - 1]) + if e.w <= 0.0 then 0.0 else e.w
  }

  method BuildRows(graph: Graph) returns (adj: seq<seq<Entry>>, totalWeight: real)
    requires WellFormed(graph)
    ensures adj == RowsOf(|graph.ids|, graph.edges) && totalWeight == TotalWeight(graph.edges)
  {
    ghost var n := |graph.ids|;
    adj, totalWeight := seq(|graph.ids|, i => []), 0.0;
    for k := 0 to |graph.edges|
      invariant adj == RowsOf(n, graph.edges[..k]) && totalWeight == TotalWeight(graph.edges[..k])
    {
      var e := graph.edges[k];
      assert graph.edges[..k + 1][..k] == graph.edges[..k];
      if e.w <= 0.0 {
        continue;
      }
      adj := AddEdge(adj, e.a, e.b, e.w);
      totalWeight := totalWeight + e.w;
    }
    assert graph.edges[..|graph.edges|] == graph.edges;
  }

  method RowStrengths(adj: seq<seq<Entry>>) returns (strength: seq<real>)
    ensures strength == Strengths(adj)
  {
    strength := [];
    for u := 0 to |adj|
      invariant |strength| == u && forall i :: 0 <= i < u ==> strength[i] == Strength(adj[i])
    {
      var s, row := 0.0, adj[u];
      for k := 0 to |row|
        invariant s == Strength(row[..k])
      {
        assert row[..k + 1][..k] == row[..k];
        s := s + row[k].1;
      }
      assert row[..|row|] == row;
      strength := strength + [s];
    }
  }

  // ----- buckets and cohesion -----

  /** The nodes labelled `c`, in ascending order. */
  ghost function Bearers(part: seq<nat>, c: nat): seq<nat> {
    if part == [] then []
    else
      var n := |part| - 1;
      Bearers(part[..n], c) + if part[n] == c then [n] else []
  }

  lemma {:induction false} BearersAre(part: seq<nat>, c: nat)
    ensures forall i :: i in Bearers(part, c) <==> 0 <= i < |part| && part[i] == c
    ensures Ascending(Bearers(part, c))
  {
    if part != [] {
      var init := Bearers(part[..|part| - 1], c);
      BearersAre(part[..|part| - 1], c);
      assert forall k :: 0 <= k < |init| ==> init[k] in init;
    }
  }

  ghost predicate Bucketed(part: seq<nat>, buckets: map<nat, seq<nat>>) {
    forall c: nat :: (c in buckets <==> c in part) && (c in buckets ==> buckets[c] == Bearers(part, c))
  }

  lemma {:induction false} NoBearers(part: seq<nat>, c: nat)
    requires c !in part
    ensures Bearers(part, c) == []
  {
    if part != [] {
      assert part[|part| - 1] in part;
      NoBearers(part[..|part| - 1], c);
    }
  }

  lemma BucketedSnoc(part: seq<nat>, x: nat, buckets: map<nat, seq<nat>>)
    requires Bucketed(part, buckets)
    ensures Bucketed(part + [x], buckets[x := (if x in buckets then buckets[x] else []) + [|part|]])
  {
    var more := buckets[x := (if x in buckets then buckets[x] else []) + [|part|]];
    assert (part + [x])[..|part|] == part;
    forall c: nat
      ensures (c in more <==> c in part + [x]) && (c in more ==> more[c] == Bearers(part + [x], c))
    {
      if c == x && x !in buckets {
        NoBearers(part, x);
      }
    }
  }

  method Buckets(partition: array<nat>) returns (buckets: map<nat, seq<nat>>)
    ensures Bucketed(partition[..], buckets)
  {
    buckets := map[];
    for node := 0 to partition.Length
      invariant Bucketed(partition[..node], buckets)
    {
      var c := partition[node];
      assert partition[..node + 1] == partition[..node] + [c];
      BucketedSnoc(partition[..node], c, buckets);
      buckets := buckets[c := (if c in buckets then buckets[c] else []) + [node]];
    }
    assert partition[..partition.Length] == partition[..];
  }

  /** Weight of the entries of `row` that stay in community `c`. */
  ghost function RowInside(row: seq<Entry>, part: seq<nat>, c: nat): real
    requires forall e :: e in row ==> e.0 < |part|
  {
    if row == [] then 0.0
    else
      var (v, w) := row[|row| - 1];
      assert row[|row| - 1] in row;
      RowInside(row[..|row| - 1], part, c) + if part[v] == c then w else 0.0
  }

  ghost function Incident(adj: seq<seq<Entry>>, members: seq<nat>): real
    requires Within(members, |adj|)
  {
    if members == [] then 0.0
    else Incident(adj, members[..|members| - 1]) + Strength(adj[members[|members| - 1]])
  }

  ghost function Inside(adj: seq<seq<Entry>>, part: seq<nat>, members: seq<nat>, c: nat): real
    requires RowsInRange(adj) && |part| == |adj| && Within(members, |adj|)
  {
    if members == [] then 0.0
    else Inside(adj, part, members[..|members| - 1], c) + RowInside(adj[members[|members| - 1]], part, c)
  }

  /** The fraction of the weight at a community's nodes that stays inside it. */
  ghost function Cohesion(adj: seq<seq<Entry>>, part: seq<nat>, members: seq<nat>, c: nat): real
    requires RowsInRange(adj) && |part| == |adj| && Within(members, |adj|)
  {
    if Incident(adj, members) > 0.0 then Inside(adj, part, members, c) / Incident(adj, members) else 1.0
  }

  lemma {:induction false} RowInsideBounded(row: seq<Entry>, part: seq<nat>, c: nat)
    requires forall e :: e in row ==> e.0 < |part| && e.1 > 0.0
    ensures 0.0 <= RowInside(row, part, c) <= Strength(row)
  {
    if row != [] {
      assert row[|row| - 1] in row;
      RowInsideBounded(row[..|row| - 1], part, c);
    }
  }

  lemma {:induction false} InsideBounded(adj: seq<seq<Entry>>, part: seq<nat>, members: seq<nat>, c: nat)
    requires RowsInRange(adj) && PositiveRows(adj) && |part| == |adj| && Within(members, |adj|)
    ensures 0.0 <= Inside(adj, part, members, c) <= Incident(adj, members)
  {
    if members != [] {
      InsideBounded(adj, part, members[..|members| - 1], c);
      RowInsideBounded(adj[members[|members| - 1]], part, c);
    }
  }

  lemma CohesionInRange(adj: seq<seq<Entry>>, part: seq<nat>, members: seq<nat>, c: nat)
    requires RowsInRange(adj) && PositiveRows(adj) && |part| == |adj| && Within(members, |adj|)
    ensures 0.0 <= Cohesion(adj, part, members, c) <= 1.0
  {
    InsideBounded(adj, part, members, c);
    if Incident(adj, members) > 0.0 {
      FractionInRange(Inside(adj, part, members, c), Incident(adj, members));
    }
  }

  lemma FractionInRange(x: real, y: real)
    requires 0.0 <= x <= y && y > 0.0
    ensures 0.0 <= x / y <= 1.0
  {
  }

  ghost predicate StaysIn(row: seq<Entry>, part: seq<nat>, c: nat) {
    forall e :: e in row ==> e.0 < |part| && part[e.0] == c
  }

  lemma {:induction false} RowStaysIff(row: seq<Entry>, part: seq<nat>, c: nat)
    requires forall e :: e in row ==> e.0 < |part| && e.1 > 0.0
    ensures RowInside(row, part, c) == Strength(row) <==> StaysIn(row, part, c)
  {
    if row != [] {
      var init, e := row[..|row| - 1], row[|row| - 1];
      assert row == init + [e];
      RowStaysIff(init, part, c);
      RowInsideBounded(init, part, c);
    }
  }

  ghost predicate AllStay(adj: seq<seq<Entry>>, part: seq<nat>, members: seq<nat>, c: nat)
    requires Within(members, |adj|)
  {
    forall k :: 0 <= k < |members| ==> StaysIn(adj[members[k]], part, c)
  }

  lemma {:induction false} InsideStaysIff(adj: seq<seq<Entry>>, part: seq<nat>, members: seq<nat>, c: nat)
    requires RowsInRange(adj) && PositiveRows(adj) && |part| == |adj| && Within(members, |adj|)
    ensures Inside(adj, part, members, c) == Incident(adj, members) <==> AllStay(adj, part, members, c)
  {
    if members != [] {
      var init, u := members[..|members| - 1], members[|members| - 1];
      InsideStaysIff(adj, part, init, c);
      InsideBounded(adj, part, init, c);
      RowInsideBounded(adj[u], part, c);
      RowStaysIff(adj[u], part, c);
      assert AllStay(adj, part, members, c) <==> AllStay(adj, part, init, c) && StaysIn(adj[u], part, c) by {
        assert members[|members| - 1] == u && forall k :: 0 <= k < |init| ==> init[k] == members[k];
      }
    }
  }

  /** Weight of the entries of `row` that leave community `c`. */
  ghost function RowLeaving(row: seq<Entry>, part: seq<nat>, c: nat): real
    requires forall e :: e in row ==> e.0 < |part|
  {
    if row == [] then 0.0
    else
      var (v, w) := row[|row| - 1];
      assert row[|row| - 1] in row;
      RowLeaving(row[..|row| - 1], part, c) + if part[v] != c then w else 0.0
  }

  ghost function Leaving(adj: seq<seq<Entry>>, part: seq<nat>, members: seq<nat>, c: nat): real
    requires RowsInRange(adj) && |part| == |adj| && Within(members, |adj|)
  {
    if members == [] then 0.0
    else Leaving(adj, part, members[..|members| - 1], c) + RowLeaving(adj[members[|members| - 1]], part, c)
  }

  lemma {:induction false} RowSplits(row: seq<Entry>, part: seq<nat>, c: nat)
    requires forall e :: e in row ==> e.0 < |part|
    ensures RowInside(row, part, c) + RowLeaving(row, part, c) == Strength(row)
  {
    if row != [] {
      assert row[|row| - 1] in row;
      RowSplits(row[..|row| - 1], part, c);
    }
  }

  lemma {:induction false} WeightSplits(adj: seq<seq<Entry>>, part: seq<nat>, members: seq<nat>, c: nat)
    requires RowsInRange(adj) && |part| == |adj| && Within(members, |adj|)
    ensures Inside(adj, part, members, c) + Leaving(adj, part, members, c) == Incident(adj, members)
  {
    if members != [] {
      WeightSplits(adj, part, members[..|members| - 1], c);
      RowSplits(adj[members[|members| - 1]], part, c);
    }
  }

  /** What is missing from a cohesion of 1 is the share of the weight that leaves the community. */
  lemma CohesionComplement(adj: seq<seq<Entry>>, part: seq<nat>, members: seq<nat>, c: nat)
    requires RowsInRange(adj) && |part| == |adj| && Within(members, |adj|) && Incident(adj, members) > 0.0
    ensures Cohesion(adj, part, members, c) + Leaving(adj, part, members, c) / Incident(adj, members) == 1.0
  {
    WeightSplits(adj, part, members, c);
    SharesOfOne(Inside(adj, part, members, c), Leaving(adj, part, members, c), Incident(adj, members));
  }

  lemma SharesOfOne(x: real, y: real, t: real)
    requires t > 0.0 && x + y == t
    ensures x / t + y / t == 1.0
  {
  }

  lemma FractionIsOne(x: real, y: real)
    requires y > 0.0
    ensures x / y == 1.0 <==> x == y
  {
    assert x / y * y == x;
  }

  /** Cohesion is 1 if and only if no edge leaves the community. */
  lemma CohesionOneIff(adj: seq<seq<Entry>>, part: seq<nat>, members: seq<nat>, c: nat)
    requires RowsInRange(adj) && PositiveRows(adj) && |part| == |adj| && Within(members, |adj|)
    ensures Cohesion(adj, part, members, c) == 1.0 <==> AllStay(adj, part, members, c)
  {
    InsideBounded(adj, part, members, c);
    InsideStaysIff(adj, part, members, c);
    if Incident(adj, members) > 0.0 {
      FractionIsOne(Inside(adj, part, members, c), Incident(adj, members));
    }
  }

  method RowSums(row: seq<Entry>, partition: array<nat>, c: nat, inside0: real, incident0: real)
    returns (inside: real, incident: real)
    requires forall e :: e in row ==> e.0 < partition.Length
    ensures inside == inside0 + RowInside(row, partition[..], c) && incident == incident0 + Strength(row)
  {
    inside, incident := inside0, incident0;
    for k := 0 to |row|
      invariant forall e :: e in row[..k] ==> e.0 < partition.Length
      invariant inside == inside0 + RowInside(row[..k], partition[..], c)
      invariant incident == incident0 + Strength(row[..k])
    {
      var (v, w) := row[k];
      assert row[k] in row;
      assert row[..k + 1][..k] == row[..k];
      incident := incident + w;
      if partition[v] == c {
        inside := inside + w;
      }
    }
    assert row[..|row|] == row;
  }

  method MeasureCohesion(
    adj: seq<seq<Entry>>, partition: array<nat>, members: seq<nat>, c: nat) returns (cohesion: real)
    requires RowsInRange(adj) && partition.Length == |adj| && Within(members, |adj|)
    ensures cohesion == Cohesion(adj, partition[..], members, c)
  {
    var inside, incident := 0.0, 0.0;
    for k := 0 to |members|
      invariant Within(members[..k], |adj|)
      invariant inside == Inside(adj, partition[..], members[..k], c)
      invariant incident == Incident(adj, members[..k])
    {
      assert members[..k + 1][..k] == members[..k];
      inside, incident := RowSums(adj[members[k]], partition, c, inside, incident);
    }
    assert members[..|members|] == members;
    cohesion := if incident > 0.0 then inside / incident else 1.0;
  }

  // ----- the solver -----

  ghost function Names(ids: seq<NodeId>, nodes: seq<nat>): (r: seq<NodeId>)
    requires Within(nodes, |ids|)
    ensures |r| == |nodes| && forall i :: 0 <= i < |nodes| ==> r[i] == ids[nodes[i]]
  {
    seq(|nodes|, i requires 0 <= i < |nodes| => ids[nodes[i]])
  }

  lemma BearersWithin(part: seq<nat>, c: nat)
    ensures Within(Bearers(part, c), |part|)
  {
    BearersAre(part, c);
    assert forall k :: 0 <= k < |Bearers(part, c)| ==> Bearers(part, c)[k] in Bearers(part, c);
  }

  /** The network that the solver works on. */
  ghost function NetworkOf(graph: Graph, resolution: real): (g: Network)
    requires Wired(graph)
    ensures Valid(g) && |g.adj| == |graph.ids|
  {
    RowsSymmetric(|graph.ids|, graph.edges);
    var total := TotalWeight(graph.edges);
    Network(RowsOf(|graph.ids|, graph.edges), if total > 0.0 then 2.0 * total else 1.0, resolution)
  }

  /** The label of every node. */
  ghost function LabelsOf(
    graph: Graph, resolution: real, maxIterations: nat, minDelta: real, draws: nat -> nat): seq<nat>
    requires Wired(graph)
  {
    Leiden.Solved(NetworkOf(graph, resolution), maxIterations, minDelta, draws)
  }

  lemma LabelsAre(graph: Graph, resolution: real, maxIterations: nat, minDelta: real, draws: nat -> nat)
    requires Wired(graph)
    ensures
      var part := LabelsOf(graph, resolution, maxIterations, minDelta, draws);
      |part| == |graph.ids| && Canonical(part)
  {
    Leiden.SolvedIsCanonical(NetworkOf(graph, resolution), maxIterations, minDelta, draws);
  }

  /** Against single nodes, the labelling loses at most twice the tolerance a node. */
  lemma LabelsKeepQuality(graph: Graph, resolution: real, maxIterations: nat, minDelta: real, draws: nat -> nat)
    requires Wired(graph) && resolution >= 0.0 && maxIterations > 0
    ensures
      var g, part := NetworkOf(graph, resolution), LabelsOf(graph, resolution, maxIterations, minDelta, draws);
      && |part| == |g.adj|
      && Quality(g, part) >= Quality(g, Singletons(|g.adj|)) - 2.0 * EPSILON * |g.adj| as real
  {
    RowsSymmetric(|graph.ids|, graph.edges);
    assert Refinement.Positive(NetworkOf(graph, resolution));
    Leiden.SolvedLaws(NetworkOf(graph, resolution), maxIterations, minDelta, draws);
  }

  /** Community number `c` of a labelling: its nodes are exactly those labelled `c`, in order, at least one,
      and its cohesion is the fraction of their weight that stays among them. */
  ghost predicate CommunityOf(graph: Graph, part: seq<nat>, c: nat, comm: Community)
    requires Wired(graph) && |part| == |graph.ids|
  {
    var bearers, adj := Bearers(part, c), RowsOf(|graph.ids|, graph.edges);
    && comm.id == c && bearers != [] && Within(bearers, |part|)
    && comm.members == Names(graph.ids, bearers)
    && RowsInRange(adj) && comm.cohesion == Cohesion(adj, part, bearers, c)
    && 0.0 <= comm.cohesion <= 1.0
  }

  ghost predicate CommunitiesOf(graph: Graph, part: seq<nat>, out: seq<Community>)
    requires Wired(graph) && |part| == |graph.ids|
  {
    |out| == LabelCount(part) && forall c: nat :: c < |out| ==> CommunityOf(graph, part, c, out[c])
  }

  /** A labelling has only one list of communities. */
  lemma CommunitiesUnique(graph: Graph, part: seq<nat>, a: seq<Community>, b: seq<Community>)
    requires Wired(graph) && |part| == |graph.ids| && CommunitiesOf(graph, part, a) && CommunitiesOf(graph, part, b)
    ensures a == b
  {
    forall c: nat | c < |a|
      ensures a[c] == b[c]
    {
      assert CommunityOf(graph, part, c, a[c]) && CommunityOf(graph, part, c, b[c]);
    }
  }

  method MapNames(ids: seq<NodeId>, nodes: seq<nat>) returns (r: seq<NodeId>)
    requires Within(nodes, |ids|)
    ensures r == Names(ids, nodes)
  {
    r := [];
    for i := 0 to |nodes|
      invariant |r| == i && forall j :: 0 <= j < i ==> r[j] == ids[nodes[j]]
    {
      r := r + [ids[nodes[i]]];
    }
  }

  /** Community `c`, from its bucket of nodes. */
  method Describe(graph: Graph, adj: seq<seq<Entry>>, partition: array<nat>, members: seq<nat>, c: nat)
    returns (comm: Community)
    requires WellFormed(graph) && partition.Length == |graph.ids| && adj == RowsOf(|graph.ids|, graph.edges)
    requires c in partition[..] && members == Bearers(partition[..], c)
    ensures CommunityOf(graph, partition[..], c, comm)
  {
    ghost var part := partition[..];
    RowsSymmetric(|graph.ids|, graph.edges);
    BearersWithin(part, c);
    BearersAre(part, c);
    CohesionInRange(adj, part, members, c);
    var cohesion := MeasureCohesion(adj, partition, members, c);
    var names := MapNames(graph.ids, members);
    comm := Community(c, names, cohesion);
  }

  lemma MemberBelow(keys: seq<nat>, k: nat, i: nat)
    requires (forall c: nat :: c in keys <==> c < k) && i < |keys|
    ensures keys[i] < k
  {
    var c: nat := keys[i];
    assert c in keys;
  }

  /** Ascending keys that are exactly the numbers below `k` are those numbers in order. */
  lemma {:induction false} DenseKeys(keys: seq<nat>, k: nat)
    requires Ascending(keys) && forall c: nat :: c in keys <==> c < k
    ensures |keys| == k && forall i :: 0 <= i < k ==> keys[i] == i
    decreases k
  {
    if |keys| > 0 {
      MemberBelow(keys, k, |keys| - 1);
    }
    if k > 0 {
      assert k - 1 in keys;
      var i :| 0 <= i < |keys| && keys[i] == k - 1;
      assert i == |keys| - 1;
      var init := keys[..|keys| - 1];
      forall c: nat
        ensures c in init <==> c < k - 1
      {
        assert keys == init + [k - 1];
        assert c < k ==> c in keys;
        if c in init {
          var j :| 0 <= j < |init| && init[j] == c;
          assert keys[j] < keys[|keys| - 1];
        }
      }
      DenseKeys(init, k - 1);
    }
  }

  lemma CommunityThere(graph: Graph, part: seq<nat>, c: nat) returns (comm: Community)
    requires Wired(graph) && |part| == |graph.ids| && c in part
    ensures CommunityOf(graph, part, c, comm)
  {
    RowsSymmetric(|graph.ids|, graph.edges);
    BearersWithin(part, c);
    BearersAre(part, c);
    var adj, bearers := RowsOf(|graph.ids|, graph.edges), Bearers(part, c);
    CohesionInRange(adj, part, bearers, c);
    comm := Community(c, Names(graph.ids, bearers), Cohesion(adj, part, bearers, c));
  }

  ghost predicate FirstOf(graph: Graph, part: seq<nat>, out: seq<Community>)
    requires Wired(graph) && |part| == |graph.ids|
  {
    forall c: nat :: c < |out| ==> CommunityOf(graph, part, c, out[c])
  }

  lemma FirstOfSnoc(graph: Graph, part: seq<nat>, out: seq<Community>, comm: Community)
    requires Wired(graph) && |part| == |graph.ids| && FirstOf(graph, part, out)
    requires CommunityOf(graph, part, |out|, comm)
    ensures FirstOf(graph, part, out + [comm])
  {
    forall c: nat | c < |out + [comm]|
      ensures CommunityOf(graph, part, c, (out + [comm])[c])
    {
      assert c < |out| ==> (out + [comm])[c] == out[c];
    }
  }

  lemma {:induction false} FirstCommunities(graph: Graph, part: seq<nat>, k: nat) returns (out: seq<Community>)
    requires Wired(graph) && |part| == |graph.ids| && forall c: nat :: c < k ==> c in part
    ensures |out| == k && FirstOf(graph, part, out)
  {
    out := [];
    if k > 0 {
      out := FirstCommunities(graph, part, k - 1);
      var comm := CommunityThere(graph, part, k - 1);
      FirstOfSnoc(graph, part, out, comm);
      out := out + [comm];
    }
  }

  lemma CommunitiesThere(graph: Graph, part: seq<nat>)
    requires Wired(graph) && |part| == |graph.ids| && Canonical(part)
    ensures exists out :: CommunitiesOf(graph, part, out)
  {
    CanonicalDense(part);
    var out := FirstCommunities(graph, part, LabelCount(part));
    assert CommunitiesOf(graph, part, out);
  }

  /** The communities that the solver finds. */
  ghost function Found(graph: Graph, resolution: real, maxIterations: nat, minDelta: real, draws: nat -> nat)
    : (out: seq<Community>)
    requires Wired(graph)
  {
    var part := LabelsOf(graph, resolution, maxIterations, minDelta, draws);
    LabelsAre(graph, resolution, maxIterations, minDelta, draws);
    CommunitiesThere(graph, part);
    var out :| CommunitiesOf(graph, part, out);
    out
  }

  lemma FoundIs(
    graph: Graph, resolution: real, maxIterations: nat, minDelta: real, draws: nat -> nat, out: seq<Community>)
    requires Wired(graph)
    requires
      var part := LabelsOf(graph, resolution, maxIterations, minDelta, draws);
      |part| == |graph.ids| && CommunitiesOf(graph, part, out)
    ensures out == Found(graph, resolution, maxIterations, minDelta, draws)
  {
    var part := LabelsOf(graph, resolution, maxIterations, minDelta, draws);
    LabelsAre(graph, resolution, maxIterations, minDelta, draws);
    CommunitiesThere(graph, part);
    CommunitiesUnique(graph, part, out, Found(graph, resolution, maxIterations, minDelta, draws));
  }

  /** The sorted bucket keys are the labels, and each bucket holds the nodes of its label. */
  lemma KeyAt(part: seq<nat>, buckets: map<nat, seq<nat>>, keys: seq<nat>, i: nat)
    requires Canonical(part) && Bucketed(part, buckets)
    requires Ascending(keys) && forall k :: k in keys <==> k in buckets.Keys
    ensures |keys| == LabelCount(part)
    ensures i < |keys| ==> keys[i] == i && i in part && i in buckets && buckets[i] == Bearers(part, i)
  {
    CanonicalDense(part);
    assert forall c: nat :: c in keys <==> c < LabelCount(part);
    DenseKeys(keys, LabelCount(part));
  }

  lemma CommunitiesSane(graph: Graph, part: seq<nat>, out: seq<Community>)
    requires Wired(graph) && |part| == |graph.ids| && CommunitiesOf(graph, part, out)
    ensures forall c :: 0 <= c < |out| ==> out[c].id == c && out[c].members != [] && 0.0 <= out[c].cohesion <= 1.0
  {
    forall c: nat | c < |out|
      ensures out[c].id == c && out[c].members != [] && 0.0 <= out[c].cohesion <= 1.0
    {
      assert CommunityOf(graph, part, c, out[c]);
    }
  }

  /** The communities of the labels in `partition`, in the order of the labels. */
  method Collect(graph: Graph, adj: seq<seq<Entry>>, partition: array<nat>) returns (out: seq<Community>)
    requires WellFormed(graph) && partition.Length == |graph.ids| && adj == RowsOf(|graph.ids|, graph.edges)
    requires Canonical(partition[..])
    ensures CommunitiesOf(graph, partition[..], out)
  {
    ghost var part := partition[..];
    var buckets := Buckets(partition);
    var sortedKeys := SortedKeys(buckets.Keys);
    KeyAt(part, buckets, sortedKeys, 0);
    out := [];
    for newId := 0 to |sortedKeys|
      invariant |out| == newId && partition[..] == part && FirstOf(graph, part, out)
    {
      KeyAt(part, buckets, sortedKeys, newId);
      var k := sortedKeys[newId];
      var comm := Describe(graph, adj, partition, buckets[k], k);
      FirstOfSnoc(graph, part, out, comm);
      out := out + [comm.(id := newId)];
    }
  }

  /**
   * The communities of a graph: those of the labels the solver ends with.  Ids run from 0, none is empty, and
   * every cohesion lies between 0 and 1.
   */
  method Run(graph: Graph, resolution: real, maxIterations: nat, minDelta: real, draws: nat -> nat)
    returns (out: seq<Community>)
    requires WellFormed(graph)
    ensures out == Found(graph, resolution, maxIterations, minDelta, draws)
    ensures
      var part := LabelsOf(graph, resolution, maxIterations, minDelta, draws);
      |part| == |graph.ids| && Canonical(part) && CommunitiesOf(graph, part, out)
    ensures forall c :: 0 <= c < |out| ==> out[c].id == c && out[c].members != [] && 0.0 <= out[c].cohesion <= 1.0
  {
    var n := |graph.ids|;
    LabelsAre(graph, resolution, maxIterations, minDelta, draws);
    if n == 0 {
      out := [];
      FoundIs(graph, resolution, maxIterations, minDelta, draws, out);
      return;
    }
    var adj, totalWeight := BuildRows(graph);
    var twoM := if totalWeight > 0.0 then 2.0 * totalWeight else 1.0;
    var g := Network(adj, twoM, resolution);
    assert g == NetworkOf(graph, resolution);
    var strength := RowStrengths(adj);
    var partition := Leiden.Solve(g, strength, maxIterations, minDelta, draws);
    out := Collect(graph, adj, partition);
    CommunitiesSane(graph, partition[..], out);
    FoundIs(graph, resolution, maxIterations, minDelta, draws, out);
  }
}
