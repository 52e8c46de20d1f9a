/** The graph that a list of weighted edges between named nodes makes, as in brain/src/cluster_runner.rs. */
module ClusterGraph {
  import opened Communities
  import opened SetFacts

  datatype Link = Link(a: NodeId, b: NodeId, w: real)

  /** The nodes that some positive-weight edge touches, self-loops included. */
  ghost function Touched(links: seq<Link>): set<NodeId> {
    if links == [] then {}
    else
      var l := links[|links| - 1];
      Touched(links[..|links| - 1]) + if l.w <= 0.0 then {} else {l.a, l.b}
  }

  /** The edges that count: of positive weight and between two nodes. */
  ghost function Proper(links: seq<Link>): seq<Link> {
    if links == [] then []
    else
      var l := links[|links| - 1];
      Proper(links[..|links| - 1]) + if l.w <= 0.0 || l.a == l.b then [] else [l]
  }

  /** The table gives each node met so far its index. */
  ghost predicate Indexed(ids: seq<NodeId>, seen: map<NodeId, nat>) {
    && Distinct(ids)
    && (forall n :: n in seen <==> n in ids)
    && (forall n :: n in seen ==> seen[n] < |ids| && ids[seen[n]] == n)
  }

  ghost predicate Named(ids: seq<NodeId>, edges: seq<Edge>, links: seq<Link>) {
    && |edges| == |links|
    && forall i :: 0 <= i < |edges| ==>
         && edges[i].a < |ids| && edges[i].b < |ids|
         && links[i] == Link(ids[edges[i].a], ids[edges[i].b], edges[i].w)
  }

  // ----- the graph as a function of the edges -----

  ghost function Placed(ids: seq<NodeId>, n: NodeId): seq<NodeId> {
    if n in ids then ids else ids + [n]
  }

  /** Where a node first occurs. */
  ghost function IndexIn(ids: seq<NodeId>, n: NodeId): (i: nat)
    ensures n in ids ==> i < |ids| && ids[i] == n
  {
    if ids == [] || ids[0] == n then 0 else 1 + IndexIn(ids[1..], n)
  }

  /** The graph with one more edge: nodes are placed in the order they are met, and an edge that does not count
      adds no edge, though a self-loop of positive weight adds its node. */
  ghost function Extended(g: Graph, l: Link): Graph {
    if l.w <= 0.0 then g
    else
      var ids := Placed(Placed(g.ids, l.a), l.b);
      if l.a == l.b then Graph(ids, g.edges)
      else Graph(ids, g.edges + [Edge(IndexIn(ids, l.a), IndexIn(ids, l.b), l.w)])
  }

  ghost function GraphOf(links: seq<Link>): Graph {
    if links == [] then Graph([], []) else Extended(GraphOf(links[..|links| - 1]), links[|links| - 1])
  }

  lemma IndexUnique(ids: seq<NodeId>, i: nat)
    requires Distinct(ids) && i < |ids|
    ensures IndexIn(ids, ids[i]) == i
  {
  }

  /** The index of a node, which is new to the graph if it was not met before. */
  method Entry(ids: seq<NodeId>, seen: map<NodeId, nat>, n: NodeId)
    returns (ids': seq<NodeId>, seen': map<NodeId, nat>, i: nat)
    requires Indexed(ids, seen)
    ensures Indexed(ids', seen') && ids' == Placed(ids, n) && i < |ids'| && ids'[i] == n
  {
    if n in seen {
      return ids, seen, seen[n];
    }
    ids', seen', i := ids + [n], seen[n := |ids|], |ids|;
  }

  /** The indices of both ends of an edge. */
  method Ends(ids: seq<NodeId>, seen: map<NodeId, nat>, l: Link)
    returns (ids': seq<NodeId>, seen': map<NodeId, nat>, ai: nat, bi: nat)
    requires Indexed(ids, seen)
    ensures Indexed(ids', seen') && ids' == Placed(Placed(ids, l.a), l.b)
    ensures ai == IndexIn(ids', l.a) && bi == IndexIn(ids', l.b) && (ai == bi <==> l.a == l.b)
  {
    ids', seen', ai := Entry(ids, seen, l.a);
    ids', seen', bi := Entry(ids', seen', l.b);
    IndexUnique(ids', ai);
    IndexUnique(ids', bi);
  }

  method AddLink(ids: seq<NodeId>, seen: map<NodeId, nat>, edges: seq<Edge>, l: Link)
    returns (ids': seq<NodeId>, seen': map<NodeId, nat>, edges': seq<Edge>)
    requires Indexed(ids, seen)
    ensures Indexed(ids', seen') && Graph(ids', edges') == Extended(Graph(ids, edges), l)
  {
    ids', seen', edges' := ids, seen, edges;
    if l.w <= 0.0 {
      return;
    }
    var ai, bi;
    ids', seen', ai, bi := Ends(ids, seen, l);
    if ai == bi {
      return;
    }
    edges' := edges + [Edge(ai, bi, l.w)];
  }

  /** Each node that an edge of positive weight touches once, and the edges that count, in order. */
  method BuildGraph(links: seq<Link>) returns (g: Graph)
    ensures g == GraphOf(links)
    ensures Distinct(g.ids) && Members(g.ids) == Touched(links) && |g.ids| <= 2 * |links|
    ensures Named(g.ids, g.edges, Proper(links))
  {
    var ids: seq<NodeId>, seen: map<NodeId, nat>, edges: seq<Edge> := [], map[], [];
    for k := 0 to |links|
      invariant Indexed(ids, seen) && Graph(ids, edges) == GraphOf(links[..k])
    {
      assert links[..k + 1][..k] == links[..k];
      ids, seen, edges := AddLink(ids, seen, edges, links[k]);
    }
    assert links[..|links|] == links;
    g := Graph(ids, edges);
    GraphIs(links);
  }

  // ----- what the graph is -----

  ghost function Members(ids: seq<NodeId>): set<NodeId> {
    set n | n in ids
  }

  lemma PlacedIs(ids: seq<NodeId>, n: NodeId)
    requires Distinct(ids)
    ensures Distinct(Placed(ids, n)) && Members(Placed(ids, n)) == Members(ids) + {n}
    ensures ids <= Placed(ids, n) && |Placed(ids, n)| <= |ids| + 1
  {
  }

  lemma NamedGrows(ids: seq<NodeId>, more: seq<NodeId>, edges: seq<Edge>, links: seq<Link>)
    requires Named(ids, edges, links) && ids <= more
    ensures Named(more, edges, links)
  {
  }

  lemma NamedSnoc(ids: seq<NodeId>, edges: seq<Edge>, links: seq<Link>, e: Edge, l: Link)
    requires Named(ids, edges, links) && e.a < |ids| && e.b < |ids| && l == Link(ids[e.a], ids[e.b], e.w)
    ensures Named(ids, edges + [e], links + [l])
  {
  }

  lemma ExtendedIs(g: Graph, l: Link, proper: seq<Link>)
    requires Distinct(g.ids) && Named(g.ids, g.edges, proper)
    ensures
      var r := Extended(g, l);
      && Distinct(r.ids) && |r.ids| <= |g.ids| + 2
      && Members(r.ids) == Members(g.ids) + (if l.w <= 0.0 then {} else {l.a, l.b})
      && Named(r.ids, r.edges, proper + if l.w <= 0.0 || l.a == l.b then [] else [l])
  {
    if l.w > 0.0 {
      PlacedIs(g.ids, l.a);
      PlacedIs(Placed(g.ids, l.a), l.b);
      var ids := Placed(Placed(g.ids, l.a), l.b);
      NamedGrows(g.ids, ids, g.edges, proper);
      assert l.a in Members(ids) && l.b in Members(ids);
      if l.a != l.b {
        NamedSnoc(ids, g.edges, proper, Edge(IndexIn(ids, l.a), IndexIn(ids, l.b), l.w), l);
      }
    }
    assert proper + [] == proper;
  }

  /** The graph of a list of edges has each node they touch once, and the edges that count, in order. */
  lemma {:induction false} GraphIs(links: seq<Link>)
    ensures
      var g := GraphOf(links);
      && Distinct(g.ids) && Members(g.ids) == Touched(links) && |g.ids| <= 2 * |links|
      && Named(g.ids, g.edges, Proper(links)) && Wired(g)
  {
    if links != [] {
      GraphIs(links[..|links| - 1]);
      ExtendedIs(GraphOf(links[..|links| - 1]), links[|links| - 1], Proper(links[..|links| - 1]));
    }
  }
}
