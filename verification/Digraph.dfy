/** Directed graphs over any kind of vertex: walks, reachability and strongly connected components. */
module Digraph {

  /** `via` lists the vertices visited after `a`, the last of which is `b`. */
  ghost predicate Walk<V(!new)>(edges: set<(V, V)>, a: V, via: seq<V>, b: V)
    decreases |via|
  {
    if via == [] then a == b
    else (a, via[0]) in edges && Walk(edges, via[0], via[1..], b)
  }

  ghost predicate Reaches<V(!new)>(edges: set<(V, V)>, a: V, b: V) {
    exists via :: Walk(edges, a, via, b)
  }

  ghost predicate Mutual<V(!new)>(edges: set<(V, V)>, a: V, b: V) {
    Reaches(edges, a, b) && Reaches(edges, b, a)
  }

  /** `scc` is exactly the set of vertices mutually reachable with each of its members. */
  ghost predicate IsComponent<V(!new)>(edges: set<(V, V)>, scc: seq<V>) {
    && scc != []
    && forall a, b :: a in scc ==> (b in scc <==> Mutual(edges, a, b))
  }

  /** No edge leaves `region`. */
  ghost predicate Closed<V(!new)>(edges: set<(V, V)>, region: set<V>) {
    forall a, b :: a in region && (a, b) in edges ==> b in region
  }

  lemma ReachesSelf<V(!new)>(edges: set<(V, V)>, a: V)
    ensures Reaches(edges, a, a)
  {
    assert Walk(edges, a, [], a);
  }

  lemma {:induction false} WalkAppend<V(!new)>(edges: set<(V, V)>, a: V, p: seq<V>, b: V, q: seq<V>, c: V)
    requires Walk(edges, a, p, b) && Walk(edges, b, q, c)
    ensures Walk(edges, a, p + q, c)
    decreases |p|
  {
    if p == [] {
      assert p + q == q;
    } else {
      WalkAppend(edges, p[0], p[1..], b, q, c);
      assert (p + q)[1..] == p[1..] + q;
    }
  }

  lemma ReachesTransitive<V(!new)>(edges: set<(V, V)>, a: V, b: V, c: V)
    requires Reaches(edges, a, b) && Reaches(edges, b, c)
    ensures Reaches(edges, a, c)
  {
    var p :| Walk(edges, a, p, b);
    var q :| Walk(edges, b, q, c);
    WalkAppend(edges, a, p, b, q, c);
  }

  lemma EdgeReaches<V(!new)>(edges: set<(V, V)>, a: V, b: V)
    requires (a, b) in edges
    ensures Reaches(edges, a, b)
  {
    assert Walk(edges, b, [], b);
    assert [b][1..] == [];
    assert Walk(edges, a, [b], b);
  }

  lemma {:induction false} WalkStaysInside<V(!new)>(edges: set<(V, V)>, region: set<V>, a: V, via: seq<V>, b: V)
    requires Closed(edges, region) && a in region && Walk(edges, a, via, b)
    ensures b in region
    decreases |via|
  {
    if via != [] {
      WalkStaysInside(edges, region, via[0], via[1..], b);
    }
  }

  /** A closed region contains everything its members reach. */
  lemma ReachesStaysInside<V(!new)>(edges: set<(V, V)>, region: set<V>, a: V, b: V)
    requires Closed(edges, region) && a in region && Reaches(edges, a, b)
    ensures b in region
  {
    var via :| Walk(edges, a, via, b);
    WalkStaysInside(edges, region, a, via, b);
  }

  lemma MutualTransitive<V(!new)>(edges: set<(V, V)>, a: V, b: V, c: V)
    requires Mutual(edges, a, b) && Mutual(edges, b, c)
    ensures Mutual(edges, a, c)
  {
    ReachesTransitive(edges, a, b, c);
    ReachesTransitive(edges, c, b, a);
  }
}
