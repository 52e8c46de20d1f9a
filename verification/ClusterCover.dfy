/** The communities of a graph hold each of its nodes exactly once. */
module ClusterCover {
  import opened Sequences
  import opened Communities
  import opened ClusterLists
  import opened Labels

  ghost function Held(ids: seq<NodeId>, part: seq<nat>, c: nat): multiset<NodeId>
    requires |ids| == |part|
  {
    BearersWithin(part, c);
    multiset(Names(ids, Bearers(part, c)))
  }

  /** What the first k of numbered collections hold together. */
  ghost function SumBelow<T>(h: nat -> multiset<T>, k: nat): multiset<T> {
    if k == 0 then multiset{} else SumBelow(h, k - 1) + h(k - 1)
  }

  ghost function HeldBy(ids: seq<NodeId>, part: seq<nat>): nat -> multiset<NodeId>
    requires |ids| == |part|
  {
    c => Held(ids, part, c)
  }

  lemma NamesSnoc(ids: seq<NodeId>, y: NodeId, nodes: seq<nat>)
    requires Within(nodes, |ids|)
    ensures Within(nodes, |ids + [y]|) && Names(ids + [y], nodes) == Names(ids, nodes)
    ensures Within(nodes + [|ids|], |ids + [y]|) && Names(ids + [y], nodes + [|ids|]) == Names(ids, nodes) + [y]
  {
  }

  lemma BearersSnoc(part: seq<nat>, x: nat, c: nat)
    ensures Bearers(part + [x], c) == Bearers(part, c) + if x == c then [|part|] else []
  {
    assert (part + [x])[..|part|] == part;
  }

  /** One more node is held by the community of its label, and only by that. */
  lemma HeldSnoc(ids: seq<NodeId>, part: seq<nat>, y: NodeId, x: nat, c: nat)
    requires |ids| == |part|
    ensures Held(ids + [y], part + [x], c) == Held(ids, part, c) + One(y, x == c)
  {
    BearersSnoc(part, x, c);
    BearersWithin(part, c);
    NamesSnoc(ids, y, Bearers(part, c));
    assert Bearers(part, c) + [] == Bearers(part, c);
    assert multiset(Names(ids, Bearers(part, c)) + [y]) == Held(ids, part, c) + multiset{y};
  }

  ghost function One<T>(y: T, present: bool): multiset<T> {
    if present then multiset{y} else multiset{}
  }

  lemma AddOne<T>(a: multiset<T>, b: multiset<T>, y: T, p: bool, q: bool)
    requires !p || !q
    ensures (a + One(y, p)) + (b + One(y, q)) == (a + b) + One(y, p || q)
  {
  }

  /** Where one collection grows by one, so does the sum. */
  lemma {:induction false} SumGrows<T>(h: nat -> multiset<T>, more: nat -> multiset<T>, y: T, x: nat, k: nat)
    requires forall c: nat :: more(c) == h(c) + One(y, x == c)
    ensures SumBelow(more, k) == SumBelow(h, k) + One(y, x < k)
  {
    if k > 0 {
      SumGrows(h, more, y, x, k - 1);
      AddOne(SumBelow(h, k - 1), h(k - 1), y, x < k - 1, x == k - 1);
    }
  }

  lemma {:induction false} SumOfEmpty<T>(h: nat -> multiset<T>, k: nat)
    requires forall c: nat :: h(c) == multiset{}
    ensures SumBelow(h, k) == multiset{}
  {
    if k > 0 {
      SumOfEmpty(h, k - 1);
    }
  }

  lemma HeldBySnoc(ids: seq<NodeId>, part: seq<nat>, y: NodeId, x: nat, k: nat)
    requires |ids| == |part|
    ensures SumBelow(HeldBy(ids + [y], part + [x]), k) == SumBelow(HeldBy(ids, part), k) + One(y, x < k)
  {
    forall c: nat
      ensures HeldBy(ids + [y], part + [x])(c) == HeldBy(ids, part)(c) + One(y, x == c)
    {
      HeldSnoc(ids, part, y, x, c);
    }
    SumGrows(HeldBy(ids, part), HeldBy(ids + [y], part + [x]), y, x, k);
  }

  lemma SnocHeld<T>(s: seq<T>, y: T)
    ensures multiset(s + [y]) == multiset(s) + One(y, true)
  {
  }

  lemma {:induction false} EveryNodeHeld(ids: seq<NodeId>, part: seq<nat>, k: nat)
    requires |ids| == |part| && forall i :: 0 <= i < |part| ==> part[i] < k
    ensures SumBelow(HeldBy(ids, part), k) == multiset(ids)
  {
    if ids == [] {
      SumOfEmpty(HeldBy(ids, part), k);
    } else {
      var n := |ids| - 1;
      EveryNodeHeld(ids[..n], part[..n], k);
      HeldBySnoc(ids[..n], part[..n], ids[n], part[n], k);
      SnocHeld(ids[..n], ids[n]);
      Snoc(ids);
      Snoc(part);
    }
  }

  lemma {:induction false} HoldingsAreSum(h: nat -> multiset<NodeId>, out: seq<Community>, k: nat)
    requires k <= |out| && forall c: nat :: c < |out| ==> multiset(out[c].members) == h(c)
    ensures Holdings(out[..k]) == SumBelow(h, k)
  {
    if k > 0 {
      HoldingsAreSum(h, out, k - 1);
      FirstSnoc(out, k);
      HoldingsSnoc(out[..k - 1], out[k - 1]);
    }
  }

  /** The communities of a canonical labelling hold every node of the graph, each once. */
  lemma CommunitiesCover(graph: Graph, part: seq<nat>, out: seq<Community>)
    requires Wired(graph) && |part| == |graph.ids| && Canonical(part) && CommunitiesOf(graph, part, out)
    ensures Holdings(out) == multiset(graph.ids)
  {
    CanonicalDense(part);
    forall i | 0 <= i < |part|
      ensures part[i] < |out|
    {
      assert part[i] in part;
    }
    forall c: nat | c < |out|
      ensures multiset(out[c].members) == HeldBy(graph.ids, part)(c)
    {
      assert CommunityOf(graph, part, c, out[c]);
    }
    HoldingsAreSum(HeldBy(graph.ids, part), out, |out|);
    assert out[..|out|] == out;
    EveryNodeHeld(graph.ids, part, |out|);
  }
}
