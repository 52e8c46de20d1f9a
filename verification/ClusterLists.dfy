/** Lists of communities: the nodes they hold, and the order and numbers that `reindex` of
    brain/src/cluster_runner.rs gives them. */
module ClusterLists {
  import opened Communities

  // ----- what a list of communities holds -----

  /** Every node of every community, as often as it occurs. */
  ghost function Holdings(cs: seq<Community>): multiset<NodeId> {
    if cs == [] then multiset{} else Holdings(cs[..|cs| - 1]) + multiset(cs[|cs| - 1].members)
  }

  lemma HoldingsSnoc(cs: seq<Community>, c: Community)
    ensures Holdings(cs + [c]) == Holdings(cs) + multiset(c.members)
  {
    assert (cs + [c])[..|cs|] == cs;
  }

  lemma SumAssoc<T>(a: multiset<T>, b: multiset<T>, c: multiset<T>)
    ensures a + b + c == a + (b + c)
  {
  }

  lemma SnocAssoc<T>(a: seq<T>, b: seq<T>)
    requires b != []
    ensures a + b == a + b[..|b| - 1] + [b[|b| - 1]]
  {
  }

  lemma {:induction false} HoldingsAppend(a: seq<Community>, b: seq<Community>)
    ensures Holdings(a + b) == Holdings(a) + Holdings(b)
    decreases |b|
  {
    if b == [] {
      assert a + b == a;
    } else {
      var init, c := b[..|b| - 1], b[|b| - 1];
      HoldingsAppend(a, init);
      HoldingsSnoc(a + init, c);
      SnocAssoc(a, b);
      SumAssoc(Holdings(a), Holdings(init), multiset(c.members));
    }
  }

  lemma {:induction false} HoldingsMember(cs: seq<Community>, i: nat)
    requires i < |cs|
    ensures multiset(cs[i].members) <= Holdings(cs)
    decreases |cs|
  {
    if i < |cs| - 1 {
      HoldingsMember(cs[..|cs| - 1], i);
    }
  }

  lemma {:induction false} HoldingsTwo(cs: seq<Community>, i: nat, j: nat)
    requires i < j < |cs|
    ensures multiset(cs[i].members) + multiset(cs[j].members) <= Holdings(cs)
    decreases |cs|
  {
    if j < |cs| - 1 {
      HoldingsTwo(cs[..|cs| - 1], i, j);
    } else {
      HoldingsMember(cs[..|cs| - 1], i);
    }
  }

  /** No node is held twice. */
  ghost predicate AtMostOnce(m: multiset<NodeId>) {
    forall n :: m[n] <= 1
  }

  ghost predicate PairwiseDisjoint(cs: seq<Community>) {
    forall i, j, n :: 0 <= i < j < |cs| && n in cs[i].members ==> n !in cs[j].members
  }

  /** When no node is held twice, no two communities share one. */
  lemma OnceMeansDisjoint(cs: seq<Community>)
    requires AtMostOnce(Holdings(cs))
    ensures PairwiseDisjoint(cs)
  {
    forall i, j, n | 0 <= i < j < |cs| && n in cs[i].members
      ensures n !in cs[j].members
    {
      HoldingsTwo(cs, i, j);
      var a, b := multiset(cs[i].members), multiset(cs[j].members);
      assert a[n] > 0 && (a + b)[n] <= Holdings(cs)[n];
    }
  }

  // ----- largest first -----

  function Least(members: seq<NodeId>): (m: NodeId)
    requires members != []
    ensures m in members && forall n :: n in members ==> m <= n
  {
    assert members == [members[0]] + members[1..];
    if |members| == 1 then members[0]
    else
      var m := Least(members[1..]);
      if members[0] <= m then members[0] else m
  }

  /** `Option<NodeId>` order: none comes before some. */
  predicate LeastNoLater(a: seq<NodeId>, b: seq<NodeId>) {
    a == [] || (b != [] && Least(a) <= Least(b))
  }

  /** `a` may stand before `b`: it is larger, or as large with no larger least member. */
  predicate NoLater(a: Community, b: Community) {
    |a.members| > |b.members| || (|a.members| == |b.members| && LeastNoLater(a.members, b.members))
  }

  ghost predicate InOrder(cs: seq<Community>) {
    forall i, j :: 0 <= i < j < |cs| ==> NoLater(cs[i], cs[j])
  }

  lemma NoLaterTotal(a: Community, b: Community)
    ensures NoLater(a, b) || NoLater(b, a)
  {
  }

  lemma NoLaterTransitive(a: Community, b: Community, c: Community)
    requires NoLater(a, b) && NoLater(b, c)
    ensures NoLater(a, c)
  {
  }

  /** How many of the first communities stay before a new one. */
  function Place(cs: seq<Community>, c: Community): (p: nat)
    ensures p <= |cs|
    ensures p < |cs| ==> !NoLater(cs[p], c)
    ensures forall i :: 0 <= i < p ==> NoLater(cs[i], c)
  {
    if cs == [] || !NoLater(cs[0], c) then 0 else 1 + Place(cs[1..], c)
  }

  function Insert(cs: seq<Community>, c: Community): seq<Community> {
    cs[..Place(cs, c)] + [c] + cs[Place(cs, c)..]
  }

  function Sorted(cs: seq<Community>): seq<Community> {
    if cs == [] then [] else Insert(Sorted(cs[..|cs| - 1]), cs[|cs| - 1])
  }

  lemma InsertInOrder(cs: seq<Community>, c: Community)
    requires InOrder(cs)
    ensures InOrder(Insert(cs, c))
  {
    var p, r := Place(cs, c), Insert(cs, c);
    forall j | p <= j < |cs|
      ensures NoLater(c, cs[j])
    {
      NoLaterTotal(cs[p], c);
      if j > p {
        NoLaterTransitive(c, cs[p], cs[j]);
      }
    }
    assert forall i :: 0 <= i < |r| ==> r[i] == if i < p then cs[i] else if i == p then c else cs[i - 1];
  }

  lemma SumSwap<T>(a: multiset<T>, b: multiset<T>, c: multiset<T>)
    ensures a + c + b == a + b + c
  {
  }

  lemma InsertedHoldings(a: seq<Community>, c: Community, b: seq<Community>)
    ensures Holdings(a + [c] + b) == Holdings(a + b) + multiset(c.members)
  {
    HoldingsAppend(a + [c], b);
    HoldingsSnoc(a, c);
    HoldingsAppend(a, b);
    SumSwap(Holdings(a), Holdings(b), multiset(c.members));
  }

  lemma InsertHoldings(cs: seq<Community>, c: Community)
    ensures Holdings(Insert(cs, c)) == Holdings(cs) + multiset(c.members)
  {
    var p := Place(cs, c);
    InsertedHoldings(cs[..p], c, cs[p..]);
    assert cs[..p] + cs[p..] == cs;
  }

  lemma InsertMembers<T>(s: seq<T>, p: nat, x: T)
    requires p <= |s|
    ensures forall y :: y in s[..p] + [x] + s[p..] <==> y in s || y == x
  {
    assert s == s[..p] + s[p..];
  }

  lemma {:induction false} SortedMembers(cs: seq<Community>)
    ensures |Sorted(cs)| == |cs| && forall c :: c in Sorted(cs) <==> c in cs
  {
    if cs != [] {
      var init, c := cs[..|cs| - 1], cs[|cs| - 1];
      SortedMembers(init);
      InsertMembers(Sorted(init), Place(Sorted(init), c), c);
      assert cs == init + [c];
    }
  }

  lemma {:induction false} SortedHolds(cs: seq<Community>)
    ensures InOrder(Sorted(cs)) && Holdings(Sorted(cs)) == Holdings(cs)
  {
    if cs != [] {
      SortedHolds(cs[..|cs| - 1]);
      InsertInOrder(Sorted(cs[..|cs| - 1]), cs[|cs| - 1]);
      InsertHoldings(Sorted(cs[..|cs| - 1]), cs[|cs| - 1]);
    }
  }

  // ----- reindex -----

  /** Every community of `out` is one of `cs`, perhaps under another number. */
  ghost predicate Renumbered(cs: seq<Community>, out: seq<Community>) {
    |out| == |cs| && forall i :: 0 <= i < |out| ==> out[i] == cs[i].(id := i)
  }

  lemma {:induction false} RenumberedHolds(cs: seq<Community>, out: seq<Community>)
    requires Renumbered(cs, out)
    ensures Holdings(out) == Holdings(cs)
  {
    if cs != [] {
      RenumberedHolds(cs[..|cs| - 1], out[..|cs| - 1]);
    }
  }

  ghost predicate Ranked(out: seq<Community>) {
    InOrder(out) && forall i :: 0 <= i < |out| ==> out[i].id == i
  }

  lemma RenumberedInOrder(cs: seq<Community>, out: seq<Community>)
    requires Renumbered(cs, out) && InOrder(cs)
    ensures Ranked(out)
  {
    forall i, j | 0 <= i < j < |out|
      ensures NoLater(out[i], out[j])
    {
      assert NoLater(cs[i], cs[j]);
    }
  }

  /** What `reindex` makes of a list: largest first, then by least member, numbered from 0. */
  ghost function Reindexed(cs: seq<Community>): (out: seq<Community>)
    ensures Renumbered(Sorted(cs), out)
  {
    seq(|Sorted(cs)|, i requires 0 <= i < |Sorted(cs)| => Sorted(cs)[i].(id := i))
  }

  lemma ReindexedIs(cs: seq<Community>)
    ensures Ranked(Reindexed(cs)) && Holdings(Reindexed(cs)) == Holdings(cs)
  {
    SortedHolds(cs);
    RenumberedHolds(Sorted(cs), Reindexed(cs));
    RenumberedInOrder(Sorted(cs), Reindexed(cs));
  }

  method Reindex(cs: seq<Community>) returns (out: seq<Community>)
    ensures out == Reindexed(cs)
    ensures Ranked(out) && Holdings(out) == Holdings(cs)
  {
    out := Sorted(cs);
    for i := 0 to |out|
      invariant |out| == |Sorted(cs)|
      invariant forall j :: 0 <= j < |out| ==> out[j] == if j < i then Sorted(cs)[j].(id := j) else Sorted(cs)[j]
    {
      out := out[i := out[i].(id := i)];
    }
    assert out == Reindexed(cs);
    ReindexedIs(cs);
  }
}
