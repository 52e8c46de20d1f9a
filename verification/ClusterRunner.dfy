/** Leiden over a list of edges, with oversized communities split again, as in brain/src/cluster_runner.rs. */
module ClusterRunner {
  import opened Numbers
  import opened Sequences
  import opened SetFacts
  import opened Folds
  import opened Communities
  import opened ClusterGraph
  import opened ClusterLists
  import opened ClusterSplits
  import ClusterCover
  import Labels
  import Leiden

  datatype Config = Config(
    resolution: real, maxIterations: nat, minDelta: real, seed: nat,
    oversizeRatio: real, maxSplitDepth: nat, splitResolutionStep: real)

  // ----- accounting -----

  lemma SortedMember(out: seq<Community>, r: seq<Community>, c: Community) returns (d: Community)
    requires Renumbered(Sorted(out), r) && c in r
    ensures d in out && c == d.(id := c.id)
  {
    SortedMembers(out);
    var i :| 0 <= i < |r| && r[i] == c;
    d := Sorted(out)[i];
    assert d in Sorted(out);
  }

  lemma AccountsReindexed(
    links: seq<Link>, cs: seq<Community>, out: seq<Community>, splits: seq<Split>, r: seq<Community>)
    requires Accounts(links, cs, out, splits) && Renumbered(Sorted(out), r) && Holdings(r) == Holdings(out)
    ensures Accounts(links, cs, r, splits)
  {
    forall c | c in r
      ensures InsideOne(c, cs) && (AllSane(cs) ==> Sane(c))
    {
      var d := SortedMember(out, r, c);
      var e :| e in cs && PartOf(d, e);
      assert PartOf(c, e);
    }
  }

  lemma {:induction false} DistinctHeld(s: seq<NodeId>)
    requires Distinct(s)
    ensures multiset(s) == multiset(Members(s))
  {
    if s != [] {
      var init, n := s[..|s| - 1], s[|s| - 1];
      DistinctHeld(init);
      assert s == init + [n];
      assert Members(s) == Members(init) + {n} && n !in Members(init);
    }
  }

  lemma HeldInside(part: seq<NodeId>, whole: seq<NodeId>)
    requires multiset(part) <= multiset(whole)
    ensures Members(part) <= Members(whole)
  {
    forall n | n in part
      ensures n in whole
    {
      assert n in multiset(part);
    }
  }

  lemma SetHeld(s: set<NodeId>, members: seq<NodeId>)
    requires s <= Members(members)
    ensures multiset(s) <= multiset(members)
    ensures multiset(s) + (multiset(members) - multiset(s)) == multiset(members)
  {
    forall n | n in multiset(s)
      ensures multiset(s)[n] <= multiset(members)[n]
    {
      assert n in members;
    }
  }

  lemma HeldByOne(cs: seq<Community>, c: Community)
    requires c in cs
    ensures multiset(c.members) <= Holdings(cs)
  {
    var i :| 0 <= i < |cs| && cs[i] == c;
    HoldingsMember(cs, i);
  }

  lemma HoldingsOne(c: Community)
    ensures Holdings([c]) == multiset(c.members)
  {
    HoldingsSnoc([], c);
    assert [] + [c] == [c];
  }

  lemma LostSnoc(splits: seq<Split>, s: Split)
    ensures Lost(splits + [s]) == Lost(splits) + LostIn(s)
  {
    assert (splits + [s])[..|splits|] == splits;
  }

  /** The communities of a split lie inside the one that was split. */
  lemma PiecesInside(links: seq<Link>, comm: Community, initial: seq<Community>)
    requires Holdings(initial) == multiset(Touched(Induced(links, comm.members)))
    ensures forall d :: d in initial ==> multiset(d.members) <= multiset(comm.members) && PartOf(d, comm)
  {
    InducedInside(links, comm.members);
    SetHeld(Touched(Induced(links, comm.members)), comm.members);
    forall d | d in initial
      ensures multiset(d.members) <= multiset(comm.members) && PartOf(d, comm)
    {
      HeldByOne(initial, d);
      HeldInside(d.members, comm.members);
    }
  }

  lemma InsideTransitive(pieces: seq<Community>, initial: seq<Community>, comm: Community)
    requires AllInside(pieces, initial) && forall d :: d in initial ==> PartOf(d, comm)
    ensures AllInside(pieces, [comm])
  {
    forall c | c in pieces
      ensures InsideOne(c, [comm])
    {
      var d :| d in initial && PartOf(c, d);
      assert comm in [comm] && PartOf(c, comm);
    }
  }

  lemma SplitsTransitive(links: seq<Link>, comm: Community, initial: seq<Community>, inner: seq<Split>)
    requires SplitsOf(Induced(links, comm.members), initial, inner)
    requires forall d :: d in initial ==> multiset(d.members) <= multiset(comm.members)
    ensures SplitsOf(links, [comm], inner)
  {
    forall s | s in inner
      ensures SplitOfOne(links, [comm], s)
    {
      var d :| d in initial && SplitOf(Induced(links, comm.members), d, s);
      HeldInside(s.members, comm.members);
      InducedTwice(links, comm.members, s.members);
      assert comm in [comm] && SplitOf(links, comm, s);
    }
  }

  lemma SplitsOwn(links: seq<Link>, comm: Community, inner: seq<Split>)
    requires SplitsOf(links, [comm], inner) && |comm.members| > 4 && Induced(links, comm.members) != []
    ensures SplitsOf(links, [comm], inner + [Split(comm.members, Induced(links, comm.members))])
  {
    assert comm in [comm] && SplitOf(links, comm, Split(comm.members, Induced(links, comm.members)));
  }

  lemma PiecesHold(
    links: seq<Link>, comm: Community, initial: seq<Community>, pieces: seq<Community>, inner: seq<Split>)
    requires Holdings(initial) == multiset(Touched(Induced(links, comm.members)))
    requires Holdings(pieces) + Lost(inner) == Holdings(initial)
    ensures Holdings(pieces) + Lost(inner + [Split(comm.members, Induced(links, comm.members))]) == Holdings([comm])
  {
    var own := Split(comm.members, Induced(links, comm.members));
    InducedInside(links, comm.members);
    SetHeld(Touched(own.links), comm.members);
    LostSnoc(inner, own);
    HoldingsOne(comm);
    SumAssoc(Holdings(pieces), Lost(inner), LostIn(own));
  }

  /** The pieces of a community account for it. */
  lemma AccountsPieces(
    links: seq<Link>, comm: Community, initial: seq<Community>, pieces: seq<Community>, inner: seq<Split>)
    requires Holdings(initial) == multiset(Touched(Induced(links, comm.members))) && AllSane(initial)
    requires Accounts(Induced(links, comm.members), initial, pieces, inner)
    requires |comm.members| > 4 && Induced(links, comm.members) != []
    ensures Accounts(links, [comm], pieces, inner + [Split(comm.members, Induced(links, comm.members))])
  {
    PiecesInside(links, comm, initial);
    PiecesHold(links, comm, initial, pieces, inner);
    InsideTransitive(pieces, initial, comm);
    SplitsTransitive(links, comm, initial, inner);
    SplitsOwn(links, comm, inner);
  }

  // ----- the recursion as a function of the solver -----

  /** `ceil() as usize`: negative values become 0. */
  function CeilToNat(x: real): nat {
    var c := -((-x).Floor);
    if c < 0 then 0 else c
  }

  function Threshold(cfg: Config, totalNodes: nat): nat {
    CeilToNat(totalNodes as real * cfg.oversizeRatio)
  }

  /** The configuration one level down. */
  function Deeper(cfg: Config, depth: nat): (r: Config)
    ensures r.maxSplitDepth == cfg.maxSplitDepth
  {
    cfg.(resolution := cfg.resolution * cfg.splitResolutionStep, seed := (cfg.seed + depth + 1) % U64)
  }

  type Solver = (Config, seq<Link>) -> seq<Community>

  /** The communities that come out, and every split that was made on the way. */
  datatype Outcome = Outcome(communities: seq<Community>, splits: seq<Split>)

  /** One oversized community: replaced by the communities of its inner edges if there are at least two. */
  ghost function SplitCommunity(solve: Solver, cfg: Config, links: seq<Link>, comm: Community, depth: nat): Outcome
    requires depth < cfg.maxSplitDepth
    decreases cfg.maxSplitDepth - depth, 0, 0
  {
    var sub := Induced(links, comm.members);
    if sub == [] then Outcome([comm], [])
    else
      var initial := solve(Deeper(cfg, depth), sub);
      if |initial| <= 1 then Outcome([comm], [])
      else
        var o := Splitting(solve, Deeper(cfg, depth), sub, |comm.members|, initial, depth + 1);
        Outcome(o.communities, o.splits + [Split(comm.members, sub)])
  }

  ghost function Joined(o: Outcome, p: Outcome): Outcome {
    Outcome(o.communities + p.communities, o.splits + p.splits)
  }

  /** A community as it is, or split if it is above the threshold. */
  ghost function SplitIfLarge(
    solve: Solver, cfg: Config, links: seq<Link>, threshold: nat, comm: Community, depth: nat): Outcome
    requires depth < cfg.maxSplitDepth
    decreases cfg.maxSplitDepth - depth, 0, 1
  {
    if |comm.members| <= threshold then Outcome([comm], []) else SplitCommunity(solve, cfg, links, comm, depth)
  }

  /** The first k communities, with those above the threshold split. */
  ghost function SplitFirst(
    solve: Solver, cfg: Config, links: seq<Link>, threshold: nat, cs: seq<Community>, k: nat, depth: nat): Outcome
    requires depth < cfg.maxSplitDepth && k <= |cs|
    decreases cfg.maxSplitDepth - depth, 1, k
  {
    if k == 0 then Outcome([], [])
    else
      Joined(SplitFirst(solve, cfg, links, threshold, cs, k - 1, depth),
             SplitIfLarge(solve, cfg, links, threshold, cs[k - 1], depth))
  }

  predicate SplitsHere(cfg: Config, totalNodes: nat, depth: nat) {
    depth < cfg.maxSplitDepth && totalNodes != 0 && Threshold(cfg, totalNodes) >= 4
  }

  ghost function Splitting(
    solve: Solver, cfg: Config, links: seq<Link>, totalNodes: nat, cs: seq<Community>, depth: nat): Outcome
    decreases if depth < cfg.maxSplitDepth then cfg.maxSplitDepth - depth else 0, 2, 0
  {
    if !SplitsHere(cfg, totalNodes, depth) then Outcome(Reindexed(cs), [])
    else
      var o := SplitFirst(solve, cfg, links, Threshold(cfg, totalNodes), cs, |cs|, depth);
      Outcome(Reindexed(o.communities), o.splits)
  }

  /** What the recursion relies on: the solver puts every node of its edges in one community, and none is empty. */
  ghost predicate Reliable(solve: Solver) {
    forall cfg, links ::
      Holdings(solve(cfg, links)) == multiset(Touched(links)) && AllSane(solve(cfg, links))
  }

  ghost predicate AccountsFor(links: seq<Link>, cs: seq<Community>, o: Outcome) {
    Accounts(links, cs, o.communities, o.splits)
  }

  lemma {:induction false} SplitCommunityAccounts(
    solve: Solver, cfg: Config, links: seq<Link>, comm: Community, depth: nat)
    requires Reliable(solve) && depth < cfg.maxSplitDepth && |comm.members| > 4
    ensures AccountsFor(links, [comm], SplitCommunity(solve, cfg, links, comm, depth))
    decreases cfg.maxSplitDepth - depth, 0, 0
  {
    AccountsItself(links, [comm]);
    var sub := Induced(links, comm.members);
    var initial := solve(Deeper(cfg, depth), sub);
    if sub != [] && |initial| > 1 {
      SplittingAccounts(solve, Deeper(cfg, depth), sub, |comm.members|, initial, depth + 1);
      var o := Splitting(solve, Deeper(cfg, depth), sub, |comm.members|, initial, depth + 1);
      AccountsPieces(links, comm, initial, o.communities, o.splits);
    }
  }

  lemma SplitIfLargeAccounts(
    solve: Solver, cfg: Config, links: seq<Link>, threshold: nat, comm: Community, depth: nat)
    requires Reliable(solve) && depth < cfg.maxSplitDepth && threshold >= 4
    ensures AccountsFor(links, [comm], SplitIfLarge(solve, cfg, links, threshold, comm, depth))
    decreases cfg.maxSplitDepth - depth, 0, 1
  {
    if |comm.members| <= threshold {
      AccountsItself(links, [comm]);
    } else {
      SplitCommunityAccounts(solve, cfg, links, comm, depth);
    }
  }

  lemma OutcomesJoin(links: seq<Link>, cs: seq<Community>, o: Outcome, ds: seq<Community>, p: Outcome)
    requires AccountsFor(links, cs, o) && AccountsFor(links, ds, p)
    ensures AccountsFor(links, cs + ds, Joined(o, p))
  {
    AccountsJoin(links, cs, o.communities, o.splits, ds, p.communities, p.splits);
  }

  lemma {:induction false} SplitFirstAccounts(
    solve: Solver, cfg: Config, links: seq<Link>, threshold: nat, cs: seq<Community>, k: nat, depth: nat)
    requires Reliable(solve) && depth < cfg.maxSplitDepth && threshold >= 4 && k <= |cs|
    ensures AccountsFor(links, cs[..k], SplitFirst(solve, cfg, links, threshold, cs, k, depth))
    decreases cfg.maxSplitDepth - depth, 1, k
  {
    if k == 0 {
      AccountsItself(links, cs[..0]);
    } else {
      SplitFirstAccounts(solve, cfg, links, threshold, cs, k - 1, depth);
      SplitIfLargeAccounts(solve, cfg, links, threshold, cs[k - 1], depth);
      OutcomesJoin(links, cs[..k - 1], SplitFirst(solve, cfg, links, threshold, cs, k - 1, depth),
                   [cs[k - 1]], SplitIfLarge(solve, cfg, links, threshold, cs[k - 1], depth));
      FirstSnoc(cs, k);
    }
  }

  /** With a reliable solver, the communities that come out are ranked and account for the given ones: nothing is
      added, none reaches outside the one it came from, and a node goes missing only in a split that was made of
      five or more nodes and left it without an edge. */
  lemma {:induction false} SplittingAccounts(
    solve: Solver, cfg: Config, links: seq<Link>, totalNodes: nat, cs: seq<Community>, depth: nat)
    requires Reliable(solve)
    ensures
      var o := Splitting(solve, cfg, links, totalNodes, cs, depth);
      Ranked(o.communities) && AccountsFor(links, cs, o)
    decreases if depth < cfg.maxSplitDepth then cfg.maxSplitDepth - depth else 0, 2, 0
  {
    if SplitsHere(cfg, totalNodes, depth) {
      var threshold := Threshold(cfg, totalNodes);
      SplitFirstAccounts(solve, cfg, links, threshold, cs, |cs|, depth);
      var o := SplitFirst(solve, cfg, links, threshold, cs, |cs|, depth);
      assert cs[..|cs|] == cs;
      ReindexedIs(o.communities);
      AccountsReindexed(links, cs, o.communities, o.splits, Reindexed(o.communities));
    } else {
      AccountsItself(links, cs);
      ReindexedIs(cs);
      AccountsReindexed(links, cs, cs, [], Reindexed(cs));
    }
  }

  lemma OnceBelow(m: multiset<NodeId>, n: multiset<NodeId>)
    requires m <= n && AtMostOnce(n)
    ensures AtMostOnce(m)
  {
    forall x
      ensures m[x] <= 1
    {
      assert m[x] <= n[x];
    }
  }

  lemma SplitsHeldOnce(links: seq<Link>, cs: seq<Community>, splits: seq<Split>)
    requires SplitsOf(links, cs, splits) && AtMostOnce(Holdings(cs))
    ensures forall s :: s in splits ==> AtMostOnce(multiset(s.members))
  {
    forall s | s in splits
      ensures AtMostOnce(multiset(s.members))
    {
      var d :| d in cs && SplitOf(links, d, s);
      HeldByOne(cs, d);
      OnceBelow(multiset(s.members), Holdings(cs));
    }
  }

  lemma AddedNone<T>(a: multiset<T>, b: multiset<T>)
    ensures a + b == a <==> b == multiset{}
  {
    assert |a + b| == |a| + |b|;
  }

  /** Disjoint communities stay disjoint, and no node of them is lost if and only if every member of every
      community that was split touches a positive-weight edge inside it. */
  lemma SplitsKeepNodesIff(links: seq<Link>, cs: seq<Community>, r: seq<Community>, splits: seq<Split>)
    requires Accounts(links, cs, r, splits) && AtMostOnce(Holdings(cs))
    ensures PairwiseDisjoint(r)
    ensures Holdings(r) == Holdings(cs) <==> AllTouched(splits)
  {
    OnceBelow(Holdings(r), Holdings(cs));
    OnceMeansDisjoint(r);
    SplitsHeldOnce(links, cs, splits);
    NoneLostIff(splits);
    AddedNone(Holdings(r), Lost(splits));
  }

  // ----- the Leiden solver -----

  /** The communities of the graph of some edges; `stream` gives the random draws that follow from a seed. */
  ghost function LeidenOf(stream: nat -> nat -> nat): Solver {
    (cfg: Config, links: seq<Link>) =>
      GraphIs(links);
      Found(GraphOf(links), cfg.resolution, cfg.maxIterations, cfg.minDelta, stream(cfg.seed))
  }

  lemma LeidenHolds(cfg: Config, links: seq<Link>, cs: seq<Community>, part: seq<nat>)
    requires Wired(GraphOf(links)) && |part| == |GraphOf(links).ids|
    requires Labels.Canonical(part) && CommunitiesOf(GraphOf(links), part, cs)
    ensures Holdings(cs) == multiset(Touched(links)) && AllSane(cs)
  {
    GraphIs(links);
    DistinctHeld(GraphOf(links).ids);
    ClusterCover.CommunitiesCover(GraphOf(links), part, cs);
    CommunitiesSane(GraphOf(links), part, cs);
  }

  lemma LeidenIsReliable(stream: nat -> nat -> nat)
    ensures Reliable(LeidenOf(stream))
  {
    forall cfg: Config, links: seq<Link>
      ensures Holdings(LeidenOf(stream)(cfg, links)) == multiset(Touched(links))
              && AllSane(LeidenOf(stream)(cfg, links))
    {
      GraphIs(links);
      var graph, draws := GraphOf(links), stream(cfg.seed);
      var part := LabelsOf(graph, cfg.resolution, cfg.maxIterations, cfg.minDelta, draws);
      LabelsAre(graph, cfg.resolution, cfg.maxIterations, cfg.minDelta, draws);
      CommunitiesThere(graph, part);
      LeidenHolds(cfg, links, Found(graph, cfg.resolution, cfg.maxIterations, cfg.minDelta, draws), part);
    }
  }

  // ----- the runner -----

  method Solve(cfg: Config, links: seq<Link>, stream: nat -> nat -> nat) returns (nodes: nat, cs: seq<Community>)
    requires 2 * |links| <= Leiden.USIZE_MAX
    ensures cs == LeidenOf(stream)(cfg, links) && nodes == |Touched(links)|
  {
    var graph := BuildGraph(links);
    GraphIs(links);
    DistinctCount(graph.ids);
    assert Members(graph.ids) == set x | x in graph.ids;
    cs := Run(graph, cfg.resolution, cfg.maxIterations, cfg.minDelta, stream(cfg.seed));
    nodes := |graph.ids|;
  }

  lemma {:induction false} InducedShorter(links: seq<Link>, members: seq<NodeId>)
    ensures |Induced(links, members)| <= |links|
  {
    if links != [] {
      InducedShorter(links[..|links| - 1], members);
    }
  }

  /** The communities of the edges inside a community, one level down. */
  method SolveInside(
    cfg: Config, sub: seq<Link>, depth: nat, stream: nat -> nat -> nat, ghost solve: Solver, ghost seal: nat)
    returns (initial: seq<Community>)
    requires 2 * |sub| <= Leiden.USIZE_MAX && Same(solve, LeidenOf(stream), seal)
    ensures initial == solve(Deeper(cfg, depth), sub)
  {
    var _, cs := Solve(Deeper(cfg, depth), sub, stream);
    initial := cs;
    Unseal(solve, LeidenOf(stream), seal);
  }

  method SplitOne(
    cfg: Config, links: seq<Link>, comm: Community, depth: nat, stream: nat -> nat -> nat,
    ghost solve: Solver, ghost seal: nat)
    returns (pieces: seq<Community>)
    requires 2 * |links| <= Leiden.USIZE_MAX && depth < cfg.maxSplitDepth && Same(solve, LeidenOf(stream), seal)
    ensures pieces == SplitCommunity(solve, cfg, links, comm, depth).communities
    decreases cfg.maxSplitDepth - depth, 0
  {
    pieces := [comm];
    var sub := SubLinks(links, comm.members);
    if sub == [] {
      return;
    }
    InducedShorter(links, comm.members);
    var initial := SolveInside(cfg, sub, depth, stream, solve, seal);
    if |initial| <= 1 {
      return;
    }
    pieces := SplitOversized(Deeper(cfg, depth), sub, |comm.members|, initial, depth + 1, stream, solve, seal);
  }

  method SplitOversized(
    cfg: Config, links: seq<Link>, totalNodes: nat, communities: seq<Community>, depth: nat,
    stream: nat -> nat -> nat, ghost solve: Solver, ghost seal: nat)
    returns (r: seq<Community>)
    requires 2 * |links| <= Leiden.USIZE_MAX && Same(solve, LeidenOf(stream), seal)
    ensures r == Splitting(solve, cfg, links, totalNodes, communities, depth).communities
    decreases if depth < cfg.maxSplitDepth then cfg.maxSplitDepth - depth else 0, 1
  {
    if depth >= cfg.maxSplitDepth || totalNodes == 0 {
      r := Reindex(communities);
      return;
    }
    var threshold := Threshold(cfg, totalNodes);
    if threshold < 4 {
      r := Reindex(communities);
      return;
    }
    var out: seq<Community> := [];
    for k := 0 to |communities|
      invariant out == SplitFirst(solve, cfg, links, threshold, communities, k, depth).communities
    {
      if |communities[k].members| <= threshold {
        out := out + [communities[k]];
        continue;
      }
      var pieces := SplitOne(cfg, links, communities[k], depth, stream, solve, seal);
      out := out + pieces;
    }
    r := Reindex(out);
  }

  /** What the runner makes of a list of edges. */
  ghost function Clustered(cfg: Config, links: seq<Link>, stream: nat -> nat -> nat): Outcome {
    if links == [] then Outcome([], [])
    else Splitting(LeidenOf(stream), cfg, links, |Touched(links)|, LeidenOf(stream)(cfg, links), 0)
  }

  /** Disjoint, non-empty communities, largest first and numbered from 0, of nodes that positive-weight edges
      touch; every such node is in one of them or was lost in one of the splits that were made, so all of them
      are there if and only if no split left one of its members without an edge. */
  lemma ClusteredLaws(cfg: Config, links: seq<Link>, stream: nat -> nat -> nat)
    ensures
      var o := Clustered(cfg, links, stream);
      && Ranked(o.communities) && AllSane(o.communities) && PairwiseDisjoint(o.communities)
      && Holdings(o.communities) + Lost(o.splits) == multiset(Touched(links))
      && (Holdings(o.communities) == multiset(Touched(links)) <==> AllTouched(o.splits))
      && forall s :: s in o.splits ==> |s.members| > 4 && s.links == Induced(links, s.members)
  {
    if links != [] {
      LeidenIsReliable(stream);
      RunAccounts(LeidenOf(stream), cfg, links, |Touched(links)|);
    }
  }

  lemma RunAccounts(solve: Solver, cfg: Config, links: seq<Link>, totalNodes: nat)
    requires Reliable(solve)
    ensures
      var o := Splitting(solve, cfg, links, totalNodes, solve(cfg, links), 0);
      && Ranked(o.communities) && AllSane(o.communities) && PairwiseDisjoint(o.communities)
      && Holdings(o.communities) + Lost(o.splits) == multiset(Touched(links))
      && (Holdings(o.communities) == multiset(Touched(links)) <==> AllTouched(o.splits))
      && forall s :: s in o.splits ==> |s.members| > 4 && s.links == Induced(links, s.members)
  {
    var o := Splitting(solve, cfg, links, totalNodes, solve(cfg, links), 0);
    SplittingAccounts(solve, cfg, links, totalNodes, solve(cfg, links), 0);
    SplitsKeepNodesIff(links, solve(cfg, links), o.communities, o.splits);
  }

  /** `ClusterRunner::run`. */
  method RunClusters(cfg: Config, links: seq<Link>, stream: nat -> nat -> nat) returns (r: seq<Community>)
    requires 2 * |links| <= Leiden.USIZE_MAX
    ensures r == Clustered(cfg, links, stream).communities
    ensures Ranked(r) && AllSane(r) && PairwiseDisjoint(r)
    ensures Holdings(r) == multiset(Touched(links)) <==> AllTouched(Clustered(cfg, links, stream).splits)
  {
    ClusteredLaws(cfg, links, stream);
    if links == [] {
      r := [];
      return;
    }
    var total, initial := Solve(cfg, links, stream);
    ghost var solve, seal := Seal<Config, seq<Link>, seq<Community>>(LeidenOf(stream));
    r := SplitOversized(cfg, links, total, initial, 0, stream, solve, seal);
    Unseal(solve, LeidenOf(stream), seal);
  }
}
