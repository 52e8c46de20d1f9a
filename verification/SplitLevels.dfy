/** Which communities brain/src/cluster_runner.rs splits, and with which configuration each level is solved. */
module SplitLevels {
  import opened Numbers
  import opened Communities
  import opened ClusterGraph
  import opened ClusterLists
  import opened ClusterSplits
  import opened ClusterRunner

  // ----- the configuration of each level -----

  ghost function Power(x: real, k: nat): real {
    if k == 0 then 1.0 else Power(x, k - 1) * x
  }

  /** 1 + 2 + ... + k. */
  ghost function Triangle(k: nat): nat {
    if k == 0 then 0 else Triangle(k - 1) + k
  }

  /** The configuration `k` levels down: the resolution multiplied by the step as often, and the seed advanced, with
      wrap-around, by 1, then 2, and so on. */
  ghost function Level(cfg: Config, k: nat): Config {
    if k == 0 then cfg
    else
      Config(cfg.resolution * Power(cfg.splitResolutionStep, k), cfg.maxIterations, cfg.minDelta,
             (cfg.seed + Triangle(k)) % U64, cfg.oversizeRatio, cfg.maxSplitDepth, cfg.splitResolutionStep)
  }

  lemma Regrouped(a: real, b: real, c: real)
    ensures a * b * c == a * (b * c)
  {
  }

  lemma WrapsOnce(a: nat, b: nat)
    ensures (a % U64 + b) % U64 == (a + b) % U64
  {
  }

  lemma OneDeeper(cfg: Config, d: nat)
    ensures Deeper(Level(cfg, d), d) == Level(cfg, d + 1)
  {
    var s := cfg.splitResolutionStep;
    Regrouped(cfg.resolution, Power(s, d), s);
    if d == 0 {
      assert Power(s, 1) == 1.0 * s;
      assert Triangle(1) == 1;
    } else {
      WrapsOnce(cfg.seed + Triangle(d), d + 1);
    }
  }

  /** The two solvers agree wherever the levels of this configuration ask them. */
  ghost predicate Agree(f: Solver, h: Solver, cfg: Config) {
    forall k: nat, links :: 1 <= k <= cfg.maxSplitDepth ==> f(Level(cfg, k), links) == h(Level(cfg, k), links)
  }

  lemma {:induction false} CommunityAgrees(
    f: Solver, h: Solver, top: Config, links: seq<Link>, comm: Community, d: nat)
    requires Agree(f, h, top) && d < top.maxSplitDepth
    ensures Level(top, d).maxSplitDepth == top.maxSplitDepth
    ensures SplitCommunity(f, Level(top, d), links, comm, d) == SplitCommunity(h, Level(top, d), links, comm, d)
    decreases top.maxSplitDepth - d, 0
  {
    OneDeeper(top, d);
    var sub := Induced(links, comm.members);
    var initial := f(Level(top, d + 1), sub);
    assert initial == h(Level(top, d + 1), sub);
    SplittingAgrees(f, h, top, sub, |comm.members|, initial, d + 1);
  }

  lemma {:induction false} FirstAgrees(
    f: Solver, h: Solver, top: Config, links: seq<Link>, threshold: nat, cs: seq<Community>, k: nat, d: nat)
    requires Agree(f, h, top) && d < top.maxSplitDepth && k <= |cs|
    ensures Level(top, d).maxSplitDepth == top.maxSplitDepth
    ensures SplitFirst(f, Level(top, d), links, threshold, cs, k, d)
         == SplitFirst(h, Level(top, d), links, threshold, cs, k, d)
    decreases top.maxSplitDepth - d, 1, k
  {
    if k > 0 {
      FirstAgrees(f, h, top, links, threshold, cs, k - 1, d);
      CommunityAgrees(f, h, top, links, cs[k - 1], d);
    }
  }

  lemma {:induction false} SplittingAgrees(
    f: Solver, h: Solver, top: Config, links: seq<Link>, totalNodes: nat, cs: seq<Community>, d: nat)
    requires Agree(f, h, top)
    ensures Splitting(f, Level(top, d), links, totalNodes, cs, d)
         == Splitting(h, Level(top, d), links, totalNodes, cs, d)
    decreases if d < top.maxSplitDepth then top.maxSplitDepth - d else 0, 2
  {
    if SplitsHere(Level(top, d), totalNodes, d) {
      FirstAgrees(f, h, top, links, Threshold(Level(top, d), totalNodes), cs, |cs|, d);
    }
  }

  /** The outcome depends on the solver only at the configurations of levels 1 to `maxSplitDepth`. */
  lemma LevelsDecide(f: Solver, h: Solver, cfg: Config, links: seq<Link>, totalNodes: nat, cs: seq<Community>)
    requires
      forall k: nat, l :: 1 <= k <= cfg.maxSplitDepth ==> f(Level(cfg, k), l) == h(Level(cfg, k), l)
    ensures Splitting(f, cfg, links, totalNodes, cs, 0) == Splitting(h, cfg, links, totalNodes, cs, 0)
  {
    SplittingAgrees(f, h, cfg, links, totalNodes, cs, 0);
  }

  // ----- which communities are split -----

  /** What a community is solved with when it is split at a depth. */
  ghost function Inner(cfg: Config, depth: nat): Config {
    Config(cfg.resolution * cfg.splitResolutionStep, cfg.maxIterations, cfg.minDelta,
           (cfg.seed + depth + 1) % U64, cfg.oversizeRatio, cfg.maxSplitDepth, cfg.splitResolutionStep)
  }

  /** The community has more than the given share of so many nodes, that share is above three nodes, there is a level
      left to split it on, and its inner edges fall into these pieces, of which there are two or more. */
  ghost predicate FallsApart(
    cfg: Config, links: seq<Link>, totalNodes: nat, comm: Community, depth: nat, pieces: seq<Community>)
  {
    var bound := totalNodes as real * cfg.oversizeRatio;
    && depth < cfg.maxSplitDepth && 3.0 < bound <= (|comm.members| - 1) as real
    && Induced(links, comm.members) != [] && |pieces| >= 2
  }

  ghost predicate Splittable(
    solve: Solver, cfg: Config, links: seq<Link>, totalNodes: nat, comm: Community, depth: nat)
  {
    FallsApart(cfg, links, totalNodes, comm, depth, solve(Inner(cfg, depth), Induced(links, comm.members)))
  }

  lemma CeilAbove(x: real, k: nat)
    ensures CeilToNat(x) > k <==> x > k as real
  {
    var f := (-x).Floor;
    assert f as real <= -x < (f + 1) as real;
    if -f > k {
      assert (f + 1) as real <= -(k as real);
    } else {
      assert f as real >= -(k as real);
    }
  }

  lemma AboveCeil(x: real, size: nat)
    requires x > 3.0
    ensures size > CeilToNat(x) <==> x <= (size - 1) as real
  {
    if size > 0 {
      CeilAbove(x, size - 1);
    }
  }

  lemma AboveThreshold(cfg: Config, totalNodes: nat, size: nat)
    ensures Threshold(cfg, totalNodes) >= 4 <==> totalNodes as real * cfg.oversizeRatio > 3.0
    ensures totalNodes as real * cfg.oversizeRatio > 3.0 ==>
              (size > Threshold(cfg, totalNodes) <==> totalNodes as real * cfg.oversizeRatio <= (size - 1) as real)
  {
    var x := totalNodes as real * cfg.oversizeRatio;
    CeilAbove(x, 3);
    if x > 3.0 {
      AboveCeil(x, size);
    }
  }

  /** A community with inner edges that the solver takes apart is split; any other stays. */
  lemma SplitsIntoPieces(solve: Solver, cfg: Config, links: seq<Link>, comm: Community, depth: nat)
    requires depth < cfg.maxSplitDepth
    ensures
      var sub, o := Induced(links, comm.members), SplitCommunity(solve, cfg, links, comm, depth);
      if sub != [] && |solve(Inner(cfg, depth), sub)| >= 2 then Split(comm.members, sub) in o.splits
      else o == Outcome([comm], [])
  {
    var sub := Induced(links, comm.members);
    assert Deeper(cfg, depth) == Inner(cfg, depth);
    var initial := solve(Deeper(cfg, depth), sub);
    if sub != [] && |initial| >= 2 {
      var inner := Splitting(solve, Deeper(cfg, depth), sub, |comm.members|, initial, depth + 1);
      var o := SplitCommunity(solve, cfg, links, comm, depth);
      assert o.splits == inner.splits + [Split(comm.members, sub)];
      assert o.splits[|inner.splits|] == Split(comm.members, sub);
    }
  }

  lemma SplitWhenLarge(solve: Solver, cfg: Config, links: seq<Link>, threshold: nat, comm: Community, depth: nat)
    requires depth < cfg.maxSplitDepth
    ensures
      var sub, o := Induced(links, comm.members), SplitIfLarge(solve, cfg, links, threshold, comm, depth);
      if |comm.members| > threshold && sub != [] && |solve(Inner(cfg, depth), sub)| >= 2
      then Split(comm.members, sub) in o.splits
      else o == Outcome([comm], [])
  {
    if |comm.members| > threshold {
      SplitsIntoPieces(solve, cfg, links, comm, depth);
    }
  }

  lemma SplittableIff(
    solve: Solver, cfg: Config, links: seq<Link>, totalNodes: nat, comm: Community, depth: nat)
    requires SplitsHere(cfg, totalNodes, depth)
    ensures
      var sub := Induced(links, comm.members);
      Splittable(solve, cfg, links, totalNodes, comm, depth)
      <==> |comm.members| > Threshold(cfg, totalNodes) && sub != [] && |solve(Inner(cfg, depth), sub)| >= 2
  {
    AboveThreshold(cfg, totalNodes, |comm.members|);
  }

  /** What becomes of one community: its pieces and the split, or itself. */
  lemma OneSplitIff(
    solve: Solver, cfg: Config, links: seq<Link>, totalNodes: nat, comm: Community, depth: nat)
    requires SplitsHere(cfg, totalNodes, depth)
    ensures
      var o := SplitIfLarge(solve, cfg, links, Threshold(cfg, totalNodes), comm, depth);
      if Splittable(solve, cfg, links, totalNodes, comm, depth)
      then Split(comm.members, Induced(links, comm.members)) in o.splits
      else o == Outcome([comm], [])
  {
    SplittableIff(solve, cfg, links, totalNodes, comm, depth);
    SplitWhenLarge(solve, cfg, links, Threshold(cfg, totalNodes), comm, depth);
  }

  /** A split among the first `k` communities comes from one of them. */
  lemma {:induction false} SplitFrom(
    solve: Solver, cfg: Config, links: seq<Link>, threshold: nat, cs: seq<Community>, k: nat, depth: nat, s: Split)
    returns (j: nat)
    requires depth < cfg.maxSplitDepth && k <= |cs|
    requires s in SplitFirst(solve, cfg, links, threshold, cs, k, depth).splits
    ensures j < k && s in SplitIfLarge(solve, cfg, links, threshold, cs[j], depth).splits
    decreases k
  {
    if s in SplitIfLarge(solve, cfg, links, threshold, cs[k - 1], depth).splits {
      j := k - 1;
    } else {
      j := SplitFrom(solve, cfg, links, threshold, cs, k - 1, depth, s);
    }
  }

  /** And what becomes of each of them is in the outcome. */
  lemma {:induction false} SplitInto(
    solve: Solver, cfg: Config, links: seq<Link>, threshold: nat, cs: seq<Community>, k: nat, depth: nat, i: nat)
    requires depth < cfg.maxSplitDepth && i < k <= |cs|
    ensures
      var o, one := SplitFirst(solve, cfg, links, threshold, cs, k, depth),
                    SplitIfLarge(solve, cfg, links, threshold, cs[i], depth);
      (forall s :: s in one.splits ==> s in o.splits) && forall c :: c in one.communities ==> c in o.communities
    decreases k
  {
    if i < k - 1 {
      SplitInto(solve, cfg, links, threshold, cs, k - 1, depth, i);
    }
  }

  lemma SameHolder(cs: seq<Community>, i: nat, j: nat, m: seq<NodeId>)
    requires i < |cs| && j < |cs| && AtMostOnce(Holdings(cs)) && m != []
    requires multiset(m) <= multiset(cs[i].members) && multiset(m) <= multiset(cs[j].members)
    ensures i == j
  {
    OnceMeansDisjoint(cs);
    HeldInside(m, cs[i].members);
    HeldInside(m, cs[j].members);
    assert m[0] in Members(m);
  }

  lemma KeptInReindexed(out: seq<Community>, c: Community) returns (d: Community)
    requires c in out
    ensures d in Reindexed(out) && d == c.(id := d.id)
  {
    SortedMembers(out);
    assert c in Sorted(out);
    var i :| 0 <= i < |Sorted(out)| && Sorted(out)[i] == c;
    d := Reindexed(out)[i];
  }

  /** In this outcome the community is split if it is splittable, and kept if it is not. */
  ghost predicate SplitOrKept(links: seq<Link>, comm: Community, splittable: bool, o: Outcome) {
    && (Split(comm.members, Induced(links, comm.members)) in o.splits <==> splittable)
    && (!splittable ==> exists d :: d in o.communities && d == comm.(id := d.id))
  }

  /** Of disjoint communities, exactly the splittable ones are split; the others come out as they are. */
  lemma SplitMadeIff(
    solve: Solver, cfg: Config, links: seq<Link>, totalNodes: nat, cs: seq<Community>, depth: nat, i: nat)
    requires Reliable(solve) && AtMostOnce(Holdings(cs)) && i < |cs|
    ensures SplitOrKept(links, cs[i], Splittable(solve, cfg, links, totalNodes, cs[i], depth),
                        Splitting(solve, cfg, links, totalNodes, cs, depth))
  {
    if SplitsHere(cfg, totalNodes, depth) {
      SplitHereIff(solve, cfg, links, totalNodes, cs, depth, i);
    } else {
      NotSplittable(solve, cfg, links, totalNodes, cs[i], depth);
      NothingSplit(solve, cfg, links, totalNodes, cs, depth, i);
    }
  }

  lemma NotSplittable(solve: Solver, cfg: Config, links: seq<Link>, totalNodes: nat, comm: Community, depth: nat)
    requires !SplitsHere(cfg, totalNodes, depth)
    ensures !Splittable(solve, cfg, links, totalNodes, comm, depth)
  {
    AboveThreshold(cfg, totalNodes, |comm.members|);
  }

  lemma NothingSplit(
    solve: Solver, cfg: Config, links: seq<Link>, totalNodes: nat, cs: seq<Community>, depth: nat, i: nat)
    requires !SplitsHere(cfg, totalNodes, depth) && i < |cs|
    ensures SplitOrKept(links, cs[i], false, Splitting(solve, cfg, links, totalNodes, cs, depth))
  {
    var d := KeptInReindexed(cs, cs[i]);
  }

  lemma SplitHereIff(
    solve: Solver, cfg: Config, links: seq<Link>, totalNodes: nat, cs: seq<Community>, depth: nat, i: nat)
    requires Reliable(solve) && AtMostOnce(Holdings(cs)) && i < |cs| && SplitsHere(cfg, totalNodes, depth)
    ensures SplitOrKept(links, cs[i], Splittable(solve, cfg, links, totalNodes, cs[i], depth),
                        Splitting(solve, cfg, links, totalNodes, cs, depth))
  {
    var s, t := Split(cs[i].members, Induced(links, cs[i].members)), Threshold(cfg, totalNodes);
    var o := SplitFirst(solve, cfg, links, t, cs, |cs|, depth);
    OneSplitIff(solve, cfg, links, totalNodes, cs[i], depth);
    SplitInto(solve, cfg, links, t, cs, |cs|, depth, i);
    if !Splittable(solve, cfg, links, totalNodes, cs[i], depth) {
      assert cs[i] in [cs[i]];
      var d := KeptInReindexed(o.communities, cs[i]);
      if s in o.splits {
        var j := SplitFrom(solve, cfg, links, t, cs, |cs|, depth, s);
        SplitIfLargeAccounts(solve, cfg, links, t, cs[j], depth);
        assert SplitOf(links, cs[j], s);
        SameHolder(cs, i, j, s.members);
      }
    }
  }

  // ----- the runner -----

  /** The solver of the runner: Leiden on the graph of the edges, with the resolution, budget, tolerance and seed of the
      configuration. */
  lemma LeidenFinds(stream: nat -> nat -> nat, cfg: Config, links: seq<Link>)
    ensures Wired(GraphOf(links))
    ensures LeidenOf(stream)(cfg, links)
         == Found(GraphOf(links), cfg.resolution, cfg.maxIterations, cfg.minDelta, stream(cfg.seed))
  {
    GraphIs(links);
  }

  lemma OnceHeld(links: seq<Link>, cs: seq<Community>)
    requires Holdings(cs) == multiset(Touched(links))
    ensures AtMostOnce(Holdings(cs))
  {
  }

  lemma SplitsIff(
    solve: Solver, cfg: Config, links: seq<Link>, cs: seq<Community>, i: nat, pieces: seq<Community>, o: Outcome)
    requires Reliable(solve) && cs == solve(cfg, links) && i < |cs|
    requires pieces == solve(Inner(cfg, 0), Induced(links, cs[i].members))
    requires o == Splitting(solve, cfg, links, |Touched(links)|, cs, 0)
    ensures SplitOrKept(links, cs[i], FallsApart(cfg, links, |Touched(links)|, cs[i], 0, pieces), o)
  {
    OnceHeld(links, cs);
    SplitMadeIff(solve, cfg, links, |Touched(links)|, cs, 0, i);
  }

  lemma ClusteredIs(cfg: Config, links: seq<Link>, stream: nat -> nat -> nat, cs: seq<Community>)
    requires links != [] && LeidenOf(stream)(cfg, links) == cs
    ensures Clustered(cfg, links, stream) == Splitting(LeidenOf(stream), cfg, links, |Touched(links)|, cs, 0)
  {
  }

  lemma RunSplits(
    cfg: Config, links: seq<Link>, stream: nat -> nat -> nat, cs: seq<Community>, i: nat, pieces: seq<Community>,
    o: Outcome)
    requires links != [] && LeidenOf(stream)(cfg, links) == cs && i < |cs|
    requires LeidenOf(stream)(Inner(cfg, 0), Induced(links, cs[i].members)) == pieces
    requires o == Splitting(LeidenOf(stream), cfg, links, |Touched(links)|, cs, 0)
    ensures SplitOrKept(links, cs[i], FallsApart(cfg, links, |Touched(links)|, cs[i], 0, pieces), o)
  {
    LeidenIsReliable(stream);
    SplitsIff(LeidenOf(stream), cfg, links, cs, i, pieces, o);
  }

  /** Of the communities that the solver finds among all edges, the runner splits exactly those that are too large and
      fall apart when their inner edges are solved at the resolution times the step, with the next seed; the others come
      out as they are. */
  lemma RunSplitsIff(
    cfg: Config, links: seq<Link>, stream: nat -> nat -> nat, cs: seq<Community>, i: nat, pieces: seq<Community>)
    requires links != [] && LeidenOf(stream)(cfg, links) == cs && i < |cs|
    requires LeidenOf(stream)(Inner(cfg, 0), Induced(links, cs[i].members)) == pieces
    ensures SplitOrKept(links, cs[i], FallsApart(cfg, links, |Touched(links)|, cs[i], 0, pieces),
                        Clustered(cfg, links, stream))
  {
    ClusteredIs(cfg, links, stream, cs);
    RunSplits(cfg, links, stream, cs, i, pieces, Clustered(cfg, links, stream));
  }
}
