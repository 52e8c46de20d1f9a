/** The outer loop and the entry point of the solver in brain/src/leiden.rs. */
module Leiden {
  import opened Numbers
  import opened Folds
  import opened Modularity
  import opened LocalMoving
  import opened Labels
  import opened Refinement

  /** The largest value of a machine word, which marks an unset parent. */
  const USIZE_MAX: nat := 0xFFFF_FFFF_FFFF_FFFF

  /** `first` holds, for every label, the first node bearing it. */
  ghost predicate FirstBearers(refined: seq<nat>, first: seq<nat>) {
    && |first| == LabelCount(refined)
    && forall c :: 0 <= c < |first| ==>
         first[c] < |refined| && refined[first[c]] == c && forall j :: 0 <= j < first[c] ==> refined[j] != c
  }

  /** The `parent` table of `aggregate`: the first node of each refined community, which nothing replaces
      by the outer community the table is documented to hold. */
  method Parents(refined: array<nat>) returns (parent: seq<nat>)
    requires Canonical(refined[..]) && refined.Length <= USIZE_MAX
    ensures FirstBearers(refined[..], parent)
  {
    ghost var labels := refined[..];
    CanonicalDense(labels);
    var k: nat := 0;
    for u := 0 to refined.Length
      invariant k <= LabelCount(labels) && forall j :: 0 <= j < u ==> refined[j] < k
    {
      assert labels[u] in labels;
      if k < refined[u] + 1 {
        k := refined[u] + 1;
      }
    }
    assert k < LabelCount(labels) ==> k in labels;
    parent := seq(k, i => USIZE_MAX);
    for u := 0 to refined.Length
      invariant |parent| == k
      invariant forall c :: 0 <= c < k ==> parent[c] == USIZE_MAX || (parent[c] < u && refined[parent[c]] == c)
      invariant forall c, j :: 0 <= c < k && 0 <= j < u && refined[j] == c ==> parent[c] != USIZE_MAX && parent[c] <= j
    {
      if parent[refined[u]] == USIZE_MAX {
        parent := parent[refined[u] := u];
      }
    }
    forall c | 0 <= c < k
      ensures parent[c] != USIZE_MAX
    {
      assert c in labels;
    }
  }

  ghost predicate Injective(s: seq<nat>) {
    forall c, d :: 0 <= c < |s| && 0 <= d < |s| && s[c] == s[d] ==> c == d
  }

  lemma BearersDiffer(refined: seq<nat>, first: seq<nat>)
    requires FirstBearers(refined, first)
    ensures Injective(first)
  {
    forall c, d | 0 <= c < |first| && 0 <= d < |first| && first[c] == first[d]
      ensures c == d
    {
      assert refined[first[c]] == c && refined[first[d]] == d;
    }
  }

  lemma LiftEquivalent(refined: seq<nat>, agg: seq<nat>, lifted: seq<nat>)
    requires Injective(agg)
    requires |lifted| == |refined| && forall i :: 0 <= i < |refined| ==>
        refined[i] < |agg| && lifted[i] == agg[refined[i]]
    ensures Equivalent(lifted, refined)
  {
  }

  lemma EquivalentInjective(a: seq<nat>, b: seq<nat>)
    requires Equivalent(a, b) && Injective(b)
    ensures Injective(a)
  {
  }

  /** The labels the super-nodes start the next round with. */
  method AggregateLabels(parent: seq<nat>) returns (agg: array<nat>)
    requires Injective(parent)
    ensures fresh(agg) && agg.Length == |parent| && Injective(agg[..])
  {
    agg := new nat[|parent|](i => i);
    for c := 0 to |parent|
      invariant forall j :: 0 <= j < c ==> agg[j] == parent[j]
    {
      agg[c] := parent[c];
    }
    assert agg[..] == parent;
    Compress(agg);
    EquivalentInjective(agg[..], parent);
  }

  /** Gives every node the label of its refined community. */
  method Lift(refined: array<nat>, agg: array<nat>) returns (lifted: array<nat>)
    requires forall i :: 0 <= i < refined.Length ==> refined[i] < agg.Length
    ensures fresh(lifted) && lifted.Length == refined.Length
    ensures forall i :: 0 <= i < refined.Length ==> lifted[i] == agg[refined[i]]
  {
    lifted := new nat[refined.Length](i => 0);
    for node := 0 to refined.Length
      invariant forall i :: 0 <= i < node ==> lifted[i] == agg[refined[i]]
    {
      lifted[node] := agg[refined[node]];
    }
  }

  /** Aggregation and lifting: the labels of the super-nodes, carried back to the nodes, cut them exactly as
      `refine` did. */
  method LiftBack(refined: array<nat>) returns (result: array<nat>)
    requires Canonical(refined[..]) && refined.Length <= USIZE_MAX
    ensures fresh(result) && result.Length == refined.Length && result[..] == refined[..]
  {
    ghost var labels := refined[..];
    CanonicalDense(labels);
    var parent := Parents(refined);
    BearersDiffer(labels, parent);
    var agg := AggregateLabels(parent);
    forall i | 0 <= i < |labels|
      ensures labels[i] < agg.Length
    {
      assert labels[i] in labels;
    }
    result := Lift(refined, agg);
    LiftEquivalent(labels, agg[..], result[..]);
    Compress(result);
    CanonicalUnique(result[..], labels);
  }

  // ----- one outer iteration -----

  /** What local moving makes of a partition. */
  ghost function Moved(g: Network, part: seq<nat>, draws: nat -> nat, at: nat): (r: seq<nat>)
    requires Valid(g) && |part| == |g.adj|
    ensures |r| == |part|
  {
    LocalMoved(g, part, OrderOf(|g.adj|, draws, at), MAX_PASSES)
  }

  ghost function Moves(g: Network, part: seq<nat>, draws: nat -> nat, at: nat): nat
    requires Valid(g) && |part| == |g.adj|
  {
    LocalMoves(g, part, OrderOf(|g.adj|, draws, at), MAX_PASSES)
  }

  /** How many of its passes moved something. */
  ghost function Passes(g: Network, part: seq<nat>, draws: nat -> nat, at: nat): nat
    requires Valid(g) && |part| == |g.adj|
  {
    LocalPasses(g, part, OrderOf(|g.adj|, draws, at), MAX_PASSES)
  }

  /** What an outer iteration makes of it: the refinement of what local moving found. */
  ghost function Iteration(g: Network, part: seq<nat>, draws: nat -> nat, at: nat): (r: seq<nat>)
    requires Valid(g) && |part| == |g.adj|
    ensures |r| == |part|
  {
    var order := OrderOf(|g.adj|, draws, AfterShuffle(|g.adj|, at));
    RefinementLaws(g, Moved(g, part, draws, at), order);
    RefinedOf(g, Moved(g, part, draws, at), order)
  }

  function AfterIteration(n: nat, at: nat): nat {
    AfterShuffle(n, AfterShuffle(n, at))
  }

  /** Local moving raises the modularity by more than twice the tolerance for each of its moves, makes at most
      thirty-two passes and stops earlier only when another would change nothing, and leaves every node near its best
      unless all thirty-two moved something; the iteration refines its result. */
  lemma IterationLaws(g: Network, part: seq<nat>, draws: nat -> nat, at: nat)
    requires Valid(g) && |part| == |g.adj|
    ensures
      var moved, r := Moved(g, part, draws, at), Iteration(g, part, draws, at);
      && Improved(g, part, moved, Moves(g, part, draws, at))
      && StoppedAfter(PassOf(g, OrderOf(|g.adj|, draws, at)), part, 32, Passes(g, part, draws, at), moved)
      && (Passes(g, part, draws, at) < 32 ==> Settled(g, moved))
      && Canonical(r) && Refines(r, moved)
      && (Positive(g) ==> Quality(g, r) >= Quality(g, Singletons(|g.adj|)) - 2.0 * EPSILON * |g.adj| as real)
  {
    OrderIsOrder(|g.adj|, draws, at);
    LocalMovedImproves(g, part, OrderOf(|g.adj|, draws, at), MAX_PASSES);
    UntilIs(PassOf(g, OrderOf(|g.adj|, draws, at)), part, MAX_PASSES);
    RefinementLaws(g, Moved(g, part, draws, at), OrderOf(|g.adj|, draws, AfterShuffle(|g.adj|, at)));
  }

  /** One outer iteration: `partition` is left as local moving found it, and the result is its refinement. */
  method Iterate(g: Network, strength: seq<real>, partition: array<nat>, draws: nat -> nat, at: nat)
    returns (result: array<nat>, next: nat)
    requires Valid(g) && partition.Length == |g.adj| <= USIZE_MAX && strength == Strengths(g.adj)
    modifies partition
    ensures fresh(result) && result.Length == |g.adj| && next == AfterIteration(|g.adj|, at)
    ensures partition[..] == Moved(g, old(partition[..]), draws, at)
    ensures result[..] == Iteration(g, old(partition[..]), draws, at)
  {
    next := LocalMove(g, strength, partition, draws, at);
    var refined;
    refined, next := Refine(g, strength, partition[..], draws, next);
    result := LiftBack(refined);
  }

  // ----- convergence -----

  /** What an adjacent pair of one community adds to the solver's own modularity. */
  function PairQuality(g: Network, su: real, sv: real, w: real): real
    requires g.twoM > 0.0
  {
    w - g.gamma * su * sv / g.twoM
  }

  /** What the entries of the row of `u` add. */
  ghost function RowQuality(g: Network, strength: seq<real>, part: seq<nat>, u: nat, row: seq<Entry>): real
    requires g.twoM > 0.0 && u < |part| == |strength| && forall e :: e in row ==> e.0 < |part|
  {
    if row == [] then 0.0
    else
      var (v, w) := row[|row| - 1];
      assert row[|row| - 1] in row;
      RowQuality(g, strength, part, u, row[..|row| - 1]) +
      if part[u] == part[v] then PairQuality(g, strength[u], strength[v], w) else 0.0
  }

  /** The solver's own modularity, whose null-model term runs over adjacent pairs only. */
  ghost function AdjacentQuality(g: Network, strength: seq<real>, part: seq<nat>, n: nat): real
    requires g.twoM > 0.0 && RowsInRange(g.adj) && n <= |part| == |g.adj| == |strength|
  {
    if n == 0 then 0.0
    else AdjacentQuality(g, strength, part, n - 1) + RowQuality(g, strength, part, n - 1, g.adj[n - 1])
  }

  method AddRow(
    g: Network, strength: seq<real>, partition: array<nat>, u: nat, row: seq<Entry>, q0: real) returns (q: real)
    requires g.twoM > 0.0 && u < partition.Length == |strength| && forall e :: e in row ==> e.0 < partition.Length
    ensures q == q0 + RowQuality(g, strength, partition[..], u, row)
  {
    q := q0;
    for k := 0 to |row|
      invariant forall e :: e in row[..k] ==> e.0 < partition.Length
      invariant q == q0 + RowQuality(g, strength, partition[..], u, row[..k])
    {
      var (v, w) := row[k];
      assert row[k] in row;
      assert row[..k + 1][..k] == row[..k];
      if partition[u] == partition[v] {
        q := q + PairQuality(g, strength[u], strength[v], w);
      }
    }
    assert row[..|row|] == row;
  }

  method SolverModularity(g: Network, strength: seq<real>, partition: array<nat>) returns (q: real)
    requires g.twoM > 0.0 && RowsInRange(g.adj) && partition.Length == |g.adj| == |strength|
    ensures q == AdjacentQuality(g, strength, partition[..], |g.adj|) / g.twoM
  {
    q := 0.0;
    for u := 0 to |g.adj|
      invariant q == AdjacentQuality(g, strength, partition[..], u)
    {
      q := AddRow(g, strength, partition, u, g.adj[u], q);
    }
    q := q / g.twoM;
  }

  // ----- the outer loop -----

  ghost function SolverQuality(g: Network, part: seq<nat>): real
    requires Valid(g)
  {
    if |part| == |g.adj| then AdjacentQuality(g, Strengths(g.adj), part, |g.adj|) / g.twoM else 0.0
  }

  ghost function IterationOf(g: Network, draws: nat -> nat): (seq<nat>, nat) -> seq<nat>
    requires Valid(g)
  {
    (p: seq<nat>, at: nat) => if |p| == |g.adj| then Iteration(g, p, draws, at) else p
  }

  /** Where an iteration starts: the partition, its modularity as the solver measures it, and the position of the
      generator. */
  datatype Round = Round(part: seq<nat>, q: real, at: nat)

  ghost function NextRound(g: Network, iterate: (seq<nat>, nat) -> seq<nat>, r: Round): Round
    requires Valid(g)
  {
    var p := iterate(r.part, r.at);
    Round(p, SolverQuality(g, p), AfterIteration(|g.adj|, r.at))
  }

  /** The round after the last of at most `left` iterations: they stop when the modularity changes by less than
      `minDelta`. */
  ghost function LastRound(
    g: Network, iterate: (seq<nat>, nat) -> seq<nat>, minDelta: real, r: Round, left: nat): Round
    requires Valid(g)
    decreases left
  {
    if left == 0 then r
    else
      var n := NextRound(g, iterate, r);
      if Abs(n.q - r.q) < minDelta then n else LastRound(g, iterate, minDelta, n, left - 1)
  }

  lemma RoundStep(g: Network, iterate: (seq<nat>, nat) -> seq<nat>, minDelta: real, r: Round, left: nat)
    requires Valid(g) && left > 0
    ensures
      var n := NextRound(g, iterate, r);
      LastRound(g, iterate, minDelta, r, left)
      == LastRound(g, iterate, minDelta, n, if Abs(n.q - r.q) < minDelta then 0 else left - 1)
  {
  }

  /** The round that the last iteration started from. */
  ghost function LastStart(
    g: Network, iterate: (seq<nat>, nat) -> seq<nat>, minDelta: real, r: Round, left: nat): Round
    requires Valid(g) && left > 0
    decreases left
  {
    var n := NextRound(g, iterate, r);
    if left == 1 || Abs(n.q - r.q) < minDelta then r else LastStart(g, iterate, minDelta, n, left - 1)
  }

  lemma {:induction false} LastIsIteration(
    g: Network, iterate: (seq<nat>, nat) -> seq<nat>, minDelta: real, r: Round, left: nat)
    requires Valid(g) && left > 0
    ensures LastRound(g, iterate, minDelta, r, left)
         == NextRound(g, iterate, LastStart(g, iterate, minDelta, r, left))
    decreases left
  {
    var n := NextRound(g, iterate, r);
    if left > 1 && Abs(n.q - r.q) >= minDelta {
      LastIsIteration(g, iterate, minDelta, n, left - 1);
    } else {
      assert LastRound(g, iterate, minDelta, n, 0) == n;
    }
  }

  ghost function NextOf(g: Network, iterate: (seq<nat>, nat) -> seq<nat>): Round -> Round
    requires Valid(g)
  {
    (r: Round) => NextRound(g, iterate, r)
  }

  /** The change of the modularity from `r` to the next round is below `minDelta`. */
  ghost predicate Converged(next: Round -> Round, minDelta: real, r: Round) {
    -minDelta < next(r).q - r.q < minDelta
  }

  /** `last` is the round after `k` iterations; the modularity had not converged before the last of them, and has with
      it unless the budget of `left` was spent. */
  ghost predicate StoppedAt(next: Round -> Round, minDelta: real, r: Round, left: nat, k: nat, last: Round) {
    && k <= left && last == Times(next, r, k)
    && (forall i :: 0 <= i < k - 1 ==> !Converged(next, minDelta, Times(next, r, i)))
    && (k < left ==> k > 0 && Converged(next, minDelta, Times(next, r, k - 1)))
  }

  lemma StoppedLater(next: Round -> Round, minDelta: real, r: Round, left: nat, k: nat, last: Round)
    requires left > 0 && !Converged(next, minDelta, r) && StoppedAt(next, minDelta, next(r), left - 1, k, last)
    ensures StoppedAt(next, minDelta, r, left, k + 1, last)
  {
    TimesShift(next, r, k);
    forall i | 0 <= i < k
      ensures !Converged(next, minDelta, Times(next, r, i))
    {
      if i > 0 {
        TimesShift(next, r, i - 1);
      }
    }
    if k > 0 {
      TimesShift(next, r, k - 1);
    }
  }

  lemma StoppedNow(next: Round -> Round, minDelta: real, r: Round, left: nat)
    ensures left == 0 ==> StoppedAt(next, minDelta, r, left, 0, r)
    ensures left > 0 && Converged(next, minDelta, r) ==> StoppedAt(next, minDelta, r, left, 1, next(r))
  {
    assert Times(next, r, 0) == r;
    assert Times(next, r, 1) == next(Times(next, r, 0));
  }

  lemma {:induction false} RoundsStop(
    g: Network, iterate: (seq<nat>, nat) -> seq<nat>, minDelta: real, r: Round, left: nat) returns (k: nat)
    requires Valid(g)
    ensures StoppedAt(NextOf(g, iterate), minDelta, r, left, k, LastRound(g, iterate, minDelta, r, left))
    decreases left
  {
    var next := NextOf(g, iterate);
    var n := NextRound(g, iterate, r);
    StoppedNow(next, minDelta, r, left);
    if left == 0 {
      return 0;
    }
    RoundStep(g, iterate, minDelta, r, left);
    assert next(r) == n;
    if Abs(n.q - r.q) < minDelta {
      assert LastRound(g, iterate, minDelta, n, 0) == n;
      return 1;
    }
    k := RoundsStop(g, iterate, minDelta, n, left - 1);
    StoppedLater(next, minDelta, r, left, k, LastRound(g, iterate, minDelta, n, left - 1));
    return k + 1;
  }

  /** The solver iterates from single nodes on until its own modularity changes by less than `minDelta`, or until the
      budget is spent. */
  lemma SolverStops(g: Network, maxIterations: nat, minDelta: real, draws: nat -> nat) returns (k: nat, last: Round)
    requires Valid(g)
    ensures StoppedAt(NextOf(g, IterationOf(g, draws)), minDelta, FirstRound(g), maxIterations, k, last)
    ensures Solved(g, maxIterations, minDelta, draws) == Canon(last.part)
  {
    last := LastRound(g, IterationOf(g, draws), minDelta, FirstRound(g), maxIterations);
    k := RoundsStop(g, IterationOf(g, draws), minDelta, FirstRound(g), maxIterations);
  }

  lemma {:induction false} StartFits(
    g: Network, iterate: (seq<nat>, nat) -> seq<nat>, minDelta: real, r: Round, left: nat)
    requires Valid(g) && left > 0 && |r.part| == |g.adj| && forall p, at :: |iterate(p, at)| == |p|
    ensures |LastStart(g, iterate, minDelta, r, left).part| == |g.adj|
    decreases left
  {
    var n := NextRound(g, iterate, r);
    if left > 1 && Abs(n.q - r.q) >= minDelta {
      StartFits(g, iterate, minDelta, n, left - 1);
    }
  }

  ghost function FirstRound(g: Network): Round
    requires Valid(g)
  {
    Round(Singletons(|g.adj|), SolverQuality(g, Singletons(|g.adj|)), 0)
  }

  /** The labels that the solver ends with. */
  ghost function Solved(g: Network, maxIterations: nat, minDelta: real, draws: nat -> nat): seq<nat>
    requires Valid(g)
  {
    Canon(LastRound(g, IterationOf(g, draws), minDelta, FirstRound(g), maxIterations).part)
  }

  /** Where the last iteration started. */
  ghost function StartOf(g: Network, maxIterations: nat, minDelta: real, draws: nat -> nat): (r: Round)
    requires Valid(g) && maxIterations > 0
    ensures |r.part| == |g.adj|
  {
    StartFits(g, IterationOf(g, draws), minDelta, FirstRound(g), maxIterations);
    LastStart(g, IterationOf(g, draws), minDelta, FirstRound(g), maxIterations)
  }

  lemma SolvedIsIteration(g: Network, maxIterations: nat, minDelta: real, draws: nat -> nat)
    requires Valid(g) && maxIterations > 0
    ensures
      var s := StartOf(g, maxIterations, minDelta, draws);
      Solved(g, maxIterations, minDelta, draws) == Iteration(g, s.part, draws, s.at)
  {
    var s := StartOf(g, maxIterations, minDelta, draws);
    LastIsIteration(g, IterationOf(g, draws), minDelta, FirstRound(g), maxIterations);
    var p := Iteration(g, s.part, draws, s.at);
    IterationLaws(g, s.part, draws, s.at);
    CanonIs(p, p);
  }

  /** With at least one iteration the labels are those of the last: they refine what its local moving found from
      where it started, and cost at most twice the tolerance a node against single nodes. */
  lemma SolvedLaws(g: Network, maxIterations: nat, minDelta: real, draws: nat -> nat)
    requires Valid(g) && maxIterations > 0
    ensures
      var s := StartOf(g, maxIterations, minDelta, draws);
      var moved, r := Moved(g, s.part, draws, s.at), Solved(g, maxIterations, minDelta, draws);
      && |r| == |g.adj| && Refines(r, moved)
      && Improved(g, s.part, moved, Moves(g, s.part, draws, s.at))
      && StoppedAfter(PassOf(g, OrderOf(|g.adj|, draws, s.at)), s.part, 32, Passes(g, s.part, draws, s.at), moved)
      && (Passes(g, s.part, draws, s.at) < 32 ==> Settled(g, moved))
      && (Positive(g) ==> Quality(g, r) >= Quality(g, Singletons(|g.adj|)) - 2.0 * EPSILON * |g.adj| as real)
  {
    var s := StartOf(g, maxIterations, minDelta, draws);
    SolvedIsIteration(g, maxIterations, minDelta, draws);
    IterationLaws(g, s.part, draws, s.at);
  }

  lemma {:induction false} LastFits(
    g: Network, iterate: (seq<nat>, nat) -> seq<nat>, minDelta: real, r: Round, left: nat)
    requires Valid(g) && |r.part| == |g.adj| && forall p, at :: |iterate(p, at)| == |p|
    ensures |LastRound(g, iterate, minDelta, r, left).part| == |g.adj|
    decreases left
  {
    if left > 0 {
      LastFits(g, iterate, minDelta, NextRound(g, iterate, r), left - 1);
    }
  }

  lemma SolvedIsCanonical(g: Network, maxIterations: nat, minDelta: real, draws: nat -> nat)
    requires Valid(g)
    ensures |Solved(g, maxIterations, minDelta, draws)| == |g.adj|
            && Canonical(Solved(g, maxIterations, minDelta, draws))
  {
    LastFits(g, IterationOf(g, draws), minDelta, FirstRound(g), maxIterations);
    CanonRelabels(LastRound(g, IterationOf(g, draws), minDelta, FirstRound(g), maxIterations).part);
  }

  /** One iteration and its modularity: the next round. */
  method Advance(
    g: Network, strength: seq<real>, partition: array<nat>, draws: nat -> nat, at: nat,
    ghost iterate: (seq<nat>, nat) -> seq<nat>, ghost seal: nat, ghost r: Round)
    returns (result: array<nat>, q: real, next: nat)
    requires Valid(g) && partition.Length == |g.adj| <= USIZE_MAX && strength == Strengths(g.adj)
    requires r.part == partition[..] && r.at == at && Same(iterate, IterationOf(g, draws), seal)
    modifies partition
    ensures fresh(result) && result.Length == |g.adj| && Round(result[..], q, next) == NextRound(g, iterate, r)
  {
    Unseal(iterate, IterationOf(g, draws), seal);
    result, next := Iterate(g, strength, partition, draws, at);
    q := SolverModularity(g, strength, result);
  }

  /** Single nodes, and their modularity. */
  method Begin(g: Network, strength: seq<real>) returns (partition: array<nat>, q: real)
    requires Valid(g) && |g.adj| <= USIZE_MAX && strength == Strengths(g.adj)
    ensures fresh(partition) && partition.Length == |g.adj| && Round(partition[..], q, 0) == FirstRound(g)
  {
    partition := new nat[|g.adj|](u => u);
    assert partition[..] == Singletons(|g.adj|);
    q := SolverModularity(g, strength, partition);
  }

  /** Iterates until the modularity settles or the budget is spent. */
  method SolveRounds(
    g: Network, strength: seq<real>, maxIterations: nat, minDelta: real, draws: nat -> nat,
    ghost iterate: (seq<nat>, nat) -> seq<nat>, ghost seal: nat)
    returns (partition: array<nat>)
    requires Valid(g) && |g.adj| <= USIZE_MAX && strength == Strengths(g.adj)
    requires Same(iterate, IterationOf(g, draws), seal)
    ensures fresh(partition) && partition.Length == |g.adj|
    ensures partition[..] == LastRound(g, iterate, minDelta, FirstRound(g), maxIterations).part
  {
    var prevQ;
    partition, prevQ := Begin(g, strength);
    var at: nat, outer: nat := 0, 0;
    ghost var goal := LastRound(g, iterate, minDelta, FirstRound(g), maxIterations);
    while outer < maxIterations
      invariant fresh(partition) && partition.Length == |g.adj| && outer <= maxIterations
      invariant LastRound(g, iterate, minDelta, Round(partition[..], prevQ, at), maxIterations - outer) == goal
    {
      ghost var r := Round(partition[..], prevQ, at);
      RoundStep(g, iterate, minDelta, r, maxIterations - outer);
      var q;
      partition, q, at := Advance(g, strength, partition, draws, at, iterate, seal, r);
      if Abs(q - prevQ) < minDelta {
        break;
      }
      prevQ := q;
      outer := outer + 1;
    }
  }

  method Solve(g: Network, strength: seq<real>, maxIterations: nat, minDelta: real, draws: nat -> nat)
    returns (partition: array<nat>)
    requires Valid(g) && |g.adj| <= USIZE_MAX && strength == Strengths(g.adj)
    ensures fresh(partition) && partition.Length == |g.adj|
    ensures partition[..] == Solved(g, maxIterations, minDelta, draws)
  {
    ghost var iterate, seal := Seal<seq<nat>, nat, seq<nat>>(IterationOf(g, draws));
    partition := SolveRounds(g, strength, maxIterations, minDelta, draws, iterate, seal);
    Unseal(iterate, IterationOf(g, draws), seal);
    Compress(partition);
  }
}
