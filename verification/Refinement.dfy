/** The refinement phase of brain/src/leiden.rs. */
module Refinement {
  import opened Sums
  import opened Modularity
  import opened Folds
  import opened LocalMoving
  import opened Labels

  /** A refined label is a node of the same outer community as the nodes bearing it. */
  ghost predicate Rooted(refined: seq<nat>, part: seq<nat>) {
    |refined| == |part| &&
    forall x :: 0 <= x < |refined| ==> refined[x] < |part| && part[refined[x]] == part[x]
  }

  lemma RootedRefines(refined: seq<nat>, part: seq<nat>)
    requires Rooted(refined, part)
    ensures Refines(refined, part)
  {
  }

  /** `c` is a label of the outer community of `u`. */
  ghost predicate Inner(part: seq<nat>, u: nat, c: nat) {
    u < |part| && c < |part| && part[c] == part[u]
  }

  /** `kIn` holds the weight from `row` into each refined community inside the outer community of `u`. */
  ghost predicate WeighsInside(row: seq<Entry>, part: seq<nat>, refined: seq<nat>, u: nat, kIn: map<nat, real>)
    requires |refined| == |part| && forall e :: e in row ==> e.0 < |part|
  {
    && (forall c: nat :: c in kIn <==> Inner(part, u, c) && Touches(row, refined, u, c))
    && (forall c: nat :: Inner(part, u, c) ==> Get(kIn, c) == Into(row, refined, u, c))
  }

  lemma WeighsInsideSnoc(row: seq<Entry>, e: Entry, part: seq<nat>, refined: seq<nat>, u: nat, kIn: map<nat, real>)
    requires (forall f :: f in row + [e] ==> f.0 < |part|) && (forall f :: f in row ==> f.0 < |part|)
    requires Rooted(refined, part) && u < |part| && WeighsInside(row, part, refined, u, kIn)
    ensures e in row + [e]
    ensures
      var more :=
        if e.0 == u || part[e.0] != part[u] then kIn else kIn[refined[e.0] := Get(kIn, refined[e.0]) + e.1];
      WeighsInside(row + [e], part, refined, u, more)
  {
    assert e in row + [e];
    var more := if e.0 == u || part[e.0] != part[u] then kIn else kIn[refined[e.0] := Get(kIn, refined[e.0]) + e.1];
    forall c: nat
      ensures c in more <==> Inner(part, u, c) && Touches(row + [e], refined, u, c)
      ensures Inner(part, u, c) ==> Get(more, c) == Into(row + [e], refined, u, c)
    {
      assert (row + [e])[..|row|] == row;
      assert c in kIn <==> Inner(part, u, c) && Touches(row, refined, u, c);
      assert Touches(row + [e], refined, u, c) <==> Touches(row, refined, u, c) || (e.0 != u && refined[e.0] == c) by {
        assert forall f :: f in row + [e] <==> f in row || f == e;
      }
    }
  }

  /** Accumulates the weight from `u` to the refined communities of its neighbours in its outer community. */
  method WeightsInside(row: seq<Entry>, partition: seq<nat>, refined: array<nat>, u: nat) returns (kIn: map<nat, real>)
    requires (forall e :: e in row ==> e.0 < |partition|) && u < |partition| && Rooted(refined[..], partition)
    ensures WeighsInside(row, partition, refined[..], u, kIn)
  {
    kIn := map[];
    for k := 0 to |row|
      invariant forall e :: e in row[..k] ==> e.0 < |partition|
      invariant WeighsInside(row[..k], partition, refined[..], u, kIn)
    {
      var (v, w) := row[k];
      assert row[k] in row;
      assert row[..k + 1] == row[..k] + [row[k]];
      WeighsInsideSnoc(row[..k], row[k], partition, refined[..], u, kIn);
      if v == u || partition[v] != partition[u] {
        continue;
      }
      kIn := kIn[refined[v] := Get(kIn, refined[v]) + w];
    }
    assert row[..|row|] == row;
  }

  /** Weights are positive and the resolution is not negative. */
  ghost predicate Positive(g: Network) {
    g.gamma >= 0.0 && forall u, e :: 0 <= u < |g.adj| && e in g.adj[u] ==> e.1 > 0.0
  }

  lemma {:induction false} StrengthNonNegative(row: seq<Entry>)
    requires forall e :: e in row ==> e.1 > 0.0
    ensures Strength(row) >= 0.0
  {
    if row != [] {
      StrengthNonNegative(row[..|row| - 1]);
      assert row[|row| - 1] in row;
    }
  }

  lemma {:induction false} IntoUntouched(row: seq<Entry>, part: seq<nat>, u: nat, c: nat)
    requires (forall e :: e in row ==> e.0 < |part|) && !Touches(row, part, u, c)
    ensures Into(row, part, u, c) == 0.0
  {
    if row != [] {
      var init, e := row[..|row| - 1], row[|row| - 1];
      assert e in row;
      IntoUntouched(init, part, u, c);
    }
  }

  lemma NonNegativeQuotient(x: real, y: real, z: real, t: real)
    requires x >= 0.0 && y >= 0.0 && z >= 0.0 && t > 0.0
    ensures x * y * z / t >= 0.0
  {
    ProductNonNegative(x, y, x * y);
    ProductNonNegative(x * y, z, x * y * z);
    QuotientNonNegative(x * y * z, t);
  }

  lemma ProductNonNegative(x: real, y: real, p: real)
    requires x >= 0.0 && y >= 0.0 && p == x * y
    ensures p >= 0.0
  {
  }

  lemma QuotientNonNegative(x: real, t: real)
    requires x >= 0.0 && t > 0.0
    ensures x / t >= 0.0
  {
  }

  /** A community with no neighbour of `u` attracts it by nothing. */
  lemma UntouchedGain(g: Network, part: seq<nat>, u: nat, c: nat)
    requires Valid(g) && Positive(g) && |part| == |g.adj| && u < |part|
    requires !Touches(g.adj[u], part, u, c)
    ensures GainOf(g, part, u, c) <= 0.0
  {
    var su := Strength(g.adj[u]);
    IntoUntouched(g.adj[u], part, u, c);
    StrengthNonNegative(g.adj[u]);
    var rest := Mask(Strengths(g.adj), part, c);
    var st := Sigma(g, part, c) - if part[u] == c then su else 0.0;
    assert st >= 0.0 by {
      var others := rest[u := 0.0];
      SumUpdate(rest, u, 0.0);
      var zeros := seq(|rest|, i => 0.0);
      SumZeros(zeros);
      forall v | 0 <= v < |rest|
        ensures zeros[v] <= others[v]
      {
        StrengthNonNegative(g.adj[v]);
      }
      SumMonotone(zeros, others);
    }
    var t := SquareOf(g.twoM);
    NonNegativeQuotient(g.gamma, st, su, t);
  }

  // ----- one visit -----

  /** The refined communities of the neighbours of `u` that share its outer community. */
  ghost function InsideLabels(row: seq<Entry>, outer: seq<nat>, refined: seq<nat>, u: nat): set<nat> {
    set c | c in refined && Inner(outer, u, c) && Touches(row, refined, u, c)
  }

  ghost function ChosenInside(g: Network, outer: seq<nat>, refined: seq<nat>, u: nat): Choice
    requires Valid(g) && |refined| == |g.adj| && u < |refined|
  {
    Scan(Listed(InsideLabels(g.adj[u], outer, refined, u)), Gains(g, refined, u), refined[u])
  }

  /** The refinement after `u` was visited: `u` moves to the community the scan chose if that gains anything. */
  ghost function Rehomed(g: Network, outer: seq<nat>, refined: seq<nat>, u: nat): (r: seq<nat>)
    requires Valid(g) && |refined| == |g.adj| && u < |refined|
    ensures |r| == |refined|
  {
    var c := ChosenInside(g, outer, refined, u);
    if c.best != refined[u] && c.gain > EPSILON then refined[u := c.best] else refined
  }

  lemma ChosenInsideIs(g: Network, outer: seq<nat>, refined: seq<nat>, u: nat)
    requires Valid(g) && |refined| == |g.adj| && u < |refined|
    ensures
      var c := ChosenInside(g, outer, refined, u);
      && (c.best == refined[u] || (Inner(outer, u, c.best) && c.gain == GainOf(g, refined, u, c.best)))
      && forall k: nat :: Inner(outer, u, k) && Touches(g.adj[u], refined, u, k) ==>
           GainOf(g, refined, u, k) <= c.gain + EPSILON
  {
    var near := InsideLabels(g.adj[u], outer, refined, u);
    ScanIs(Listed(near), Gains(g, refined, u), refined[u]);
    ListedMembers(near, ChosenInside(g, outer, refined, u).best);
    forall k: nat | Inner(outer, u, k) && Touches(g.adj[u], refined, u, k)
      ensures GainOf(g, refined, u, k) <= ChosenInside(g, outer, refined, u).gain + EPSILON
    {
      ListedMembers(near, k);
    }
  }

  /** On positive weights, a chosen community is at most the tolerance worse than staying. */
  lemma StayingIsNear(g: Network, outer: seq<nat>, refined: seq<nat>, u: nat)
    requires Valid(g) && Positive(g) && Rooted(refined, outer) && |refined| == |g.adj| && u < |refined|
    requires ChosenInside(g, outer, refined, u).gain > EPSILON
    ensures GainOf(g, refined, u, refined[u]) <= ChosenInside(g, outer, refined, u).gain + EPSILON
  {
    ChosenInsideIs(g, outer, refined, u);
    if !Touches(g.adj[u], refined, u, refined[u]) {
      UntouchedGain(g, refined, u, refined[u]);
    }
  }

  lemma RehomedRooted(g: Network, outer: seq<nat>, refined: seq<nat>, u: nat)
    requires Valid(g) && Rooted(refined, outer) && |refined| == |g.adj| && u < |refined|
    ensures Rooted(Rehomed(g, outer, refined, u), outer)
  {
    ChosenInsideIs(g, outer, refined, u);
  }

  /** A visit stays in the outer community, and a move changes the modularity by exactly twice the difference of the
      gains.  So a visit lowers it if and only if the scan chose another community that gains more than the
      tolerance, but less than staying would: the comparison the pass leaves out. */
  lemma RehomedChanges(g: Network, outer: seq<nat>, refined: seq<nat>, u: nat)
    requires Valid(g) && Rooted(refined, outer) && |refined| == |g.adj| && u < |refined|
    ensures
      var after := Rehomed(g, outer, refined, u);
      && Rooted(after, outer)
      && (after != refined ==>
            var best, stay := GainOf(g, refined, u, after[u]), GainOf(g, refined, u, refined[u]);
            && Quality(g, after) == Quality(g, refined) + 2.0 * (best - stay)
            && (Positive(g) ==> Quality(g, after) >= Quality(g, refined) - 2.0 * EPSILON))
    ensures
      var c, stay := ChosenInside(g, outer, refined, u), GainOf(g, refined, u, refined[u]);
      Quality(g, Rehomed(g, outer, refined, u)) < Quality(g, refined)
      <==> c.best != refined[u] && EPSILON < c.gain < stay
  {
    ChosenInsideIs(g, outer, refined, u);
    var c := ChosenInside(g, outer, refined, u);
    if c.best != refined[u] && c.gain > EPSILON {
      MoveGain(g, refined, u, c.best);
      if Positive(g) {
        StayingIsNear(g, outer, refined, u);
      }
    }
  }

  lemma AccumulatorsChooseInside(
    g: Network, outer: seq<nat>, refined: seq<nat>, u: nat, kIn: map<nat, real>, sigma: map<nat, real>)
    requires Valid(g) && Rooted(refined, outer) && |refined| == |g.adj| && u < |refined|
    requires WeighsInside(g.adj[u], outer, refined, u, kIn) && TakenOut(g, refined, u, sigma)
    ensures Scan(Listed(kIn.Keys), Scores(g, kIn, sigma, Strength(g.adj[u])), refined[u])
         == ChosenInside(g, outer, refined, u)
  {
    var near := InsideLabels(g.adj[u], outer, refined, u);
    assert kIn.Keys == near;
    var scores := Scores(g, kIn, sigma, Strength(g.adj[u]));
    forall c: nat | c in Listed(near)
      ensures scores(c) == Gains(g, refined, u)(c)
    {
      ListedMembers(near, c);
      ScanSeesGains(g, refined, u, kIn, sigma, c);
    }
    ScanAgrees(Listed(near), scores, Gains(g, refined, u), refined[u]);
  }

  /** Which refined community `u` should be in, and whether it gains anything there. */
  method DecideInside(
    g: Network, kIn: map<nat, real>, sigma: map<nat, real>, su: real, cu: nat,
    ghost outer: seq<nat>, ghost refined: seq<nat>, ghost u: nat)
    returns (best: nat, moves: bool)
    requires Valid(g) && Rooted(refined, outer) && |refined| == |g.adj| && u < |refined|
    requires su == Strength(g.adj[u]) && cu == refined[u]
    requires WeighsInside(g.adj[u], outer, refined, u, kIn) && TakenOut(g, refined, u, sigma)
    ensures moves ==> best != cu
    ensures Rehomed(g, outer, refined, u) == if moves then refined[u := best] else refined
  {
    var keys := SortedKeys(kIn.Keys);
    var bestGain;
    best, bestGain := BestGain(g, keys, kIn, sigma, su, cu);
    AccumulatorsChooseInside(g, outer, refined, u, kIn, sigma);
    moves := best != cu && bestGain > EPSILON;
  }

  /** Visits `u`, with the totals kept up to date instead of summed anew. */
  method VisitRefine(g: Network, strength: seq<real>, partition: seq<nat>, refined: array<nat>,
                     sigma0: map<nat, real>, u: nat)
    returns (sigma: map<nat, real>)
    requires Valid(g) && refined.Length == |g.adj| && u < |g.adj| && strength == Strengths(g.adj)
    requires Rooted(refined[..], partition) && SigmaTracks(g, refined[..], sigma0)
    modifies refined
    ensures Rooted(refined[..], partition) && SigmaTracks(g, refined[..], sigma)
    ensures refined[..] == Rehomed(g, partition, old(refined[..]), u)
  {
    ghost var part := refined[..];
    RehomedRooted(g, partition, part, u);
    var kIn := WeightsInside(g.adj[u], partition, refined, u);
    var su := strength[u];
    var cu := refined[u];
    TakeOut(g, part, u, sigma0);
    sigma := sigma0[cu := Get(sigma0, cu) - su];
    var best, moves := DecideInside(g, kIn, sigma, su, cu, partition, part, u);
    if moves {
      SigmaMoved(g, part, u, best, sigma);
      refined[u] := best;
      sigma := sigma[best := Get(sigma, best) + su];
      assert refined[..] == part[u := best];
    } else {
      PutBack(g, part, u, sigma);
      sigma := sigma[cu := Get(sigma, cu) + su];
    }
  }

  lemma SingletonSigma(g: Network, u: nat)
    ensures u < |g.adj| ==> Sigma(g, Singletons(|g.adj|), u) == Strength(g.adj[u])
    ensures u >= |g.adj| ==> Sigma(g, Singletons(|g.adj|), u) == 0.0
  {
    var n := |g.adj|;
    var zeros := seq(n, i => 0.0);
    var m := Mask(Strengths(g.adj), Singletons(n), u);
    SumZeros(zeros);
    if u < n {
      assert m == zeros[u := Strength(g.adj[u])];
      SumUpdate(zeros, u, Strength(g.adj[u]));
    } else {
      assert m == zeros;
    }
  }

  /** Quality depends on the classes of a partition only. */
  lemma QualityEquivalent(g: Network, a: seq<nat>, b: seq<nat>)
    requires Valid(g) && |a| == |b| == |g.adj| && Equivalent(a, b)
    ensures Quality(g, a) == Quality(g, b)
  {
    forall u | 0 <= u < |a|
      ensures Pulls(g, a)[u] == Pulls(g, b)[u]
    {
      assert Mask(Bonds(g, u), a, a[u]) == Mask(Bonds(g, u), b, b[u]);
    }
    assert Pulls(g, a) == Pulls(g, b);
  }

  // ----- the whole pass -----

  /** A visit as a map from refinements to refinements. */
  ghost function RehomeOf(g: Network, outer: seq<nat>): (seq<nat>, nat) -> seq<nat>
    requires Valid(g)
  {
    (p: seq<nat>, u: nat) => if |p| == |g.adj| && u < |p| then Rehomed(g, outer, p, u) else p
  }

  /** The refinement, before it is relabelled. */
  ghost function RefinedRaw(g: Network, outer: seq<nat>, order: seq<nat>): seq<nat>
    requires Valid(g)
  {
    Folded(RehomeOf(g, outer), Singletons(|g.adj|), order, |order|)
  }

  /** The refinement of a partition that visits in this order lead to. */
  ghost function RefinedOf(g: Network, outer: seq<nat>, order: seq<nat>): seq<nat>
    requires Valid(g)
  {
    Canon(RefinedRaw(g, outer, order))
  }

  ghost predicate Divides(g: Network, outer: seq<nat>, p: seq<nat>) {
    |p| == |g.adj| && Rooted(p, outer)
  }

  lemma RehomeKeeps(g: Network, outer: seq<nat>, p: seq<nat>, u: nat)
    requires Valid(g) && Divides(g, outer, p)
    ensures Divides(g, outer, RehomeOf(g, outer)(p, u))
    ensures Positive(g) && RehomeOf(g, outer)(p, u) != p ==>
              Value(g)(RehomeOf(g, outer)(p, u)) >= Value(g)(p) - 2.0 * EPSILON
  {
    if u < |p| {
      RehomedChanges(g, outer, p, u);
    }
  }

  lemma RehomesKeep(g: Network, outer: seq<nat>)
    requires Valid(g)
    ensures forall p: seq<nat>, u: nat :: Divides(g, outer, p) ==> Divides(g, outer, RehomeOf(g, outer)(p, u))
  {
    forall p: seq<nat>, u: nat | Divides(g, outer, p)
      ensures Divides(g, outer, RehomeOf(g, outer)(p, u))
    {
      RehomeKeeps(g, outer, p, u);
    }
  }

  lemma RawDivides(g: Network, outer: seq<nat>, order: seq<nat>)
    requires Valid(g) && |outer| == |g.adj|
    ensures Divides(g, outer, RefinedRaw(g, outer, order))
  {
    RehomesKeep(g, outer);
    FoldKeeps(RehomeOf(g, outer), p => Divides(g, outer, p), Singletons(|g.adj|), order, |order|);
  }

  lemma RawLoses(g: Network, outer: seq<nat>, order: seq<nat>)
    requires Valid(g) && Positive(g) && |outer| == |g.adj|
    ensures Value(g)(RefinedRaw(g, outer, order))
         >= Value(g)(Singletons(|g.adj|))
            + Steps(-2.0 * EPSILON, Changes(RehomeOf(g, outer), Singletons(|g.adj|), order, |order|))
  {
    forall p: seq<nat>, u: nat | Divides(g, outer, p)
      ensures Divides(g, outer, RehomeOf(g, outer)(p, u))
      ensures RehomeOf(g, outer)(p, u) != p ==>
                Value(g)(RehomeOf(g, outer)(p, u)) >= Value(g)(p) + -2.0 * EPSILON
    {
      RehomeKeeps(g, outer, p, u);
    }
    FoldRaises(RehomeOf(g, outer), p => Divides(g, outer, p), Value(g), -2.0 * EPSILON, Singletons(|g.adj|),
        order, |order|);
  }

  lemma LossBound(m: nat, n: nat)
    requires m <= n
    ensures Steps(-2.0 * EPSILON, m) >= -(2.0 * EPSILON * n as real)
  {
    StepsAdd(-2.0 * EPSILON, m, n - m);
    StepsAre(-2.0 * EPSILON, n);
    StepsSign(-2.0 * EPSILON, n - m);
  }

  lemma ValueIsQuality(g: Network, p: seq<nat>)
    requires Valid(g) && |p| == |g.adj|
    ensures Value(g)(p) == Quality(g, p)
  {
  }

  lemma Combine(a: real, b: real, steps: real, loss: real)
    requires a >= b + steps && steps >= -loss
    ensures a >= b - loss
  {
  }

  lemma {:induction false} StepsSign(step: real, n: nat)
    requires step <= 0.0
    ensures Steps(step, n) <= 0.0
  {
    if n > 0 {
      StepsSign(step, n - 1);
    }
  }

  /** On positive weights, refinement starts from single nodes and loses at most twice the tolerance a visit. */
  lemma RawKeepsQuality(g: Network, outer: seq<nat>, order: seq<nat>)
    requires Valid(g) && Positive(g) && |outer| == |g.adj|
    ensures |RefinedRaw(g, outer, order)| == |g.adj|
    ensures Quality(g, RefinedRaw(g, outer, order))
         >= Quality(g, Singletons(|g.adj|)) - 2.0 * EPSILON * |order| as real
  {
    RawDivides(g, outer, order);
    RawLoses(g, outer, order);
    var raw, single := RefinedRaw(g, outer, order), Singletons(|g.adj|);
    var moves := Changes(RehomeOf(g, outer), single, order, |order|);
    LossBound(moves, |order|);
    ValueIsQuality(g, raw);
    ValueIsQuality(g, single);
    Combine(Value(g)(raw), Value(g)(single), Steps(-2.0 * EPSILON, moves), 2.0 * EPSILON * |order| as real);
  }

  /** The result refines the partition, in canonical labels, and costs at most twice the tolerance a node. */
  lemma RefinementLaws(g: Network, outer: seq<nat>, order: seq<nat>)
    requires Valid(g) && |outer| == |g.adj|
    ensures
      var r := RefinedOf(g, outer, order);
      && |r| == |g.adj| && Canonical(r) && Refines(r, outer)
      && (Positive(g) ==> Quality(g, r) >= Quality(g, Singletons(|g.adj|)) - 2.0 * EPSILON * |order| as real)
  {
    RawDivides(g, outer, order);
    RootedRefines(RefinedRaw(g, outer, order), outer);
    CanonRelabels(RefinedRaw(g, outer, order));
    QualityEquivalent(g, RefinedOf(g, outer, order), RefinedRaw(g, outer, order));
    if Positive(g) {
      RawKeepsQuality(g, outer, order);
    }
  }

  lemma SingletonsTrack(g: Network, sigma: map<nat, real>)
    requires sigma == map u: nat | u < |g.adj| :: Strength(g.adj[u])
    ensures SigmaTracks(g, Singletons(|g.adj|), sigma)
  {
    forall c: nat
      ensures Get(sigma, c) == Sigma(g, Singletons(|g.adj|), c)
    {
      SingletonSigma(g, c);
    }
  }

  /** The refinement after the first `k` visits, and the totals that go with it. */
  ghost predicate Refining(
    g: Network, outer: seq<nat>, refined: seq<nat>, sigma: map<nat, real>, order: seq<nat>, k: nat,
    visit: (seq<nat>, nat) -> seq<nat>)
    requires k <= |order|
  {
    && |refined| == |g.adj| && Rooted(refined, outer) && SigmaTracks(g, refined, sigma)
    && refined == Folded(visit, Singletons(|g.adj|), order, k)
  }

  /** Everyone alone. */
  method RefineStart(
    g: Network, strength: seq<real>, partition: seq<nat>, ghost order: seq<nat>,
    ghost visit: (seq<nat>, nat) -> seq<nat>)
    returns (refined: array<nat>, sigma: map<nat, real>)
    requires |partition| == |g.adj| && strength == Strengths(g.adj)
    ensures fresh(refined) && refined.Length == |g.adj| && Refining(g, partition, refined[..], sigma, order, 0, visit)
  {
    var n := |g.adj|;
    refined := new nat[n](u => u);
    assert refined[..] == Singletons(n);
    sigma := map u: nat | u < n :: strength[u];
    SingletonsTrack(g, sigma);
  }

  /** The next visit of a refinement. */
  method RefineNext(
    g: Network, strength: seq<real>, partition: seq<nat>, refined: array<nat>, sigma0: map<nat, real>,
    order: seq<nat>, k: nat, ghost visit: (seq<nat>, nat) -> seq<nat>, ghost seal: nat)
    returns (sigma: map<nat, real>)
    requires Valid(g) && refined.Length == |g.adj| && strength == Strengths(g.adj)
    requires Same(visit, RehomeOf(g, partition), seal)
    requires k < |order| && order[k] < |g.adj| && Refining(g, partition, refined[..], sigma0, order, k, visit)
    modifies refined
    ensures Refining(g, partition, refined[..], sigma, order, k + 1, visit)
  {
    Unseal(visit, RehomeOf(g, partition), seal);
    sigma := VisitRefine(g, strength, partition, refined, sigma0, order[k]);
  }

  /** The visits of the refinement pass. */
  method RefineVisits(
    g: Network, strength: seq<real>, partition: seq<nat>, order: seq<nat>,
    ghost visit: (seq<nat>, nat) -> seq<nat>, ghost seal: nat)
    returns (refined: array<nat>)
    requires Valid(g) && |partition| == |g.adj| && strength == Strengths(g.adj) && IsOrder(order, |g.adj|)
    requires Same(visit, RehomeOf(g, partition), seal)
    ensures fresh(refined) && refined.Length == |g.adj|
    ensures refined[..] == Folded(visit, Singletons(|g.adj|), order, |order|)
  {
    var sigma;
    refined, sigma := RefineStart(g, strength, partition, order, visit);
    for k := 0 to |order|
      invariant Refining(g, partition, refined[..], sigma, order, k, visit)
    {
      sigma := RefineNext(g, strength, partition, refined, sigma, order, k, visit, seal);
    }
  }

  /** The refinement pass. */
  method Refine(g: Network, strength: seq<real>, partition: seq<nat>, draws: nat -> nat, at: nat)
    returns (refined: array<nat>, next: nat)
    requires Valid(g) && |partition| == |g.adj| && strength == Strengths(g.adj)
    ensures fresh(refined) && refined.Length == |g.adj| && next == AfterShuffle(|g.adj|, at)
    ensures refined[..] == RefinedOf(g, partition, OrderOf(|g.adj|, draws, at))
    ensures Canonical(refined[..]) && Refines(refined[..], partition)
    ensures Positive(g) ==>
              Quality(g, refined[..]) >= Quality(g, Singletons(|g.adj|)) - 2.0 * EPSILON * |g.adj| as real
  {
    var order;
    order, next := Shuffle(|g.adj|, draws, at);
    ghost var visit, seal := Seal<seq<nat>, nat, seq<nat>>(RehomeOf(g, partition));
    refined := RefineVisits(g, strength, partition, order, visit, seal);
    Unseal(visit, RehomeOf(g, partition), seal);
    Compress(refined);
    RefinementLaws(g, partition, order);
  }
}
