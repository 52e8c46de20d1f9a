/** The local-moving phase of brain/src/leiden.rs. */
module LocalMoving {
  import opened Sums
  import opened Modularity
  import opened Folds

  /** The tolerance 1e-12 of the solver. */
  const EPSILON: real := 0.000000000001

  function Get(m: map<nat, real>, c: nat): real {
    if c in m then m[c] else 0.0
  }

  /** `row` has an entry to a member of `c` other than `u`. */
  ghost predicate Touches(row: seq<Entry>, part: seq<nat>, u: nat, c: nat) {
    exists e :: e in row && e.0 != u && e.0 < |part| && part[e.0] == c
  }

  ghost predicate SigmaTracks(g: Network, part: seq<nat>, sigma: map<nat, real>)
    requires |part| == |g.adj|
  {
    forall c: nat :: Get(sigma, c) == Sigma(g, part, c)
  }

  /** `kIn` holds the weight from `row` into each community it touches. */
  ghost predicate Weighs(row: seq<Entry>, part: seq<nat>, u: nat, kIn: map<nat, real>)
    requires forall e :: e in row ==> e.0 < |part|
  {
    forall c: nat :: (c in kIn <==> Touches(row, part, u, c)) && Get(kIn, c) == Into(row, part, u, c)
  }

  lemma WeighsSnoc(row: seq<Entry>, e: Entry, part: seq<nat>, u: nat, kIn: map<nat, real>)
    requires (forall f :: f in row + [e] ==> f.0 < |part|) && (forall f :: f in row ==> f.0 < |part|)
    requires Weighs(row, part, u, kIn)
    ensures e in row + [e]
    ensures
      var more := if e.0 == u then kIn else kIn[part[e.0] := Get(kIn, part[e.0]) + e.1];
      Weighs(row + [e], part, u, more)
  {
    assert e in row + [e];
    var more := if e.0 == u then kIn else kIn[part[e.0] := Get(kIn, part[e.0]) + e.1];
    forall c: nat
      ensures (c in more <==> Touches(row + [e], part, u, c)) && Get(more, c) == Into(row + [e], part, u, c)
    {
      assert (row + [e])[..|row|] == row;
      assert c in kIn <==> Touches(row, part, u, c);
      assert Touches(row + [e], part, u, c) <==> Touches(row, part, u, c) || (e.0 != u && part[e.0] == c) by {
        assert forall f :: f in row + [e] <==> f in row || f == e;
      }
    }
  }

  /** Accumulates the weight from `u` to each neighbouring community, leaving self-loops out. */
  method NeighbourWeights(row: seq<Entry>, partition: array<nat>, u: nat) returns (kIn: map<nat, real>)
    requires forall e :: e in row ==> e.0 < partition.Length
    ensures Weighs(row, partition[..], u, kIn)
  {
    kIn := map[];
    for k := 0 to |row|
      invariant forall e :: e in row[..k] ==> e.0 < partition.Length
      invariant Weighs(row[..k], partition[..], u, kIn)
    {
      var (v, w) := row[k];
      assert row[k] in row;
      assert row[..k + 1] == row[..k] + [row[k]];
      WeighsSnoc(row[..k], row[k], partition[..], u, kIn);
      if v == u {
        continue;
      }
      kIn := kIn[partition[v] := Get(kIn, partition[v]) + w];
    }
    assert row[..|row|] == row;
  }

  lemma {:induction false} LeastExists(s: set<nat>) returns (k: nat)
    requires s != {}
    ensures k in s && forall j :: j in s ==> k <= j
    decreases |s|
  {
    k :| k in s;
    if j :| j in s && j < k {
      assert j in s - {k};
      var m := LeastExists(s - {k});
      assert forall i :: i in s ==> i == k || i in s - {k};
      k := m;
    }
  }

  ghost predicate Ascending(keys: seq<nat>) {
    forall i, j :: 0 <= i < j < |keys| ==> keys[i] < keys[j]
  }

  lemma LeastThere(s: set<nat>)
    requires s != {}
    ensures exists k :: k in s && forall j :: j in s ==> k <= j
  {
    var k := LeastExists(s);
  }

  ghost function Least(s: set<nat>): (k: nat)
    requires s != {}
    ensures k in s && forall j :: j in s ==> k <= j
  {
    LeastThere(s);
    var k :| k in s && forall j :: j in s ==> k <= j;
    k
  }

  /** The members of a set in ascending order. */
  ghost function Listed(s: set<nat>): seq<nat>
    decreases |s|
  {
    if s == {} then [] else [Least(s)] + Listed(s - {Least(s)})
  }

  /** The keys of the map in ascending order. */
  method SortedKeys(s: set<nat>) returns (keys: seq<nat>)
    ensures Ascending(keys) && forall k :: k in keys <==> k in s
    ensures keys == Listed(s)
  {
    keys := [];
    var rest := s;
    while rest != {}
      invariant rest <= s && Ascending(keys)
      invariant forall k :: k in keys <==> k in s && k !in rest
      invariant forall i, r :: 0 <= i < |keys| && r in rest ==> keys[i] < r
      invariant keys + Listed(rest) == Listed(s)
      decreases |rest|
    {
      LeastThere(rest);
      var k :| k in rest && forall j :: j in rest ==> k <= j;
      NextListed(keys, rest, k);
      keys := keys + [k];
      rest := rest - {k};
    }
  }

  lemma NextListed(keys: seq<nat>, rest: set<nat>, k: nat)
    requires k in rest && forall j :: j in rest ==> k <= j
    ensures keys + Listed(rest) == keys + [k] + Listed(rest - {k})
  {
    assert k == Least(rest);
  }

  // ----- the scan -----

  datatype Choice = Choice(best: nat, gain: real)

  /** What the scan over candidates settles on: it keeps a gain unless another beats it by the tolerance. */
  ghost function Scan(keys: seq<nat>, f: nat -> real, cu: nat): Choice {
    if keys == [] then Choice(cu, 0.0)
    else
      var c, k := Scan(keys[..|keys| - 1], f, cu), keys[|keys| - 1];
      if f(k) > c.gain + EPSILON then Choice(k, f(k)) else c
  }

  /** The scan ends at its start or at a candidate that gains something, and no candidate gains more than the
      tolerance above it. */
  lemma {:induction false} ScanIs(keys: seq<nat>, f: nat -> real, cu: nat)
    ensures
      var c := Scan(keys, f, cu);
      && ((c.best == cu && c.gain == 0.0) || (c.best in keys && c.gain == f(c.best) && c.gain > EPSILON))
      && forall k :: k in keys ==> f(k) <= c.gain + EPSILON
  {
    if keys != [] {
      ScanIs(keys[..|keys| - 1], f, cu);
      assert keys == keys[..|keys| - 1] + [keys[|keys| - 1]];
    }
  }

  lemma {:induction false} ScanAgrees(keys: seq<nat>, f: nat -> real, h: nat -> real, cu: nat)
    requires forall k :: k in keys ==> f(k) == h(k)
    ensures Scan(keys, f, cu) == Scan(keys, h, cu)
  {
    if keys != [] {
      assert keys[|keys| - 1] in keys;
      ScanAgrees(keys[..|keys| - 1], f, h, cu);
    }
  }

  /** The gains that the accumulated weights and totals give. */
  ghost function Scores(g: Network, kIn: map<nat, real>, sigma: map<nat, real>, su: real): nat -> real
    requires g.twoM > 0.0
  {
    (c: nat) => Gain(g, Get(kIn, c), Get(sigma, c), su)
  }

  method BestGain(g: Network, keys: seq<nat>, kIn: map<nat, real>, sigma: map<nat, real>, su: real, cu: nat)
    returns (best: nat, bestGain: real)
    requires g.twoM > 0.0
    ensures Choice(best, bestGain) == Scan(keys, Scores(g, kIn, sigma, su), cu)
  {
    best, bestGain := cu, 0.0;
    for k := 0 to |keys|
      invariant Choice(best, bestGain) == Scan(keys[..k], Scores(g, kIn, sigma, su), cu)
    {
      assert keys[..k + 1][..k] == keys[..k];
      var gain := Gain(g, Get(kIn, keys[k]), Get(sigma, keys[k]), su);
      if gain > bestGain + EPSILON {
        bestGain, best := gain, keys[k];
      }
    }
    assert keys[..|keys|] == keys;
  }

  /** No neighbouring community beats staying by more than the tolerances of the scan allow. */
  ghost predicate NearBest(g: Network, part: seq<nat>, u: nat)
    requires Valid(g) && |part| == |g.adj| && u < |part|
  {
    forall c: nat :: Touches(g.adj[u], part, u, c) ==>
      GainOf(g, part, u, c) <= EPSILON || GainOf(g, part, u, c) <= GainOf(g, part, u, part[u]) + 2.0 * EPSILON
  }

  /** With `u` taken out of its community, the accumulators feed the gain formula with the true values. */
  lemma ScanSeesGains(g: Network, part: seq<nat>, u: nat, kIn: map<nat, real>, sigma: map<nat, real>, c: nat)
    requires Valid(g) && |part| == |g.adj| && u < |part|
    requires Get(kIn, c) == Into(g.adj[u], part, u, c)
    requires Get(sigma, c) == Sigma(g, part, c) - if part[u] == c then Strength(g.adj[u]) else 0.0
    ensures Gain(g, Get(kIn, c), Get(sigma, c), Strength(g.adj[u])) == GainOf(g, part, u, c)
  {
  }

  lemma SigmaMoved(g: Network, part: seq<nat>, u: nat, best: nat, sigma: map<nat, real>)
    requires Valid(g) && |part| == |g.adj| && u < |part| && best != part[u]
    requires TakenOut(g, part, u, sigma)
    ensures SigmaTracks(g, part[u := best], sigma[best := Get(sigma, best) + Strength(g.adj[u])])
  {
    var after := sigma[best := Get(sigma, best) + Strength(g.adj[u])];
    forall d: nat
      ensures Get(after, d) == Sigma(g, part[u := best], d)
    {
      MoveSigma(g, part, u, best, d);
    }
  }

  // ----- one visit -----

  ghost function Gains(g: Network, part: seq<nat>, u: nat): nat -> real
    requires Valid(g) && |part| == |g.adj| && u < |part|
  {
    (c: nat) => GainOf(g, part, u, c)
  }

  /** The communities of the neighbours of `u`. */
  ghost function Neighbouring(row: seq<Entry>, part: seq<nat>, u: nat): set<nat> {
    set c | c in part && Touches(row, part, u, c)
  }

  ghost function Chosen(g: Network, part: seq<nat>, u: nat): Choice
    requires Valid(g) && |part| == |g.adj| && u < |part|
  {
    Scan(Listed(Neighbouring(g.adj[u], part, u)), Gains(g, part, u), part[u])
  }

  /** The partition after `u` was visited: `u` moves to the community the scan chose if that beats staying. */
  ghost function Visited(g: Network, part: seq<nat>, u: nat): (r: seq<nat>)
    requires Valid(g) && |part| == |g.adj| && u < |part|
    ensures |r| == |part|
  {
    var c := Chosen(g, part, u);
    if c.best != part[u] && c.gain > GainOf(g, part, u, part[u]) + EPSILON then part[u := c.best] else part
  }

  lemma {:induction false} ListedMembers(s: set<nat>, k: nat)
    ensures k in Listed(s) <==> k in s
    decreases |s|
  {
    if s != {} {
      ListedMembers(s - {Least(s)}, k);
    }
  }

  lemma ChosenIs(g: Network, part: seq<nat>, u: nat)
    requires Valid(g) && |part| == |g.adj| && u < |part|
    ensures
      var c := Chosen(g, part, u);
      && ((c.best == part[u] && c.gain == 0.0)
          || (c.best in part && Touches(g.adj[u], part, u, c.best) && c.gain == GainOf(g, part, u, c.best)))
      && forall k: nat :: Touches(g.adj[u], part, u, k) ==> GainOf(g, part, u, k) <= c.gain + EPSILON
  {
    var near := Neighbouring(g.adj[u], part, u);
    ScanIs(Listed(near), Gains(g, part, u), part[u]);
    ListedMembers(near, Chosen(g, part, u).best);
    forall k: nat | Touches(g.adj[u], part, u, k)
      ensures GainOf(g, part, u, k) <= Chosen(g, part, u).gain + EPSILON
    {
      ListedMembers(near, k);
    }
  }

  /** A visit that changes something goes to a neighbouring community and raises the modularity by exactly twice
      the difference of the gains, which is more than the tolerance; one that does not leaves `u` near its best. */
  lemma VisitedRaises(g: Network, part: seq<nat>, u: nat)
    requires Valid(g) && |part| == |g.adj| && u < |part|
    ensures
      var after := Visited(g, part, u);
      if after == part then NearBest(g, part, u)
      else
        && after == part[u := after[u]] && after[u] in part && Touches(g.adj[u], part, u, after[u])
        && GainOf(g, part, u, after[u]) > GainOf(g, part, u, part[u]) + EPSILON
        && Quality(g, after) == Quality(g, part) + 2.0 * (GainOf(g, part, u, after[u]) - GainOf(g, part, u, part[u]))
  {
    ChosenIs(g, part, u);
    var c := Chosen(g, part, u);
    if c.best != part[u] {
      MoveGain(g, part, u, c.best);
    }
  }

  lemma AccumulatorsChoose(g: Network, part: seq<nat>, u: nat, kIn: map<nat, real>, sigma: map<nat, real>)
    requires Valid(g) && |part| == |g.adj| && u < |part| && Weighs(g.adj[u], part, u, kIn)
    requires TakenOut(g, part, u, sigma)
    ensures Scan(Listed(kIn.Keys), Scores(g, kIn, sigma, Strength(g.adj[u])), part[u]) == Chosen(g, part, u)
    ensures Gain(g, Get(kIn, part[u]), Get(sigma, part[u]), Strength(g.adj[u])) == GainOf(g, part, u, part[u])
  {
    var scores := Scores(g, kIn, sigma, Strength(g.adj[u]));
    forall c: nat
      ensures scores(c) == Gains(g, part, u)(c)
    {
      ScanSeesGains(g, part, u, kIn, sigma, c);
    }
    assert kIn.Keys == Neighbouring(g.adj[u], part, u);
    ScanAgrees(Listed(kIn.Keys), scores, Gains(g, part, u), part[u]);
  }

  /** The totals with `u` taken out of its community. */
  ghost predicate TakenOut(g: Network, part: seq<nat>, u: nat, sigma: map<nat, real>)
    requires |part| == |g.adj| && u < |part|
  {
    forall d: nat :: Get(sigma, d) == Sigma(g, part, d) - if part[u] == d then Strength(g.adj[u]) else 0.0
  }

  lemma TakeOut(g: Network, part: seq<nat>, u: nat, sigma: map<nat, real>)
    requires |part| == |g.adj| && u < |part| && SigmaTracks(g, part, sigma)
    ensures TakenOut(g, part, u, sigma[part[u] := Get(sigma, part[u]) - Strength(g.adj[u])])
  {
  }

  lemma PutBack(g: Network, part: seq<nat>, u: nat, sigma: map<nat, real>)
    requires |part| == |g.adj| && u < |part| && TakenOut(g, part, u, sigma)
    ensures SigmaTracks(g, part, sigma[part[u] := Get(sigma, part[u]) + Strength(g.adj[u])])
  {
  }

  /** Which community `u` should be in, and whether that beats staying. */
  method Decide(
    g: Network, kIn: map<nat, real>, sigma: map<nat, real>, su: real, cu: nat, ghost part: seq<nat>, ghost u: nat)
    returns (best: nat, moves: bool)
    requires Valid(g) && |part| == |g.adj| && u < |part| && su == Strength(g.adj[u]) && cu == part[u]
    requires Weighs(g.adj[u], part, u, kIn) && TakenOut(g, part, u, sigma)
    ensures moves ==> best != cu
    ensures Visited(g, part, u) == if moves then part[u := best] else part
  {
    var kicSelf := Get(kIn, cu);
    var keys := SortedKeys(kIn.Keys);
    var bestGain;
    best, bestGain := BestGain(g, keys, kIn, sigma, su, cu);
    var stayGain := Gain(g, kicSelf, Get(sigma, cu), su);
    AccumulatorsChoose(g, part, u, kIn, sigma);
    moves := best != cu && bestGain > stayGain + EPSILON;
  }

  /** Visits `u`, with the totals kept up to date instead of summed anew. */
  method VisitNode(g: Network, strength: seq<real>, partition: array<nat>, sigma0: map<nat, real>, u: nat)
    returns (sigma: map<nat, real>, moved: bool)
    requires Valid(g) && partition.Length == |g.adj| && u < |g.adj| && strength == Strengths(g.adj)
    requires SigmaTracks(g, partition[..], sigma0)
    modifies partition
    ensures SigmaTracks(g, partition[..], sigma)
    ensures partition[..] == Visited(g, old(partition[..]), u) && (moved <==> partition[..] != old(partition[..]))
  {
    ghost var part := partition[..];
    var cu := partition[u];
    var kIn := NeighbourWeights(g.adj[u], partition, u);
    var su := strength[u];
    TakeOut(g, part, u, sigma0);
    sigma := sigma0[cu := Get(sigma0, cu) - su];
    var best;
    best, moved := Decide(g, kIn, sigma, su, cu, part, u);
    if moved {
      SigmaMoved(g, part, u, best, sigma);
      partition[u] := best;
      sigma := sigma[best := Get(sigma, best) + su];
      assert partition[..] == part[u := best];
    } else {
      PutBack(g, part, u, sigma);
      sigma := sigma[cu := Get(sigma, cu) + su];
    }
  }

  // ----- the whole phase -----

  /** Every node below `n` once: the order in which nodes are visited. */
  ghost predicate IsOrder(order: seq<nat>, n: nat) {
    |order| == n && (forall k :: 0 <= k < n ==> order[k] < n) && (forall u: nat :: u < n ==> u in order)
  }

  lemma SwapKeepsOrder(order: seq<nat>, n: nat, i: nat, j: nat)
    requires IsOrder(order, n) && i < n && j < n
    ensures IsOrder(order[i := order[j]][j := order[i]], n)
  {
    var swapped := order[i := order[j]][j := order[i]];
    forall u: nat | u < n
      ensures u in swapped
    {
      assert u in order;
      var k :| 0 <= k < n && order[k] == u;
      assert swapped[if k == i then j else if k == j then i else k] == u;
    }
  }

  /** Every node its own community. */
  function Singletons(n: nat): (s: seq<nat>)
    ensures |s| == n && forall u :: 0 <= u < n ==> s[u] == u
  {
    seq(n, u requires u >= 0 => u)
  }

  /** The rest of a shuffle: from position i - 1 down, each is swapped with one drawn from those up to it. */
  ghost function Shuffled(order: seq<nat>, i: nat, draws: nat -> nat, at: nat): (r: seq<nat>)
    requires i <= |order|
    ensures |r| == |order|
    decreases i
  {
    if i <= 1 then order
    else
      var j := draws(at) % i;
      Shuffled(order[i - 1 := order[j]][j := order[i - 1]], i - 1, draws, at + 1)
  }

  /** The visiting order that the draws from a position on give. */
  ghost function OrderOf(n: nat, draws: nat -> nat, at: nat): (r: seq<nat>)
    ensures |r| == n
  {
    Shuffled(Singletons(n), n, draws, at)
  }

  /** The position of the generator after a shuffle. */
  function AfterShuffle(n: nat, at: nat): nat {
    if n == 0 then at else at + n - 1
  }

  lemma SingletonsOrder(n: nat)
    ensures IsOrder(Singletons(n), n)
  {
    forall u: nat | u < n
      ensures u in Singletons(n)
    {
      assert Singletons(n)[u] == u;
    }
  }

  lemma {:induction false} ShuffledIsOrder(order: seq<nat>, i: nat, draws: nat -> nat, at: nat)
    requires IsOrder(order, |order|) && i <= |order|
    ensures IsOrder(Shuffled(order, i, draws, at), |order|)
    decreases i
  {
    if i > 1 {
      var j := draws(at) % i;
      SwapKeepsOrder(order, |order|, i - 1, j);
      ShuffledIsOrder(order[i - 1 := order[j]][j := order[i - 1]], i - 1, draws, at + 1);
    }
  }

  /** Whatever the draws, every node is visited once. */
  lemma OrderIsOrder(n: nat, draws: nat -> nat, at: nat)
    ensures IsOrder(OrderOf(n, draws, at), n)
  {
    SingletonsOrder(n);
    ShuffledIsOrder(Singletons(n), n, draws, at);
  }

  /** The shuffle of the solver; `draws` stands for the random generator and `at` for its position. */
  method Shuffle(n: nat, draws: nat -> nat, at: nat) returns (order: seq<nat>, next: nat)
    ensures order == OrderOf(n, draws, at) && next == AfterShuffle(n, at) && IsOrder(order, n)
  {
    OrderIsOrder(n, draws, at);
    order, next := Singletons(n), at;
    var i: nat := n;
    while i > 1
      invariant i <= n == |order| && next + i == at + n && (n > 0 ==> i > 0)
      invariant Shuffled(order, i, draws, next) == OrderOf(n, draws, at)
    {
      i := i - 1;
      var j := draws(next) % (i + 1);
      next := next + 1;
      order := order[i := order[j]][j := order[i]];
    }
  }

  lemma MaskSnoc(x: seq<real>, part: seq<nat>, k: nat, c: nat)
    requires |x| == |part| && k < |x|
    ensures Sum(Mask(x[..k + 1], part[..k + 1], c)) ==
            Sum(Mask(x[..k], part[..k], c)) + if part[k] == c then x[k] else 0.0
  {
    var m := Mask(x[..k + 1], part[..k + 1], c);
    assert m == Mask(x[..k], part[..k], c) + [m[k]];
    SumSnoc(Mask(x[..k], part[..k], c), m[k]);
  }

  lemma TotalSnoc(x: seq<real>, part: seq<nat>, k: nat, sigma: map<nat, real>)
    requires |x| == |part| && k < |x|
    requires forall c: nat :: Get(sigma, c) == Sum(Mask(x[..k], part[..k], c))
    ensures
      var more := sigma[part[k] := Get(sigma, part[k]) + x[k]];
      forall c: nat :: Get(more, c) == Sum(Mask(x[..k + 1], part[..k + 1], c))
  {
    var more := sigma[part[k] := Get(sigma, part[k]) + x[k]];
    forall c: nat
      ensures Get(more, c) == Sum(Mask(x[..k + 1], part[..k + 1], c))
    {
      MaskSnoc(x, part, k, c);
    }
  }

  /** Summed strength of each community. */
  method SigmaTotals(g: Network, strength: seq<real>, partition: array<nat>) returns (sigma: map<nat, real>)
    requires partition.Length == |g.adj| && strength == Strengths(g.adj)
    ensures SigmaTracks(g, partition[..], sigma)
  {
    sigma := map[];
    ghost var part := partition[..];
    assert forall c: nat :: Mask(strength[..0], part[..0], c) == [];
    for k := 0 to partition.Length
      invariant forall c: nat :: Get(sigma, c) == Sum(Mask(strength[..k], part[..k], c))
    {
      TotalSnoc(strength, part, k, sigma);
      sigma := sigma[partition[k] := Get(sigma, partition[k]) + strength[k]];
    }
    assert strength[..|strength|] == strength && part[..|part|] == part;
  }

  /** The labels of `after` are among those of `before`. */
  ghost predicate LabelsAmong(after: seq<nat>, before: seq<nat>) {
    forall c :: c in after ==> c in before
  }

  /** What a sequence of `moves` accepted moves leads to: each raises the modularity by more than twice the
      tolerance. */
  ghost predicate Improved(g: Network, before: seq<nat>, after: seq<nat>, moves: nat)
    requires Valid(g) && |before| == |after| == |g.adj|
  {
    && Above(Quality(g, after), Quality(g, before) + Steps(2.0 * EPSILON, moves), moves)
    && LabelsAmong(after, before)
  }

  /** Every node is near its best. */
  ghost predicate Settled(g: Network, part: seq<nat>)
    requires Valid(g) && |part| == |g.adj|
  {
    forall u: nat :: u < |part| ==> NearBest(g, part, u)
  }

  /** A visit as a map from partitions to partitions. */
  ghost function VisitOf(g: Network): (seq<nat>, nat) -> seq<nat>
    requires Valid(g)
  {
    (p: seq<nat>, u: nat) => if |p| == |g.adj| && u < |p| then Visited(g, p, u) else p
  }

  ghost predicate From(g: Network, before: seq<nat>, p: seq<nat>) {
    |p| == |g.adj| && LabelsAmong(p, before)
  }

  ghost function Value(g: Network): seq<nat> -> real
    requires Valid(g)
  {
    (p: seq<nat>) => if |p| == |g.adj| then Quality(g, p) else 0.0
  }

  lemma VisitKeepsLabels(g: Network, before: seq<nat>, p: seq<nat>, u: nat)
    requires Valid(g) && From(g, before, p)
    ensures From(g, before, VisitOf(g)(p, u))
  {
    if u < |p| {
      VisitedRaises(g, p, u);
    }
  }

  lemma VisitRaisesValue(g: Network, p: seq<nat>, u: nat)
    requires Valid(g) && |p| == |g.adj| && VisitOf(g)(p, u) != p
    ensures |VisitOf(g)(p, u)| == |p| && Value(g)(VisitOf(g)(p, u)) > Value(g)(p) + 2.0 * EPSILON
  {
    VisitedRaises(g, p, u);
  }

  /** The partition after a pass. */
  ghost function Passed(g: Network, part: seq<nat>, order: seq<nat>): (r: seq<nat>)
    requires Valid(g) && |part| == |g.adj|
    ensures |r| == |part|
  {
    PassFrom(g, part, order);
    Folded(VisitOf(g), part, order, |order|)
  }

  /** How many visits of a pass move a node. */
  ghost function PassMoves(g: Network, part: seq<nat>, order: seq<nat>): nat
    requires Valid(g) && |part| == |g.adj|
  {
    Changes(VisitOf(g), part, order, |order|)
  }

  lemma PassFrom(g: Network, part: seq<nat>, order: seq<nat>)
    requires Valid(g) && |part| == |g.adj|
    ensures From(g, part, Folded(VisitOf(g), part, order, |order|))
  {
    forall p: seq<nat>, u: nat | From(g, part, p)
      ensures From(g, part, VisitOf(g)(p, u))
    {
      VisitKeepsLabels(g, part, p, u);
    }
    FoldKeeps(VisitOf(g), p => From(g, part, p), part, order, |order|);
  }

  /** Each move of a pass raises the modularity by more than twice the tolerance. */
  lemma PassImproves(g: Network, part: seq<nat>, order: seq<nat>)
    requires Valid(g) && |part| == |g.adj|
    ensures Improved(g, part, Passed(g, part, order), PassMoves(g, part, order))
  {
    PassFrom(g, part, order);
    PassRaises(g, part, order, |order|);
  }

  lemma PassRaises(g: Network, part: seq<nat>, order: seq<nat>, k: nat)
    requires Valid(g) && |part| == |g.adj| && k <= |order|
    ensures
      var c := Changes(VisitOf(g), part, order, k);
      Above(Value(g)(Folded(VisitOf(g), part, order, k)), Value(g)(part) + Steps(2.0 * EPSILON, c), c)
  {
    forall p: seq<nat>, u: nat | |p| == |g.adj|
      ensures |VisitOf(g)(p, u)| == |g.adj|
      ensures VisitOf(g)(p, u) != p ==> Value(g)(VisitOf(g)(p, u)) > Value(g)(p) + 2.0 * EPSILON
    {
      if VisitOf(g)(p, u) != p {
        VisitRaisesValue(g, p, u);
      }
    }
    FoldRises(VisitOf(g), (p: seq<nat>) => |p| == |g.adj|, Value(g), 2.0 * EPSILON, part, order, k);
  }

  /** A pass leaves the partition as it was just when no visit moves a node. */
  lemma PassIdleIff(g: Network, part: seq<nat>, order: seq<nat>)
    requires Valid(g) && |part| == |g.adj|
    ensures Passed(g, part, order) == part <==> PassMoves(g, part, order) == 0
  {
    PassImproves(g, part, order);
    if PassMoves(g, part, order) == 0 {
      IdleFold(VisitOf(g), part, order, |order|);
    } else {
      StepsPositive(2.0 * EPSILON, PassMoves(g, part, order));
    }
  }

  /** And then every node is near its best. */
  lemma IdlePassSettles(g: Network, part: seq<nat>, order: seq<nat>)
    requires Valid(g) && |part| == |g.adj| && IsOrder(order, |part|) && Passed(g, part, order) == part
    ensures Settled(g, part)
  {
    PassIdleIff(g, part, order);
    IdleFold(VisitOf(g), part, order, |order|);
    forall u: nat | u < |part|
      ensures NearBest(g, part, u)
    {
      assert u in order;
      var j :| 0 <= j < |order| && order[j] == u;
      assert VisitOf(g)(part, order[j]) == part;
      VisitedRaises(g, part, u);
    }
  }

  /** The next visit of a pass that began with `start`. */
  method VisitNext(
    g: Network, strength: seq<real>, partition: array<nat>, sigma0: map<nat, real>, order: seq<nat>, k: nat,
    ghost start: seq<nat>)
    returns (sigma: map<nat, real>, moved: bool)
    requires Valid(g) && partition.Length == |g.adj| && strength == Strengths(g.adj)
    requires k < |order| && order[k] < |g.adj| && SigmaTracks(g, partition[..], sigma0)
    requires partition[..] == Folded(VisitOf(g), start, order, k)
    modifies partition
    ensures SigmaTracks(g, partition[..], sigma)
    ensures partition[..] == Folded(VisitOf(g), start, order, k + 1)
    ensures Changes(VisitOf(g), start, order, k + 1) == Changes(VisitOf(g), start, order, k) + if moved then 1 else 0
  {
    sigma, moved := VisitNode(g, strength, partition, sigma0, order[k]);
  }

  /** One pass over all nodes. */
  method Pass(g: Network, strength: seq<real>, partition: array<nat>, order: seq<nat>, sigma0: map<nat, real>)
    returns (sigma: map<nat, real>, moved: bool)
    requires Valid(g) && partition.Length == |g.adj| && strength == Strengths(g.adj)
    requires IsOrder(order, |g.adj|) && SigmaTracks(g, partition[..], sigma0)
    modifies partition
    ensures SigmaTracks(g, partition[..], sigma)
    ensures partition[..] == Passed(g, old(partition[..]), order)
    ensures moved <==> partition[..] != old(partition[..])
  {
    sigma, moved := sigma0, false;
    for k := 0 to |order|
      invariant SigmaTracks(g, partition[..], sigma)
      invariant partition[..] == Folded(VisitOf(g), old(partition[..]), order, k)
      invariant moved <==> Changes(VisitOf(g), old(partition[..]), order, k) > 0
    {
      var now;
      sigma, now := VisitNext(g, strength, partition, sigma, order, k, old(partition[..]));
      if now {
        moved := true;
      }
    }
    PassIdleIff(g, old(partition[..]), order);
  }

  ghost function PassOf(g: Network, order: seq<nat>): seq<nat> -> seq<nat>
    requires Valid(g)
  {
    (p: seq<nat>) => if |p| == |g.adj| then Passed(g, p, order) else p
  }

  ghost function MovesOf(g: Network, order: seq<nat>): seq<nat> -> nat
    requires Valid(g)
  {
    (p: seq<nat>) => if |p| == |g.adj| then PassMoves(g, p, order) else 0
  }

  /** The partition after passes until one moves nothing, or so many of them. */
  ghost function LocalMoved(g: Network, part: seq<nat>, order: seq<nat>, passes: nat): (r: seq<nat>)
    requires Valid(g) && |part| == |g.adj|
    ensures |r| == |part|
  {
    UntilKeeps(PassOf(g, order), (p: seq<nat>) => |p| == |g.adj|, part, passes);
    Until(PassOf(g, order), part, passes)
  }

  /** How many moves those passes make. */
  ghost function LocalMoves(g: Network, part: seq<nat>, order: seq<nat>, passes: nat): nat
    requires Valid(g) && |part| == |g.adj|
  {
    UntilMoves(PassOf(g, order), MovesOf(g, order), part, passes)
  }

  lemma PassKeepsFrom(g: Network, part: seq<nat>, order: seq<nat>, p: seq<nat>)
    requires Valid(g) && From(g, part, p)
    ensures From(g, part, PassOf(g, order)(p))
  {
    PassFrom(g, p, order);
  }

  lemma LocalMovedFrom(g: Network, part: seq<nat>, order: seq<nat>, passes: nat)
    requires Valid(g) && |part| == |g.adj|
    ensures From(g, part, LocalMoved(g, part, order, passes))
  {
    forall p: seq<nat> | From(g, part, p)
      ensures From(g, part, PassOf(g, order)(p))
    {
      PassKeepsFrom(g, part, order, p);
    }
    UntilKeeps(PassOf(g, order), p => From(g, part, p), part, passes);
  }

  /** How many of those passes move something. */
  ghost function LocalPasses(g: Network, part: seq<nat>, order: seq<nat>, passes: nat): (k: nat)
    requires Valid(g) && |part| == |g.adj|
    ensures k <= passes
  {
    UntilPasses(PassOf(g, order), part, passes)
  }

  ghost function Fitting(g: Network): seq<nat> -> bool {
    (p: seq<nat>) => |p| == |g.adj|
  }

  lemma PassOfRises(g: Network, order: seq<nat>, p: seq<nat>)
    requires Valid(g) && Fitting(g)(p)
    ensures Fitting(g)(PassOf(g, order)(p))
    ensures PassRises(PassOf(g, order), MovesOf(g, order), Value(g), 2.0 * EPSILON, p)
  {
    PassImproves(g, p, order);
  }

  lemma PassesRise(g: Network, order: seq<nat>)
    requires Valid(g)
    ensures forall p: seq<nat> :: Fitting(g)(p) ==> Fitting(g)(PassOf(g, order)(p))
    ensures forall p: seq<nat> :: Fitting(g)(p) ==>
              PassRises(PassOf(g, order), MovesOf(g, order), Value(g), 2.0 * EPSILON, p)
  {
    forall p: seq<nat> | Fitting(g)(p)
      ensures Fitting(g)(PassOf(g, order)(p))
      ensures PassRises(PassOf(g, order), MovesOf(g, order), Value(g), 2.0 * EPSILON, p)
    {
      PassOfRises(g, order, p);
    }
  }

  lemma LocalMovedRises(g: Network, part: seq<nat>, order: seq<nat>, passes: nat)
    requires Valid(g) && |part| == |g.adj|
    ensures
      var m := LocalMoves(g, part, order, passes);
      Above(Value(g)(LocalMoved(g, part, order, passes)), Value(g)(part) + Steps(2.0 * EPSILON, m), m)
  {
    PassesRise(g, order);
    UntilRises(PassOf(g, order), MovesOf(g, order), Fitting(g), Value(g), 2.0 * EPSILON, part, passes);
  }

  /** Local moving that stopped before its cap, because a pass moved nothing, leaves every node near its best. */
  lemma LocalMovedSettles(g: Network, part: seq<nat>, order: seq<nat>, passes: nat)
    requires Valid(g) && |part| == |g.adj| && IsOrder(order, |part|)
    requires LocalPasses(g, part, order, passes) < passes
    ensures Settled(g, LocalMoved(g, part, order, passes))
  {
    UntilStops(PassOf(g, order), part, passes);
    IdlePassSettles(g, LocalMoved(g, part, order, passes), order);
  }

  /** Local moving raises the modularity by more than twice the tolerance for each move, and unless every pass it
      was allowed moved something, it leaves every node near its best. */
  lemma LocalMovedImproves(g: Network, part: seq<nat>, order: seq<nat>, passes: nat)
    requires Valid(g) && |part| == |g.adj| && IsOrder(order, |part|)
    ensures
      var r := LocalMoved(g, part, order, passes);
      && Improved(g, part, r, LocalMoves(g, part, order, passes))
      && (LocalPasses(g, part, order, passes) < passes ==> Settled(g, r))
  {
    LocalMovedFrom(g, part, order, passes);
    LocalMovedRises(g, part, order, passes);
    if LocalPasses(g, part, order, passes) < passes {
      LocalMovedSettles(g, part, order, passes);
    }
  }

  const MAX_PASSES: nat := 32

  lemma UntilStep(g: Network, order: seq<nat>, p: seq<nat>, left: nat)
    requires Valid(g) && |p| == |g.adj| && left > 0
    ensures Until(PassOf(g, order), p, left)
         == if Passed(g, p, order) == p then p else Until(PassOf(g, order), Passed(g, p, order), left - 1)
  {
  }

  /** What is left of local moving: nothing once a pass moved nothing. */
  ghost function Rest(g: Network, order: seq<nat>, part: seq<nat>, moved: bool, left: nat): seq<nat>
    requires Valid(g)
  {
    if moved then Until(PassOf(g, order), part, left) else part
  }

  method PassNext(
    g: Network, strength: seq<real>, partition: array<nat>, order: seq<nat>, sigma0: map<nat, real>, ghost left: nat)
    returns (sigma: map<nat, real>, moved: bool)
    requires Valid(g) && partition.Length == |g.adj| && strength == Strengths(g.adj) && left > 0
    requires IsOrder(order, |g.adj|) && SigmaTracks(g, partition[..], sigma0)
    modifies partition
    ensures SigmaTracks(g, partition[..], sigma)
    ensures Rest(g, order, partition[..], moved, left - 1) == Rest(g, order, old(partition[..]), true, left)
  {
    UntilStep(g, order, partition[..], left);
    sigma, moved := Pass(g, strength, partition, order, sigma0);
  }

  /** The passes of local moving. */
  method PassUntil(g: Network, strength: seq<real>, partition: array<nat>, order: seq<nat>)
    requires Valid(g) && partition.Length == |g.adj| && strength == Strengths(g.adj) && IsOrder(order, |g.adj|)
    modifies partition
    ensures partition[..] == LocalMoved(g, old(partition[..]), order, MAX_PASSES)
  {
    var sigma := SigmaTotals(g, strength, partition);
    ghost var goal := LocalMoved(g, partition[..], order, MAX_PASSES);
    var moved, passes: nat := true, 0;
    while moved && passes < MAX_PASSES
      invariant SigmaTracks(g, partition[..], sigma) && passes <= MAX_PASSES
      invariant goal == Rest(g, order, partition[..], moved, MAX_PASSES - passes)
      decreases MAX_PASSES - passes
    {
      sigma, moved := PassNext(g, strength, partition, order, sigma, MAX_PASSES - passes);
      passes := passes + 1;
    }
  }

  /** Local moving: passes until nothing moves, or thirty-two of them. */
  method LocalMove(g: Network, strength: seq<real>, partition: array<nat>, draws: nat -> nat, at: nat)
    returns (next: nat)
    requires Valid(g) && partition.Length == |g.adj| && strength == Strengths(g.adj)
    modifies partition
    ensures IsOrder(OrderOf(|g.adj|, draws, at), |g.adj|) && next == AfterShuffle(|g.adj|, at)
    ensures partition[..] == LocalMoved(g, old(partition[..]), OrderOf(|g.adj|, draws, at), MAX_PASSES)
    ensures
      var order := OrderOf(|g.adj|, draws, at);
      && Improved(g, old(partition[..]), partition[..], LocalMoves(g, old(partition[..]), order, MAX_PASSES))
      && (LocalPasses(g, old(partition[..]), order, MAX_PASSES) < MAX_PASSES ==> Settled(g, partition[..]))
  {
    var order;
    order, next := Shuffle(|g.adj|, draws, at);
    LocalMovedImproves(g, partition[..], order, MAX_PASSES);
    PassUntil(g, strength, partition, order);
  }
}
