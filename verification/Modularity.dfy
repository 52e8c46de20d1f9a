/**
 * Weighted graphs as brain/src/leiden.rs holds them, the all-pairs modularity of a partition, and what
 * moving one node does to it.
 */
module Modularity {
  import opened Numbers
  import opened Sums

  /** An entry of an adjacency row: neighbour and weight. */
  type Entry = (nat, real)

  datatype Network = Network(adj: seq<seq<Entry>>, twoM: real, gamma: real)

  ghost predicate RowsInRange(adj: seq<seq<Entry>>) {
    forall u, e :: 0 <= u < |adj| && e in adj[u] ==> e.0 < |adj|
  }

  /** Weight from the owner of `row` to each of `n` nodes. */
  ghost function Weights(row: seq<Entry>, n: nat): (w: seq<real>)
    requires forall e :: e in row ==> e.0 < n
    ensures |w| == n
  {
    if row == [] then seq(n, i => 0.0)
    else
      var e := row[|row| - 1];
      var w := Weights(row[..|row| - 1], n);
      assert e in row;
      w[e.0 := w[e.0] + e.1]
  }

  /** Summed weight of the entries of `row`. */
  ghost function Strength(row: seq<Entry>): real {
    if row == [] then 0.0 else Strength(row[..|row| - 1]) + row[|row| - 1].1
  }

  ghost function Strengths(adj: seq<seq<Entry>>): (s: seq<real>)
    ensures |s| == |adj|
  {
    seq(|adj|, u requires 0 <= u < |adj| => Strength(adj[u]))
  }

  ghost predicate Symmetric(adj: seq<seq<Entry>>) {
    RowsInRange(adj) &&
    forall u, v :: 0 <= u < |adj| && 0 <= v < |adj| ==> Weights(adj[u], |adj|)[v] == Weights(adj[v], |adj|)[u]
  }

  ghost predicate Valid(g: Network) {
    Symmetric(g.adj) && g.twoM > 0.0
  }

  /** The gain formula of the solver: weight `k` into a community of total strength `st`, for a node of
      strength `su`. */
  function Gain(g: Network, k: real, st: real, su: real): real
    requires g.twoM > 0.0
  {
    k / g.twoM - g.gamma * st * su / (g.twoM * g.twoM)
  }

  /** The entry of the modularity matrix between two nodes. */
  ghost function Bond(g: Network, u: nat, v: nat): real
    requires Valid(g) && u < |g.adj| && v < |g.adj|
  {
    Gain(g, Weights(g.adj[u], |g.adj|)[v], Strength(g.adj[v]), Strength(g.adj[u]))
  }

  ghost function Bonds(g: Network, u: nat): (b: seq<real>)
    requires Valid(g) && u < |g.adj|
    ensures |b| == |g.adj|
  {
    seq(|g.adj|, v requires 0 <= v < |g.adj| => Bond(g, u, v))
  }

  /** `x` restricted to the members of community `c`. */
  ghost function Mask(x: seq<real>, part: seq<nat>, c: nat): (m: seq<real>)
    requires |x| == |part|
    ensures |m| == |x|
  {
    seq(|x|, v requires 0 <= v < |x| => if part[v] == c then x[v] else 0.0)
  }

  /** Summed bond of `u` to community `c`. */
  ghost function Pull(g: Network, part: seq<nat>, u: nat, c: nat): real
    requires Valid(g) && |part| == |g.adj| && u < |part|
  {
    Sum(Mask(Bonds(g, u), part, c))
  }

  ghost function Pulls(g: Network, part: seq<nat>): (p: seq<real>)
    requires Valid(g) && |part| == |g.adj|
    ensures |p| == |part|
  {
    seq(|part|, u requires 0 <= u < |part| => Pull(g, part, u, part[u]))
  }

  /** All-pairs modularity: the bonds between all ordered pairs of nodes sharing a community. */
  ghost function Quality(g: Network, part: seq<nat>): real
    requires Valid(g) && |part| == |g.adj|
  {
    Sum(Pulls(g, part))
  }

  lemma BondSymmetric(g: Network, u: nat, v: nat)
    requires Valid(g) && u < |g.adj| && v < |g.adj|
    ensures Bond(g, u, v) == Bond(g, v, u)
  {
    var a, b := Strength(g.adj[u]), Strength(g.adj[v]);
    assert g.gamma * b * a == g.gamma * a * b;
  }

  /** The pull of another node on its own community after `u` moves to `c`. */
  lemma OtherPull(g: Network, part: seq<nat>, u: nat, c: nat, x: nat)
    requires Valid(g) && |part| == |g.adj| && u < |part| && x < |part| && x != u && c != part[u]
    ensures Pull(g, part[u := c], x, part[x]) ==
            Pull(g, part, x, part[x]) + Mask(Bonds(g, u), part, c)[x] - Mask(Bonds(g, u), part, part[u])[x]
  {
    BondSymmetric(g, u, x);
    var m := Mask(Bonds(g, x), part, part[x]);
    var y := if part[x] == c then Bond(g, x, u) else 0.0;
    assert Mask(Bonds(g, x), part[u := c], part[x]) == m[u := y];
    SumUpdate(m, u, y);
  }

  /** The pull of `u` on its new community, itself included. */
  lemma MovedPull(g: Network, part: seq<nat>, u: nat, c: nat)
    requires Valid(g) && |part| == |g.adj| && u < |part| && c != part[u]
    ensures Pull(g, part[u := c], u, c) == Pull(g, part, u, c) + Bond(g, u, u)
  {
    var m := Mask(Bonds(g, u), part, c);
    assert Mask(Bonds(g, u), part[u := c], c) == m[u := Bond(g, u, u)];
    SumUpdate(m, u, Bond(g, u, u));
  }

  /** Moving `u` into `c` changes the quality by twice the difference of its pulls, itself left out. */
  lemma MoveChangesQuality(g: Network, part: seq<nat>, u: nat, c: nat)
    requires Valid(g) && |part| == |g.adj| && u < |part| && c != part[u]
    ensures Quality(g, part[u := c]) ==
            Quality(g, part) + 2.0 * (Pull(g, part, u, c) - (Pull(g, part, u, part[u]) - Bond(g, u, u)))
  {
    var cu := part[u];
    var before, after := Pulls(g, part), Pulls(g, part[u := c]);
    var joined, left := Mask(Bonds(g, u), part, c), Mask(Bonds(g, u), part, cu);
    var change := seq(|part|, x requires 0 <= x < |part| => joined[x] - left[x]);
    SumAdd(change, left, joined);
    var own := Pull(g, part, u, c) + Bond(g, u, u) - Pull(g, part, u, cu);
    MovedPull(g, part, u, c);
    forall x | 0 <= x < |part|
      ensures after[x] == before[x] + change[u := own][x]
    {
      if x != u {
        OtherPull(g, part, u, c, x);
      }
    }
    SumAdd(before, change[u := own], after);
    SumUpdate(change, u, own);
    assert change[u] == -Bond(g, u, u);
  }

  /** Summed weight of the entries of `row` leading to members of `c` other than `u`. */
  ghost function Into(row: seq<Entry>, part: seq<nat>, u: nat, c: nat): real
    requires forall e :: e in row ==> e.0 < |part|
  {
    if row == [] then 0.0
    else
      var e := row[|row| - 1];
      assert e in row;
      Into(row[..|row| - 1], part, u, c) + if e.0 != u && part[e.0] == c then e.1 else 0.0
  }

  /** Summed strength of the members of `c`. */
  ghost function Sigma(g: Network, part: seq<nat>, c: nat): real
    requires |part| == |g.adj|
  {
    Sum(Mask(Strengths(g.adj), part, c))
  }

  /** The gain of placing `u` in `c`, with `u` taken out of its own community first. */
  ghost function GainOf(g: Network, part: seq<nat>, u: nat, c: nat): real
    requires Valid(g) && |part| == |g.adj| && u < |part|
  {
    var su := Strength(g.adj[u]);
    Gain(g, Into(g.adj[u], part, u, c), Sigma(g, part, c) - if part[u] == c then su else 0.0, su)
  }

  lemma DivideSum(x: real, y: real, t: real)
    requires t > 0.0
    ensures (x + y) / t == x / t + y / t
  {
  }

  lemma Distribute(a: real, x: real, y: real, b: real)
    ensures a * (x + y) * b == a * x * b + a * y * b
    ensures a * 0.0 * b == 0.0
  {
  }

  lemma SquareOf(x: real) returns (t: real)
    requires x > 0.0
    ensures t == x * x && t > 0.0
  {
    t := x * x;
    ProductPositive(x, x, t);
  }

  lemma GainAddsOver(m: real, t: real, gamma: real, k1: real, k2: real, s1: real, s2: real, su: real)
    requires m > 0.0 && t > 0.0
    ensures (k1 + k2) / m - gamma * (s1 + s2) * su / t
            == (k1 / m - gamma * s1 * su / t) + (k2 / m - gamma * s2 * su / t)
    ensures 0.0 / m - gamma * 0.0 * su / t == 0.0
  {
    Distribute(gamma, s1, s2, su);
    DivideSum(gamma * s1 * su, gamma * s2 * su, t);
    DivideSum(k1, k2, m);
  }

  lemma GainAdds(g: Network, k1: real, k2: real, s1: real, s2: real, su: real)
    requires g.twoM > 0.0
    ensures Gain(g, k1 + k2, s1 + s2, su) == Gain(g, k1, s1, su) + Gain(g, k2, s2, su)
    ensures Gain(g, 0.0, 0.0, su) == 0.0
  {
    var t := SquareOf(g.twoM);
    GainAddsOver(g.twoM, t, g.gamma, k1, k2, s1, s2, su);
  }

  lemma {:induction false} GainSums(g: Network, w: seq<real>, s: seq<real>, b: seq<real>, su: real)
    requires g.twoM > 0.0 && |w| == |s| == |b|
    requires forall v :: 0 <= v < |b| ==> b[v] == Gain(g, w[v], s[v], su)
    ensures Sum(b) == Gain(g, Sum(w), Sum(s), su)
  {
    if b == [] {
      GainAdds(g, 0.0, 0.0, 0.0, 0.0, su);
    } else {
      var n := |b| - 1;
      GainSums(g, w[..n], s[..n], b[..n], su);
      GainAdds(g, Sum(w[..n]), w[n], Sum(s[..n]), s[n], su);
    }
  }

  lemma {:induction false} IntoIsMasked(row: seq<Entry>, part: seq<nat>, u: nat, c: nat)
    requires (forall e :: e in row ==> e.0 < |part|) && u < |part|
    ensures Into(row, part, u, c) ==
            Sum(Mask(Weights(row, |part|), part, c)) - if part[u] == c then Weights(row, |part|)[u] else 0.0
  {
    var m := Mask(Weights(row, |part|), part, c);
    if row == [] {
      SumZeros(m);
    } else {
      var init, e := row[..|row| - 1], row[|row| - 1];
      assert e in row;
      IntoIsMasked(init, part, u, c);
      var m0 := Mask(Weights(init, |part|), part, c);
      assert m == m0[e.0 := m[e.0]];
      SumUpdate(m0, e.0, m[e.0]);
    }
  }

  /** The gain formula, fed with the accumulated weights and strengths, is the pull without `u` itself. */
  lemma GainIsPull(g: Network, part: seq<nat>, u: nat, c: nat)
    requires Valid(g) && |part| == |g.adj| && u < |part|
    ensures GainOf(g, part, u, c) == Pull(g, part, u, c) - if part[u] == c then Bond(g, u, u) else 0.0
  {
    var n, su := |part|, Strength(g.adj[u]);
    var w, s := Mask(Weights(g.adj[u], n), part, c), Mask(Strengths(g.adj), part, c);
    GainAdds(g, 0.0, 0.0, 0.0, 0.0, su);
    GainSums(g, w, s, Mask(Bonds(g, u), part, c), su);
    IntoIsMasked(g.adj[u], part, u, c);
    if part[u] == c {
      GainAdds(g, Sum(w) - w[u], w[u], Sum(s) - su, su, su);
    }
  }

  /** A move changes the all-pairs modularity by exactly twice the difference of the two gains. */
  lemma MoveGain(g: Network, part: seq<nat>, u: nat, c: nat)
    requires Valid(g) && |part| == |g.adj| && u < |part| && c != part[u]
    ensures Quality(g, part[u := c]) == Quality(g, part) + 2.0 * (GainOf(g, part, u, c) - GainOf(g, part, u, part[u]))
  {
    MoveChangesQuality(g, part, u, c);
    GainIsPull(g, part, u, c);
    GainIsPull(g, part, u, part[u]);
  }

  /** A move takes the strength of `u` from its community to the new one. */
  lemma MoveSigma(g: Network, part: seq<nat>, u: nat, c: nat, d: nat)
    requires |part| == |g.adj| && u < |part| && c != part[u]
    ensures var su := Strength(g.adj[u]);
      Sigma(g, part[u := c], d) == Sigma(g, part, d) + if d == c then su else if d == part[u] then -su else 0.0
  {
    var s := Strengths(g.adj);
    var m := Mask(s, part, d);
    var y := if d == c then s[u] else 0.0;
    assert Mask(s, part[u := c], d) == m[u := y];
    SumUpdate(m, u, y);
  }
}
