/** A state that visits in some order change one after the other. */
module Folds {

  /** The state after the first k visits. */
  ghost function Folded<S>(visit: (S, nat) -> S, s: S, order: seq<nat>, k: nat): S
    requires k <= |order|
  {
    if k == 0 then s else visit(Folded(visit, s, order, k - 1), order[k - 1])
  }

  /** How many of the first k visits change it. */
  ghost function Changes<S>(visit: (S, nat) -> S, s: S, order: seq<nat>, k: nat): (c: nat)
    requires k <= |order|
    ensures c <= k
  {
    if k == 0 then 0
    else
      Changes(visit, s, order, k - 1)
      + if Folded(visit, s, order, k) == Folded(visit, s, order, k - 1) then 0 else 1
  }

  /** Without a change, the state stays and every visit alone would leave it. */
  lemma {:induction false} IdleFold<S>(visit: (S, nat) -> S, s: S, order: seq<nat>, k: nat)
    requires k <= |order| && Changes(visit, s, order, k) == 0
    ensures Folded(visit, s, order, k) == s && forall j :: 0 <= j < k ==> visit(s, order[j]) == s
  {
    if k > 0 {
      IdleFold(visit, s, order, k - 1);
    }
  }

  /** What every visit keeps holds at the end. */
  lemma {:induction false} FoldKeeps<S>(visit: (S, nat) -> S, inv: S -> bool, s: S, order: seq<nat>, k: nat)
    requires k <= |order| && inv(s) && forall t, u :: inv(t) ==> inv(visit(t, u))
    ensures inv(Folded(visit, s, order, k))
  {
    if k > 0 {
      FoldKeeps(visit, inv, s, order, k - 1);
    }
  }

  /** The states before, between and after the visits. */
  ghost predicate Trace<S>(visit: (S, nat) -> S, s: S, order: seq<nat>, trace: seq<S>) {
    && |trace| == |order| + 1 && trace[0] == s
    && forall k :: 0 <= k < |order| ==> trace[k + 1] == visit(trace[k], order[k])
  }

  lemma {:induction false} TraceTo<S>(visit: (S, nat) -> S, inv: S -> bool, s: S, order: seq<nat>, k: nat)
    returns (trace: seq<S>)
    requires k <= |order| && inv(s) && forall t, u :: inv(t) ==> inv(visit(t, u))
    ensures Trace(visit, s, order[..k], trace) && trace[k] == Folded(visit, s, order, k)
    ensures forall j :: 0 <= j <= k ==> inv(trace[j])
  {
    trace := [s];
    if k > 0 {
      trace := TraceTo(visit, inv, s, order, k - 1);
      trace := trace + [visit(trace[k - 1], order[k - 1])];
    }
  }

  /** Every visit of the order is made once, in turn; what every visit keeps holds all the way. */
  lemma FoldTrace<S>(visit: (S, nat) -> S, inv: S -> bool, s: S, order: seq<nat>) returns (trace: seq<S>)
    requires inv(s) && forall t, u :: inv(t) ==> inv(visit(t, u))
    ensures Trace(visit, s, order, trace) && trace[|order|] == Folded(visit, s, order, |order|)
    ensures forall k :: 0 <= k <= |order| ==> inv(trace[k])
  {
    trace := TraceTo(visit, inv, s, order, |order|);
    assert order[..|order|] == order;
  }

  ghost function Steps(step: real, n: nat): real {
    if n == 0 then 0.0 else Steps(step, n - 1) + step
  }

  lemma {:induction false} StepsAre(step: real, n: nat)
    ensures Steps(step, n) == step * n as real
  {
    if n > 0 {
      StepsAre(step, n - 1);
      OneMore(step, n - 1);
    }
  }

  lemma OneMore(step: real, c: nat)
    ensures step * (c + 1) as real == step * c as real + step
  {
  }

  /** If a visit that changes the state raises its value by at least `step`, which may be negative, all of them
      raise it by as many steps as there are changes. */
  lemma {:induction false} FoldRaises<S>(
    visit: (S, nat) -> S, inv: S -> bool, value: S -> real, step: real, s: S, order: seq<nat>, k: nat)
    requires k <= |order| && inv(s) && forall t, u :: inv(t) ==> inv(visit(t, u))
    requires forall t, u :: inv(t) && visit(t, u) != t ==> value(visit(t, u)) >= value(t) + step
    ensures value(Folded(visit, s, order, k)) >= value(s) + Steps(step, Changes(visit, s, order, k))
  {
    if k > 0 {
      FoldKeeps(visit, inv, s, order, k - 1);
      FoldRaises(visit, inv, value, step, s, order, k - 1);
    }
  }

  /** At least y, and more than that if anything moved. */
  ghost predicate Above(x: real, y: real, moves: nat) {
    x >= y && (moves > 0 ==> x > y)
  }

  /** If a visit that changes the state raises its value by more than `step`, all of them raise it by more than as
      many steps as there are changes, if there are any. */
  lemma {:induction false} FoldRises<S>(
    visit: (S, nat) -> S, inv: S -> bool, value: S -> real, step: real, s: S, order: seq<nat>, k: nat)
    requires k <= |order| && inv(s) && forall t, u :: inv(t) ==> inv(visit(t, u))
    requires forall t, u :: inv(t) && visit(t, u) != t ==> value(visit(t, u)) > value(t) + step
    ensures
      var c := Changes(visit, s, order, k);
      Above(value(Folded(visit, s, order, k)), value(s) + Steps(step, c), c)
  {
    if k > 0 {
      FoldKeeps(visit, inv, s, order, k - 1);
      FoldRises(visit, inv, value, step, s, order, k - 1);
    }
  }

  lemma {:induction false} StepsPositive(step: real, n: nat)
    requires step > 0.0 && n > 0
    ensures Steps(step, n) > 0.0
  {
    if n > 1 {
      StepsPositive(step, n - 1);
    }
  }

  lemma {:induction false} StepsAdd(step: real, m: nat, n: nat)
    ensures Steps(step, m + n) == Steps(step, m) + Steps(step, n)
  {
    if n > 0 {
      StepsAdd(step, m, n - 1);
    }
  }

  /** A pass repeated until it changes nothing, or so many times. */
  ghost function Until<S>(pass: S -> S, s: S, n: nat): S
    decreases n
  {
    if n == 0 || pass(s) == s then s else Until(pass, pass(s), n - 1)
  }

  /** The moves that those passes make. */
  ghost function UntilMoves<S>(pass: S -> S, moves: S -> nat, s: S, n: nat): nat
    decreases n
  {
    if n == 0 || pass(s) == s then 0 else moves(s) + UntilMoves(pass, moves, pass(s), n - 1)
  }

  lemma {:induction false} UntilKeeps<S>(pass: S -> S, inv: S -> bool, s: S, n: nat)
    requires inv(s) && forall t :: inv(t) ==> inv(pass(t))
    ensures inv(Until(pass, s, n))
    decreases n
  {
    if n > 0 && pass(s) != s {
      UntilKeeps(pass, inv, pass(s), n - 1);
    }
  }

  /** The moves of a pass raise the value by more than a step each. */
  ghost predicate PassRises<S>(pass: S -> S, moves: S -> nat, value: S -> real, step: real, s: S) {
    Above(value(pass(s)), value(s) + Steps(step, moves(s)), moves(s))
  }

  /** If the moves of a pass raise the value by more than a step each, so do they all together. */
  lemma {:induction false} UntilRises<S>(
    pass: S -> S, moves: S -> nat, inv: S -> bool, value: S -> real, step: real, s: S, n: nat)
    requires inv(s) && forall t :: inv(t) ==> inv(pass(t))
    requires forall t :: inv(t) ==> PassRises(pass, moves, value, step, t)
    ensures
      var m := UntilMoves(pass, moves, s, n);
      Above(value(Until(pass, s, n)), value(s) + Steps(step, m), m)
    decreases n
  {
    if n > 0 && pass(s) != s {
      assert PassRises(pass, moves, value, step, s);
      UntilRises(pass, moves, inv, value, step, pass(s), n - 1);
      StepsAdd(step, moves(s), UntilMoves(pass, moves, pass(s), n - 1));
    }
  }

  /** How many of those passes change something. */
  ghost function UntilPasses<S>(pass: S -> S, s: S, n: nat): (k: nat)
    ensures k <= n
    decreases n
  {
    if n == 0 || pass(s) == s then 0 else 1 + UntilPasses(pass, pass(s), n - 1)
  }

  /** Unless every pass allowed changed something, another one would change nothing. */
  lemma {:induction false} UntilStops<S>(pass: S -> S, s: S, n: nat)
    ensures UntilPasses(pass, s, n) < n ==> pass(Until(pass, s, n)) == Until(pass, s, n)
    decreases n
  {
    if n > 0 && pass(s) != s {
      UntilStops(pass, pass(s), n - 1);
    }
  }

  /** The pass made k times. */
  ghost function Times<S>(pass: S -> S, s: S, k: nat): S {
    if k == 0 then s else pass(Times(pass, s, k - 1))
  }

  lemma {:induction false} TimesShift<S>(pass: S -> S, s: S, k: nat)
    ensures Times(pass, pass(s), k) == Times(pass, s, k + 1)
  {
    if k > 0 {
      TimesShift(pass, s, k - 1);
    }
  }

  /** `r` comes of `k` passes that each change something; fewer than `n` of them only if one more would not. */
  ghost predicate StoppedAfter<S>(pass: S -> S, s: S, n: nat, k: nat, r: S) {
    && k <= n && r == Times(pass, s, k)
    && (forall i :: 0 <= i < k ==> pass(Times(pass, s, i)) != Times(pass, s, i))
    && (k < n ==> pass(r) == r)
  }

  lemma {:induction false} UntilIs<S>(pass: S -> S, s: S, n: nat)
    ensures StoppedAfter(pass, s, n, UntilPasses(pass, s, n), Until(pass, s, n))
    decreases n
  {
    if n > 0 && pass(s) != s {
      UntilIs(pass, pass(s), n - 1);
      var k := UntilPasses(pass, pass(s), n - 1);
      TimesShift(pass, s, k);
      forall i: nat | i <= k
        ensures pass(Times(pass, s, i)) != Times(pass, s, i)
      {
        if i > 0 {
          TimesShift(pass, s, i - 1);
          assert pass(Times(pass, pass(s), i - 1)) != Times(pass, pass(s), i - 1);
        }
      }
    }
  }

  // ----- functions under another name -----

  /** The two functions are the same; a proof that has no use for what they compute need not look. */
  ghost predicate Same<A, B, C>(f: (A, B) -> C, h: (A, B) -> C, seal: nat) {
    if seal == 0 then f == h else Same(f, h, seal - 1)
  }

  lemma Seal<A, B, C>(h: (A, B) -> C) returns (f: (A, B) -> C, seal: nat)
    ensures Same(f, h, seal)
  {
    f, seal := h, 0;
  }

  lemma {:induction false} Unseal<A, B, C>(f: (A, B) -> C, h: (A, B) -> C, seal: nat)
    requires Same(f, h, seal)
    ensures f == h
  {
    if seal > 0 {
      Unseal(f, h, seal - 1);
    }
  }
}
