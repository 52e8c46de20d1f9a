/** Greedy packing of ranked candidates into a token budget, as in brain/src/retrieve.rs. */
module Packer {
  import opened Numbers

  const CHARS_PER_TOKEN: nat := 4

  /** A candidate and the size of its text in bytes. */
  datatype Candidate<Id> = Candidate(id: Id, size: nat)

  /** `estimate_tokens`, with the `as u32` cast. */
  function Estimate(size: nat): nat {
    if size == 0 then 0 else (size + CHARS_PER_TOKEN - 1) / CHARS_PER_TOKEN % U32
  }

  /** The estimate is the size in units of four bytes, rounded up, as long as that fits. */
  lemma EstimateRoundsUp(size: nat)
    requires size <= CHARS_PER_TOKEN * (U32 - 1)
    ensures CHARS_PER_TOKEN * Estimate(size) - 4 < size <= CHARS_PER_TOKEN * Estimate(size)
    ensures Estimate(size) == 0 <==> size == 0
  {
    var q := (size + 3) / 4;
    assert q < U32 && q % U32 == q;
  }

  /** Addition of two u32 values as a release build does it. */
  function Add32(a: nat, b: nat): nat {
    if a + b < U32 then a + b else a + b - U32
  }

  datatype Packing = Packing(picks: seq<nat>, used: nat)

  /** Positions of the candidates that are packed, given their costs, from one position on with some budget
      used, and what is used in the end. */
  function Greedy(costs: seq<nat>, budget: nat, at: nat, used: nat): (r: Packing)
    requires at <= |costs|
    ensures forall i :: 0 <= i < |r.picks| ==> r.picks[i] < |costs|
    decreases |costs| - at
  {
    if at == |costs| then Packing([], used)
    else
      var now := Add32(used, costs[at]);
      if now > budget then Greedy(costs, budget, at + 1, used)
      else if now >= budget then Packing([at], now)
      else
        var rest := Greedy(costs, budget, at + 1, now);
        Packing([at] + rest.picks, rest.used)
  }

  ghost function Total(costs: seq<nat>, picks: seq<nat>): nat
    requires forall i :: 0 <= i < |picks| ==> picks[i] < |costs|
  {
    if picks == [] then 0 else costs[picks[0]] + Total(costs, picks[1..])
  }

  ghost predicate Rising(picks: seq<nat>, from: nat, to: nat) {
    && (forall i :: 0 <= i < |picks| ==> from <= picks[i] < to)
    && (forall i, j :: 0 <= i < j < |picks| ==> picks[i] < picks[j])
  }

  /** Every candidate left out from a position on costs more than what is left of the budget, or nothing. */
  ghost predicate NothingFits(costs: seq<nat>, budget: nat, at: nat, picks: seq<nat>, used: nat) {
    forall i :: at <= i < |costs| && i !in picks && costs[i] > 0 ==> used + costs[i] > budget
  }

  lemma RisingCons(at: nat, rest: seq<nat>, to: nat)
    requires Rising(rest, at + 1, to) && at < to
    ensures Rising([at] + rest, at, to)
  {
  }

  lemma NothingFitsCons(costs: seq<nat>, budget: nat, at: nat, rest: seq<nat>, used: nat)
    requires at < |costs| && NothingFits(costs, budget, at + 1, rest, used)
    ensures NothingFits(costs, budget, at, [at] + rest, used)
    ensures used + costs[at] > budget ==> NothingFits(costs, budget, at, rest, used)
  {
    forall i | at <= i < |costs| && i !in [at] + rest && costs[i] > 0
      ensures used + costs[i] > budget
    {
      assert at in [at] + rest;
    }
  }

  lemma TotalCons(costs: seq<nat>, at: nat, rest: seq<nat>)
    requires at < |costs| && forall i :: 0 <= i < |rest| ==> rest[i] < |costs|
    ensures Total(costs, [at] + rest) == costs[at] + Total(costs, rest)
  {
    assert ([at] + rest)[1..] == rest;
  }

  /** How many of the picks make the 32-bit sum wrap. */
  ghost function Wraps(costs: seq<nat>, budget: nat, at: nat, used: nat): nat
    requires at <= |costs|
    decreases |costs| - at
  {
    if at == |costs| then 0
    else
      var now := Add32(used, costs[at]);
      if now > budget then Wraps(costs, budget, at + 1, used)
      else
        (if used + costs[at] < U32 then 0 else 1) + if now >= budget then 0 else Wraps(costs, budget, at + 1, now)
  }

  /** What the picks cost is what is reported as used, plus 2^32 for every wrap. */
  lemma {:induction false} UsedPlusWraps(costs: seq<nat>, budget: nat, at: nat, used: nat)
    requires at <= |costs|
    ensures
      var r := Greedy(costs, budget, at, used);
      used + Total(costs, r.picks) == r.used + U32 * Wraps(costs, budget, at, used)
    decreases |costs| - at
  {
    if at < |costs| {
      var now := Add32(used, costs[at]);
      if now > budget {
        UsedPlusWraps(costs, budget, at + 1, used);
      } else if now < budget {
        UsedPlusWraps(costs, budget, at + 1, now);
        TotalCons(costs, at, Greedy(costs, budget, at + 1, now).picks);
      } else {
        assert [at] + [] == [at];
        TotalCons(costs, at, []);
      }
    }
  }

  /** The tokens reported are those of the hits if and only if no pick wraps the sum. */
  lemma UsedExactIff(costs: seq<nat>, budget: nat)
    ensures
      var r := Greedy(costs, budget, 0, 0);
      r.used == Total(costs, r.picks) <==> Wraps(costs, budget, 0, 0) == 0
  {
    UsedPlusWraps(costs, budget, 0, 0);
  }

  lemma {:induction false} UsedWithinBudget(costs: seq<nat>, budget: nat, at: nat, used: nat)
    requires at <= |costs| && used <= budget
    ensures Greedy(costs, budget, at, used).used <= budget
    decreases |costs| - at
  {
    if at < |costs| {
      var now := Add32(used, costs[at]);
      if now > budget {
        UsedWithinBudget(costs, budget, at + 1, used);
      } else if now < budget {
        UsedWithinBudget(costs, budget, at + 1, now);
      }
    }
  }

  /** The hits cost no more than the budget if and only if no pick wraps the sum. */
  lemma WithinBudgetIff(costs: seq<nat>, budget: nat)
    requires budget < U32
    ensures Total(costs, Greedy(costs, budget, 0, 0).picks) <= budget <==> Wraps(costs, budget, 0, 0) == 0
  {
    UsedPlusWraps(costs, budget, 0, 0);
    UsedWithinBudget(costs, budget, 0, 0);
  }

  /** When no pick wraps, the picks are in order, the budget used is what they cost and no more than there is,
      and nothing is left out that would still fit, unless it costs nothing. */
  lemma {:induction false} GreedyPacks(costs: seq<nat>, budget: nat, at: nat, used: nat)
    requires at <= |costs| && used <= budget < U32 && Wraps(costs, budget, at, used) == 0
    ensures
      var r := Greedy(costs, budget, at, used);
      && Rising(r.picks, at, |costs|)
      && r.used == used + Total(costs, r.picks) <= budget
      && NothingFits(costs, budget, at, r.picks, r.used)
    decreases |costs| - at
  {
    if at < |costs| {
      var now := Add32(used, costs[at]);
      if now > budget {
        GreedyPacks(costs, budget, at + 1, used);
        var rest := Greedy(costs, budget, at + 1, used);
        NothingFitsCons(costs, budget, at, rest.picks, rest.used);
      } else if now < budget {
        GreedyPacks(costs, budget, at + 1, now);
        var rest := Greedy(costs, budget, at + 1, now);
        RisingCons(at, rest.picks, |costs|);
        TotalCons(costs, at, rest.picks);
        NothingFitsCons(costs, budget, at, rest.picks, rest.used);
      } else {
        assert [at] + [] == [at];
        TotalCons(costs, at, []);
      }
    }
  }

  /** It is enough that the budget and any one estimate fit 32 bits together. */
  lemma {:induction false} SmallCostsDoNotWrap(costs: seq<nat>, budget: nat, at: nat, used: nat)
    requires at <= |costs| && used <= budget && forall i :: 0 <= i < |costs| ==> budget + costs[i] < U32
    ensures Wraps(costs, budget, at, used) == 0
    decreases |costs| - at
  {
    if at < |costs| {
      var now := Add32(used, costs[at]);
      if now > budget {
        SmallCostsDoNotWrap(costs, budget, at + 1, used);
      } else if now < budget {
        SmallCostsDoNotWrap(costs, budget, at + 1, now);
      }
    }
  }

  ghost function CostsOf<Id>(candidates: seq<Candidate<Id>>): (s: seq<nat>)
    ensures |s| == |candidates| && forall i :: 0 <= i < |s| ==> s[i] == Estimate(candidates[i].size)
  {
    seq(|candidates|, i requires 0 <= i < |candidates| => Estimate(candidates[i].size))
  }

  ghost function Chosen<T>(s: seq<T>, picks: seq<nat>): seq<T>
    requires forall i :: 0 <= i < |picks| ==> picks[i] < |s|
  {
    if picks == [] then [] else [s[picks[0]]] + Chosen(s, picks[1..])
  }

  /** The hits after some are packed already, and the greedy rest of the candidates is. */
  ghost function Hits<T>(s: seq<T>, costs: seq<nat>, budget: nat, at: nat, hits: seq<T>, used: nat): seq<T>
    requires |costs| == |s| && at <= |s|
  {
    hits + Chosen(s, Greedy(costs, budget, at, used).picks)
  }

  lemma ChosenCons<T>(s: seq<T>, hits: seq<T>, at: nat, rest: seq<nat>)
    requires at < |s| && forall i :: 0 <= i < |rest| ==> rest[i] < |s|
    ensures hits + Chosen(s, [at] + rest) == hits + [s[at]] + Chosen(s, rest)
  {
    assert ([at] + rest)[1..] == rest;
  }

  /** One turn of the packing loop. */
  lemma HitsStep<T>(s: seq<T>, costs: seq<nat>, budget: nat, at: nat, hits: seq<T>, used: nat)
    requires |costs| == |s| && at < |s|
    ensures
      var now := Add32(used, costs[at]);
      Hits(s, costs, budget, at, hits, used)
      == if now > budget then Hits(s, costs, budget, at + 1, hits, used)
         else if now >= budget then hits + [s[at]]
         else Hits(s, costs, budget, at + 1, hits + [s[at]], now)
  {
    var now := Add32(used, costs[at]);
    ChosenCons(s, hits, at, []);
    assert [at] + [] == [at] && hits + [s[at]] + [] == hits + [s[at]];
    ChosenCons(s, hits, at, Greedy(costs, budget, at + 1, now).picks);
  }

  /** The greedy choice among the candidates, in order, and what it uses of the budget. */
  method Pack<Id>(candidates: seq<Candidate<Id>>, budget: nat) returns (hits: seq<Candidate<Id>>, used: nat)
    requires budget < U32
    ensures
      var r := Greedy(CostsOf(candidates), budget, 0, 0);
      hits == Chosen(candidates, r.picks) && used == r.used
  {
    hits, used := [], 0;
    ghost var costs := CostsOf(candidates);
    ghost var goal := Greedy(costs, budget, 0, 0);
    assert [] + Chosen(candidates, goal.picks) == Chosen(candidates, goal.picks);
    for k := 0 to |candidates|
      invariant Hits(candidates, costs, budget, k, hits, used) == Chosen(candidates, goal.picks)
      invariant Greedy(costs, budget, k, used).used == goal.used
    {
      var est := Estimate(candidates[k].size);
      HitsStep(candidates, costs, budget, k, hits, used);
      if Add32(used, est) > budget {
        continue;
      }
      hits := hits + [candidates[k]];
      used := Add32(used, est);
      if used >= budget {
        return;
      }
    }
    assert hits + [] == hits;
  }

  /** Two candidates of 2^31 tokens each, and all the budget there is: the sum wraps, both are packed, and the
      tokens used come out as none. */
  lemma OverflowExample()
    ensures
      var half := U32 / 2;
      var r := Greedy([half, half], U32 - 1, 0, 0);
      r == Packing([0, 1], 0) && Total([half, half], r.picks) > U32 - 1
  {
    var half := U32 / 2;
    var costs := [half, half];
    assert Greedy(costs, U32 - 1, 2, 0) == Packing([], 0);
    assert Greedy(costs, U32 - 1, 1, half) == Packing([1] + [], 0);
    assert Greedy(costs, U32 - 1, 0, 0) == Packing([0] + ([1] + []), 0);
    TotalCons(costs, 1, []);
    TotalCons(costs, 0, [1]);
  }
}
