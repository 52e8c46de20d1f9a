/** The shared job-id counter of common/src/jobs.rs, under every interleaving of its callers. */
module Jobs {
  import opened Numbers

  type ThreadId = nat

  /** A thread inside `seed_to`: what it wants, what it first read, what it believes, and how often its
      compare-exchange has failed. */
  datatype Seeding = Seeding(value: nat, first: nat, current: nat, failures: nat)

  datatype State = State(counter: nat, seeding: map<ThreadId, Seeding>)

  /** The atomic steps: `fetch_add`, the first `load` of `seed_to`, and one turn of its loop. */
  datatype Op = Next(thread: ThreadId) | Load(thread: ThreadId, value: nat) | Attempt(thread: ThreadId)

  /** What a step returns to its caller, if it ends a call. */
  datatype Output = Issued(id: nat) | Seeded(value: nat) | Silent

  datatype Effect = Effect(state: State, output: Output)

  predicate Enabled(s: State, op: Op) {
    match op
    case Next(t) => t !in s.seeding
    case Load(t, v) => t !in s.seeding && v < U64
    case Attempt(t) => t in s.seeding
  }

  function Step(s: State, op: Op): Effect
    requires Enabled(s, op)
  {
    match op
    case Next(_) => Effect(s.(counter := (s.counter + 1) % U64), Issued(s.counter))
    case Load(t, v) => Effect(s.(seeding := s.seeding[t := Seeding(v, s.counter, s.counter, 0)]), Silent)
    case Attempt(t) =>
      var p := s.seeding[t];
      if p.current >= p.value then Effect(s.(seeding := s.seeding - {t}), Seeded(p.value))
      else if s.counter == p.current then Effect(State(p.value, s.seeding - {t}), Seeded(p.value))
      else Effect(s.(seeding := s.seeding[t := p.(current := s.counter, failures := p.failures + 1)]), Silent)
  }

  const Start: State := State(1, map[])

  predicate IsRun(s: State, ops: seq<Op>)
    decreases |ops|
  {
    ops == [] || (Enabled(s, ops[0]) && IsRun(Step(s, ops[0]).state, ops[1..]))
  }

  function After(s: State, ops: seq<Op>): State
    requires IsRun(s, ops)
    decreases |ops|
  {
    if ops == [] then s else After(Step(s, ops[0]).state, ops[1..])
  }

  /** What the callers see, step by step. */
  function Trace(s: State, ops: seq<Op>): (r: seq<Output>)
    requires IsRun(s, ops)
    ensures |r| == |ops|
    decreases |ops|
  {
    if ops == [] then [] else [Step(s, ops[0]).output] + Trace(Step(s, ops[0]).state, ops[1..])
  }

  predicate Wraps(s: State, op: Op) {
    op.Next? && s.counter == U64 - 1
  }

  /** No `fetch_add` of the run finds the counter at its largest value. */
  predicate NeverWraps(s: State, ops: seq<Op>)
    requires IsRun(s, ops)
    decreases |ops|
  {
    ops == [] || (!Wraps(s, ops[0]) && NeverWraps(Step(s, ops[0]).state, ops[1..]))
  }

  /** The counter is a u64; what a thread inside `seed_to` believes is behind it, and each of its failures
      brought that belief closer to the value it wants. */
  ghost predicate Good(s: State) {
    && s.counter < U64
    && forall t :: t in s.seeding ==>
         && s.seeding[t].value < U64
         && s.seeding[t].first + s.seeding[t].failures <= s.seeding[t].current <= s.counter
         && (s.seeding[t].failures == 0 || s.seeding[t].first + s.seeding[t].failures <= s.seeding[t].value)
  }

  /** One step keeps that, and moves the counter forward unless it wraps. */
  lemma StepIsGood(s: State, op: Op)
    requires Good(s) && Enabled(s, op)
    ensures Step(s, op).state.counter < s.counter <==> Wraps(s, op)
    ensures !Wraps(s, op) ==> Good(Step(s, op).state)
  {
    if op.Next? && s.counter < U64 - 1 {
      assert (s.counter + 1) % U64 == s.counter + 1;
    }
  }

  /** How far a thread inside `seed_to` still has to go. */
  function Distance(p: Seeding): nat {
    if p.current < p.value then p.value - p.current else 0
  }

  /** A failed compare-exchange shortens the distance. */
  lemma FailureShortens(s: State, op: Op)
    requires Good(s) && op.Attempt? && Enabled(s, op) && Step(s, op).output == Silent
    ensures
      var was, now := s.seeding[op.thread], Step(s, op).state.seeding;
      op.thread in now && now[op.thread].failures == was.failures + 1 && Distance(now[op.thread]) < Distance(was)
  {
  }

  lemma {:induction false} RunIsGood(s: State, ops: seq<Op>)
    requires Good(s) && IsRun(s, ops) && NeverWraps(s, ops)
    ensures Good(After(s, ops)) && s.counter <= After(s, ops).counter
    decreases |ops|
  {
    if ops != [] {
      StepIsGood(s, ops[0]);
      RunIsGood(Step(s, ops[0]).state, ops[1..]);
    }
  }

  /** A caller of `seed_to` fails at most as often as the counter was behind when it started. */
  lemma FailuresAreBounded(ops: seq<Op>, t: ThreadId)
    requires IsRun(Start, ops) && NeverWraps(Start, ops) && t in After(Start, ops).seeding
    ensures
      var p := After(Start, ops).seeding[t];
      && (p.failures > 0 ==> p.failures <= p.value - p.first)
      && (p.current < p.value ==> p.failures < p.value - p.first)
  {
    RunIsGood(Start, ops);
  }

  /** Every id of a run is at least the counter it started from. */
  lemma {:induction false} IssuedFromHere(s: State, ops: seq<Op>, j: nat)
    requires Good(s) && IsRun(s, ops) && NeverWraps(s, ops) && j < |ops| && Trace(s, ops)[j].Issued?
    ensures Trace(s, ops)[j].id >= s.counter
    decreases |ops|
  {
    StepIsGood(s, ops[0]);
    if j > 0 {
      IssuedFromHere(Step(s, ops[0]).state, ops[1..], j - 1);
    }
  }

  /** Later ids are larger, whoever asked for them: ids never repeat. */
  lemma {:induction false} IdsIncrease(s: State, ops: seq<Op>, i: nat, j: nat)
    requires Good(s) && IsRun(s, ops) && NeverWraps(s, ops) && i < j < |ops|
    requires Trace(s, ops)[i].Issued? && Trace(s, ops)[j].Issued?
    ensures Trace(s, ops)[i].id < Trace(s, ops)[j].id
    decreases |ops|
  {
    var next := Step(s, ops[0]).state;
    StepIsGood(s, ops[0]);
    if i == 0 {
      IssuedFromHere(next, ops[1..], j - 1);
    } else {
      IdsIncrease(next, ops[1..], i - 1, j - 1);
    }
  }

  /** An id issued after `seed_to(v)` has returned is at least v, whatever other threads did meanwhile. */
  lemma {:induction false} SeedHolds(s: State, ops: seq<Op>, i: nat, j: nat)
    requires Good(s) && IsRun(s, ops) && NeverWraps(s, ops) && i < j < |ops|
    requires Trace(s, ops)[i].Seeded? && Trace(s, ops)[j].Issued?
    ensures Trace(s, ops)[j].id >= Trace(s, ops)[i].value
    decreases |ops|
  {
    var next := Step(s, ops[0]).state;
    StepIsGood(s, ops[0]);
    if i == 0 {
      IssuedFromHere(next, ops[1..], j - 1);
    } else {
      SeedHolds(next, ops[1..], i - 1, j - 1);
    }
  }

  /** The counter only moves up over a whole run if and only if no `fetch_add` wraps. */
  ghost predicate Monotone(s: State, ops: seq<Op>)
    requires IsRun(s, ops)
    decreases |ops|
  {
    ops == [] || (s.counter <= Step(s, ops[0]).state.counter && Monotone(Step(s, ops[0]).state, ops[1..]))
  }

  lemma {:induction false} MonotoneIff(s: State, ops: seq<Op>)
    requires Good(s) && IsRun(s, ops)
    ensures Monotone(s, ops) <==> NeverWraps(s, ops)
    decreases |ops|
  {
    if ops != [] {
      StepIsGood(s, ops[0]);
      if !Wraps(s, ops[0]) {
        MonotoneIff(Step(s, ops[0]).state, ops[1..]);
      }
    }
  }

  ghost predicate NoSeeds(ops: seq<Op>) {
    forall i :: 0 <= i < |ops| ==> ops[i].Next?
  }

  /** Nothing but a seed makes the counter skip. */
  lemma {:induction false} UnseededIdsAreConsecutive(s: State, ops: seq<Op>, j: nat)
    requires Good(s) && IsRun(s, ops) && NeverWraps(s, ops) && NoSeeds(ops) && j < |ops|
    ensures Trace(s, ops)[j] == Issued(s.counter + j)
    decreases |ops|
  {
    StepIsGood(s, ops[0]);
    if j > 0 {
      assert (s.counter + 1) % U64 == s.counter + 1;
      UnseededIdsAreConsecutive(Step(s, ops[0]).state, ops[1..], j - 1);
    }
  }

  /** A wrap lets an id out twice: one id, a seed to the largest value, and three more. */
  function WrapRun(): seq<Op> {
    [Next(0), Load(0, U64 - 1), Attempt(0), Next(0), Next(0), Next(0)]
  }

  lemma WrapRepeatsAnId()
    ensures IsRun(Start, WrapRun()) && !NeverWraps(Start, WrapRun())
    ensures Trace(Start, WrapRun())[0] == Trace(Start, WrapRun())[5] == Issued(1)
  {
    var ops := WrapRun();
    var s1 := State(2, map[]);
    var s2 := State(2, map[0 := Seeding(U64 - 1, 2, 2, 0)]);
    var s3 := State(U64 - 1, map[]);
    var s4 := State(0, map[]);
    var s5 := State(1, map[]);
    assert ops[1..] == [Load(0, U64 - 1), Attempt(0), Next(0), Next(0), Next(0)];
    assert ops[1..][1..] == [Attempt(0), Next(0), Next(0), Next(0)];
    assert ops[1..][1..][1..] == [Next(0), Next(0), Next(0)];
    assert Step(Start, ops[0]) == Effect(s1, Issued(1));
    assert Step(s1, ops[1]) == Effect(s2, Silent);
    assert s2.seeding - {0} == map[];
    assert Step(s2, ops[2]) == Effect(s3, Seeded(U64 - 1));
    assert Step(s3, ops[3]) == Effect(s4, Issued(U64 - 1));
    assert Step(s4, ops[4]) == Effect(s5, Issued(0));
    var last := [Next(0), Next(0), Next(0)];
    LastThree(s3, s4, s5, last);
  }

  lemma LastThree(s3: State, s4: State, s5: State, ops: seq<Op>)
    requires ops == [Next(0), Next(0), Next(0)] && s3 == State(U64 - 1, map[]) && s4 == State(0, map[])
            && s5 == State(1, map[])
    ensures IsRun(s3, ops) && !NeverWraps(s3, ops) && Trace(s3, ops)[2] == Issued(1)
  {
    assert ops[1..] == [Next(0), Next(0)] && ops[1..][1..] == [Next(0)] && ops[1..][1..][1..] == [];
    assert Step(s3, Next(0)) == Effect(s4, Issued(U64 - 1));
    assert Step(s4, Next(0)) == Effect(s5, Issued(0));
    assert IsRun(s5, [Next(0)]);
    assert IsRun(s4, [Next(0), Next(0)]);
  }
}
