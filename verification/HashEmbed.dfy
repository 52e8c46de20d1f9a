/** The hashing-trick embedder of brain/src/embeddings.rs. */
module HashEmbed {
  import opened Numbers
  import opened Sums

  const MAX_TOKENS: nat := 512

  type Text = seq<Byte>

  // ----- hashes -----

  function Xor(a: Byte, b: Byte): Byte {
    ((a as bv8) ^ (b as bv8)) as nat
  }

  /** One byte of FNV-1a: exclusive-or into the low byte, then a wrapping multiplication. */
  function FnvStep(h: nat, b: Byte): nat {
    (h - h % 256 + Xor(h % 256, b)) * 0x100_0000_01b3 % U64
  }

  function Fnv(h: nat, bytes: Text): nat
    decreases |bytes|
  {
    if bytes == [] then h else Fnv(FnvStep(h, bytes[0]), bytes[1..])
  }

  const OFFSET: nat := 0xcbf2_9ce4_8422_2325

  method Fnv1a(bytes: Text) returns (h: nat)
    ensures h == Fnv(OFFSET, bytes)
  {
    h := OFFSET;
    for i := 0 to |bytes|
      invariant Fnv(h, bytes[i..]) == Fnv(OFFSET, bytes)
    {
      assert bytes[i..][1..] == bytes[i + 1..];
      h := FnvStep(h, bytes[i]);
    }
  }

  // ----- features -----

  /** What one feature adds, and where. */
  datatype Step = Step(bucket: nat, delta: real)

  /** The bucket of a hash, and its weight with the sign of the hash's lowest bit. */
  function StepOf(h: nat, w: real): (s: Step)
    ensures s.bucket < DIM
  {
    Step(h % DIM, if h % 2 == 0 then w else -w)
  }

  predicate InRange(steps: seq<Step>) {
    forall i :: 0 <= i < |steps| ==> steps[i].bucket < DIM
  }

  /** One step for each token that is long enough, in order. */
  function TokenSteps(tokens: seq<Text>): (r: seq<Step>)
    ensures InRange(r)
  {
    if tokens == [] then []
    else
      var init, t := tokens[..|tokens| - 1], tokens[|tokens| - 1];
      TokenSteps(init) + if |t| < 2 then [] else [StepOf(Fnv(OFFSET, t), 1.0)]
  }

  /** One half step for each of the first n windows of three bytes. */
  function TrigramSteps(bytes: Text, n: nat): (r: seq<Step>)
    requires n == 0 || n + 2 <= |bytes|
    ensures InRange(r) && |r| == n
  {
    if n == 0 then [] else TrigramSteps(bytes, n - 1) + [StepOf(Fnv(OFFSET, bytes[n - 1..n + 2]), 0.5)]
  }

  function Windows(bytes: Text): nat {
    if |bytes| < 3 then 0 else |bytes| - 2
  }

  // ----- the vector -----

  function Add(v: seq<real>, s: Step): seq<real>
    requires s.bucket < |v|
  {
    v[s.bucket := v[s.bucket] + s.delta]
  }

  function AddAll(v: seq<real>, steps: seq<Step>): (r: seq<real>)
    requires |v| == DIM && InRange(steps)
    ensures |r| == DIM
  {
    if steps == [] then v else Add(AddAll(v, steps[..|steps| - 1]), steps[|steps| - 1])
  }

  function Zeros(n: nat): (r: seq<real>)
    ensures |r| == n && forall i :: 0 <= i < n ==> r[i] == 0.0
  {
    if n == 0 then [] else Zeros(n - 1) + [0.0]
  }

  function Raw(tokens: seq<Text>, bytes: Text): (r: seq<real>)
    ensures |r| == DIM
  {
    AddAll(AddAll(Zeros(DIM), TokenSteps(tokens)), TrigramSteps(bytes, Windows(bytes)))
  }

  function Times(v: seq<real>, x: real): (r: seq<real>)
    ensures |r| == |v|
  {
    if v == [] then [] else Times(v[..|v| - 1], x) + [v[|v| - 1] * x]
  }

  lemma {:induction false} TimesAt(v: seq<real>, x: real, i: nat)
    requires i < |v|
    ensures Times(v, x)[i] == v[i] * x
  {
    if i < |v| - 1 {
      TimesAt(v[..|v| - 1], x, i);
    }
  }

  function Scaled(v: seq<real>, tokens: nat): (r: seq<real>)
    ensures |r| == |v|
  {
    if tokens > MAX_TOKENS then Times(v, MAX_TOKENS as real / tokens as real) else v
  }

  function Squares(v: seq<real>): (r: seq<real>)
    ensures |r| == |v|
  {
    if v == [] then [] else Squares(v[..|v| - 1]) + [v[|v| - 1] * v[|v| - 1]]
  }

  function SumSquares(v: seq<real>): real {
    Sum(Squares(v))
  }

  lemma SumSquaresSnoc(v: seq<real>, x: real)
    ensures SumSquares(v + [x]) == SumSquares(v) + x * x
  {
    assert (v + [x])[..|v|] == v;
    var s := Squares(v);
    assert (s + [x * x])[..|s|] == s;
  }

  function Quotients(v: seq<real>, x: real): (r: seq<real>)
    requires x != 0.0
    ensures |r| == |v|
  {
    if v == [] then [] else Quotients(v[..|v| - 1], x) + [v[|v| - 1] / x]
  }

  lemma {:induction false} QuotientsAt(v: seq<real>, x: real, i: nat)
    requires x != 0.0 && i < |v|
    ensures Quotients(v, x)[i] == v[i] / x
  {
    if i < |v| - 1 {
      QuotientsAt(v[..|v| - 1], x, i);
    }
  }

  function Normalised(v: seq<real>, sqrt: real -> real): (r: seq<real>)
    ensures |r| == |v|
  {
    var norm := sqrt(SumSquares(v));
    if norm > 1e-12 then Quotients(v, norm) else v
  }

  /** The embedding of a text with these tokens and these bytes. */
  function Hashed(tokens: seq<Text>, bytes: Text, sqrt: real -> real): (r: seq<real>)
    ensures |r| == DIM
  {
    Normalised(Scaled(Raw(tokens, bytes), |TokenSteps(tokens)|), sqrt)
  }

  // ----- the loops -----

  lemma AddAllSnoc(v: seq<real>, steps: seq<Step>, s: Step)
    requires |v| == DIM && InRange(steps) && s.bucket < DIM
    ensures InRange(steps + [s]) && AddAll(v, steps + [s]) == Add(AddAll(v, steps), s)
  {
    assert (steps + [s])[..|steps|] == steps;
  }

  /** Adds a weight, with the sign of the hash's lowest bit, to the bucket of a hash. */
  method AddStep(out: array<real>, h: nat, w: real)
    requires out.Length == DIM
    modifies out
    ensures out[..] == Add(old(out[..]), StepOf(h, w))
  {
    var bucket := h % DIM;
    var sign := if h % 2 == 0 then 1.0 else -1.0;
    out[bucket] := out[bucket] + sign * w;
  }

  lemma TokenStepsNext(tokens: seq<Text>, k: nat)
    requires k < |tokens|
    ensures TokenSteps(tokens[..k + 1])
         == TokenSteps(tokens[..k]) + if |tokens[k]| < 2 then [] else [StepOf(Fnv(OFFSET, tokens[k]), 1.0)]
  {
    assert tokens[..k + 1][..k] == tokens[..k];
  }

  method AddTokens(out: array<real>, tokens: seq<Text>) returns (n: nat)
    requires out.Length == DIM
    modifies out
    ensures out[..] == AddAll(old(out[..]), TokenSteps(tokens)) && n == |TokenSteps(tokens)|
  {
    n := 0;
    for k := 0 to |tokens|
      invariant out[..] == AddAll(old(out[..]), TokenSteps(tokens[..k])) && n == |TokenSteps(tokens[..k])|
    {
      TokenStepsNext(tokens, k);
      if |tokens[k]| < 2 {
        assert TokenSteps(tokens[..k]) + [] == TokenSteps(tokens[..k]);
        continue;
      }
      n := n + 1;
      var h := Fnv1a(tokens[k]);
      AddAllSnoc(old(out[..]), TokenSteps(tokens[..k]), StepOf(h, 1.0));
      AddStep(out, h, 1.0);
    }
    assert tokens[..|tokens|] == tokens;
  }

  method AddTrigrams(out: array<real>, bytes: Text)
    requires out.Length == DIM
    modifies out
    ensures out[..] == AddAll(old(out[..]), TrigramSteps(bytes, Windows(bytes)))
  {
    for k := 0 to Windows(bytes)
      invariant out[..] == AddAll(old(out[..]), TrigramSteps(bytes, k))
    {
      var h := Fnv1a(bytes[k..k + 3]);
      AddAllSnoc(old(out[..]), TrigramSteps(bytes, k), StepOf(h, 0.5));
      AddStep(out, h, 0.5);
    }
  }

  method L2Normalise(v: array<real>, sqrt: real -> real)
    modifies v
    ensures v[..] == Normalised(old(v[..]), sqrt)
  {
    var sq := 0.0;
    for i := 0 to v.Length
      invariant v[..] == old(v[..]) && sq == SumSquares(v[..i])
    {
      assert v[..i + 1] == v[..i] + [v[i]];
      SumSquaresSnoc(v[..i], v[i]);
      sq := sq + v[i] * v[i];
    }
    assert v[..v.Length] == v[..];
    var norm := sqrt(sq);
    if norm > 1e-12 {
      DivideAll(v, norm);
    }
  }

  method DivideAll(v: array<real>, x: real)
    requires x != 0.0
    modifies v
    ensures v[..] == Quotients(old(v[..]), x)
  {
    ghost var goal := Quotients(v[..], x);
    for i := 0 to v.Length
      invariant forall j :: 0 <= j < i ==> v[j] == goal[j]
      invariant forall j :: i <= j < v.Length ==> v[j] == old(v[j])
    {
      QuotientsAt(old(v[..]), x, i);
      v[i] := v[i] / x;
    }
    assert v[..] == goal;
  }

  method MultiplyAll(v: array<real>, x: real)
    modifies v
    ensures v[..] == Times(old(v[..]), x)
  {
    ghost var goal := Times(v[..], x);
    for i := 0 to v.Length
      invariant forall j :: 0 <= j < i ==> v[j] == goal[j]
      invariant forall j :: i <= j < v.Length ==> v[j] == old(v[j])
    {
      TimesAt(old(v[..]), x, i);
      v[i] := v[i] * x;
    }
    assert v[..] == goal;
  }

  method Rescale(v: array<real>, tokens: nat)
    modifies v
    ensures v[..] == Scaled(old(v[..]), tokens)
  {
    if tokens > MAX_TOKENS && tokens > 0 {
      MultiplyAll(v, MAX_TOKENS as real / tokens as real);
    }
  }

  method HashingEmbed(tokens: seq<Text>, bytes: Text, sqrt: real -> real) returns (r: seq<real>)
    ensures r == Hashed(tokens, bytes, sqrt)
  {
    var out := new real[DIM](i => 0.0);
    assert out[..] == Zeros(DIM);
    var n := AddTokens(out, tokens);
    AddTrigrams(out, bytes);
    Rescale(out, n);
    L2Normalise(out, sqrt);
    r := out[..];
  }
}
