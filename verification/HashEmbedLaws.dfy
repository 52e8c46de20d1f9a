/** Signs, mass and length of hashed embeddings. */
module HashEmbedLaws {
  import opened Numbers
  import opened HashEmbed

  /** Each value is on its bucket's side of zero: not negative where `side` holds, not positive elsewhere. */
  ghost predicate Sided(v: seq<real>, side: nat -> bool) {
    forall i :: 0 <= i < |v| ==> OnSide(side(i), v[i])
  }

  ghost predicate OnSide(up: bool, x: real) {
    if up then x >= 0.0 else x <= 0.0
  }

  ghost function Even(): nat -> bool {
    i => i % 2 == 0
  }

  /** Even buckets are never negative, odd ones never positive. */
  ghost predicate Signed(v: seq<real>) {
    Sided(v, Even())
  }

  /** Since 384 is even, a bucket has the parity of its hash, and so the sign of its hash. */
  lemma BucketParity(h: nat)
    ensures h % DIM % 2 == h % 2
  {
    assert h == h / DIM * DIM + h % DIM;
    assert h / DIM * DIM == 2 * (h / DIM * 192);
  }

  ghost function Mass(v: seq<real>): real {
    if v == [] then 0.0 else Mass(v[..|v| - 1]) + Abs(v[|v| - 1])
  }

  lemma {:induction false} MassUpdate(v: seq<real>, i: nat, x: real)
    requires i < |v|
    ensures Mass(v[i := x]) == Mass(v) - Abs(v[i]) + Abs(x)
  {
    if i == |v| - 1 {
      assert v[i := x][..i] == v[..i];
    } else {
      assert v[i := x][..|v| - 1] == v[..|v| - 1][i := x];
      MassUpdate(v[..|v| - 1], i, x);
    }
  }

  /** A step away from zero on the side the bucket has. */
  lemma StepKeeps(v: seq<real>, side: nat -> bool, b: nat, d: real)
    requires b < |v| && Sided(v, side) && OnSide(side(b), d)
    ensures Sided(v[b := v[b] + d], side) && Mass(v[b := v[b] + d]) == Mass(v) + Abs(d)
  {
    MassUpdate(v, b, v[b] + d);
  }

  ghost predicate Aligned(steps: seq<Step>, side: nat -> bool) {
    forall i :: 0 <= i < |steps| ==> OnSide(side(steps[i].bucket), steps[i].delta)
  }

  ghost function Weight(steps: seq<Step>): real {
    if steps == [] then 0.0 else Weight(steps[..|steps| - 1]) + Abs(steps[|steps| - 1].delta)
  }

  /** Aligned steps never cancel: each adds its whole weight to the mass. */
  lemma {:induction false} AddAllKeeps(v: seq<real>, side: nat -> bool, steps: seq<Step>)
    requires |v| == DIM && Sided(v, side) && Aligned(steps, side) && InRange(steps)
    ensures Sided(AddAll(v, steps), side) && Mass(AddAll(v, steps)) == Mass(v) + Weight(steps)
  {
    if steps != [] {
      var init, s := steps[..|steps| - 1], steps[|steps| - 1];
      AddAllKeeps(v, side, init);
      StepKeeps(AddAll(v, init), side, s.bucket, s.delta);
    }
  }

  lemma StepAligned(h: nat, w: real)
    requires w >= 0.0
    ensures var s := StepOf(h, w); OnSide(Even()(s.bucket), s.delta) && Abs(s.delta) == w
  {
    BucketParity(h);
  }

  lemma Grow(steps: seq<Step>, s: Step, side: nat -> bool)
    requires Aligned(steps, side) && OnSide(side(s.bucket), s.delta)
    ensures Aligned(steps + [s], side) && Weight(steps + [s]) == Weight(steps) + Abs(s.delta)
  {
    assert (steps + [s])[..|steps|] == steps;
  }

  lemma {:induction false} TokensAligned(tokens: seq<Text>)
    ensures Aligned(TokenSteps(tokens), Even()) && Weight(TokenSteps(tokens)) == |TokenSteps(tokens)| as real
  {
    if tokens != [] {
      var init, t := tokens[..|tokens| - 1], tokens[|tokens| - 1];
      TokensAligned(init);
      StepAligned(Fnv(OFFSET, t), 1.0);
      Grow(TokenSteps(init), StepOf(Fnv(OFFSET, t), 1.0), Even());
      assert TokenSteps(init) + [] == TokenSteps(init);
    }
  }

  lemma {:induction false} TrigramsAligned(bytes: Text, n: nat)
    requires n == 0 || n + 2 <= |bytes|
    ensures Aligned(TrigramSteps(bytes, n), Even()) && Weight(TrigramSteps(bytes, n)) == n as real * 0.5
  {
    if n > 0 {
      TrigramsAligned(bytes, n - 1);
      StepAligned(Fnv(OFFSET, bytes[n - 1..n + 2]), 0.5);
      Grow(TrigramSteps(bytes, n - 1), StepOf(Fnv(OFFSET, bytes[n - 1..n + 2]), 0.5), Even());
    }
  }

  lemma {:induction false} ZerosMass(n: nat)
    ensures Mass(Zeros(n)) == 0.0
  {
    if n > 0 {
      ZerosMass(n - 1);
      assert Zeros(n)[..n - 1] == Zeros(n - 1);
    }
  }

  lemma SumMass(zero: seq<real>, side: nat -> bool, tokens: seq<Step>, trigrams: seq<Step>)
    requires |zero| == DIM && Sided(zero, side) && Mass(zero) == 0.0
    requires Aligned(tokens, side) && InRange(tokens) && Aligned(trigrams, side) && InRange(trigrams)
    ensures
      var v := AddAll(AddAll(zero, tokens), trigrams);
      Sided(v, side) && Mass(v) == Weight(tokens) + Weight(trigrams)
  {
    AddAllKeeps(zero, side, tokens);
    AddAllKeeps(AddAll(zero, tokens), side, trigrams);
  }

  /** The mass before scaling: one for each token, one half for each window of three bytes. */
  lemma RawMass(tokens: seq<Text>, bytes: Text)
    ensures Signed(Raw(tokens, bytes))
    ensures Mass(Raw(tokens, bytes)) == |TokenSteps(tokens)| as real + Windows(bytes) as real * 0.5
  {
    TokensAligned(tokens);
    TrigramsAligned(bytes, Windows(bytes));
    ZerosMass(DIM);
    SumMass(Zeros(DIM), Even(), TokenSteps(tokens), TrigramSteps(bytes, Windows(bytes)));
  }

  // ----- scaling -----

  lemma ScaleSided(v: seq<real>, side: nat -> bool, x: real)
    requires Sided(v, side) && x >= 0.0
    ensures Sided(Times(v, x), side)
  {
    forall i | 0 <= i < |v|
      ensures OnSide(side(i), Times(v, x)[i])
    {
      TimesAt(v, x, i);
      SignedProduct(v[i], x);
    }
  }

  lemma SignedProduct(a: real, x: real)
    requires x >= 0.0
    ensures a >= 0.0 ==> a * x >= 0.0
    ensures a <= 0.0 ==> a * x <= 0.0
  {
  }

  lemma AbsProduct(a: real, x: real)
    requires x >= 0.0
    ensures Abs(a * x) == Abs(a) * x
  {
    SignedProduct(a, x);
  }

  /** A map that respects sums and absolute values. */
  ghost predicate Linear(f: real -> real) {
    f(0.0) == 0.0 && (forall a, b :: f(a + b) == f(a) + f(b)) && (forall a :: Abs(f(a)) == f(Abs(a)))
  }

  lemma {:induction false} LinearMass(v: seq<real>, w: seq<real>, f: real -> real)
    requires Linear(f) && |w| == |v| && forall i :: 0 <= i < |v| ==> w[i] == f(v[i])
    ensures Mass(w) == f(Mass(v))
  {
    if v != [] {
      var n := |v| - 1;
      LinearMass(v[..n], w[..n], f);
      assert f(Mass(v[..n]) + Abs(v[n])) == f(Mass(v[..n])) + f(Abs(v[n]));
    }
  }

  ghost function By(x: real): real -> real {
    a => a * x
  }

  lemma BySums(x: real)
    ensures forall a, b :: By(x)(a + b) == By(x)(a) + By(x)(b)
  {
    forall a, b
      ensures By(x)(a + b) == By(x)(a) + By(x)(b)
    {
      Distributes(a, b, x);
    }
  }

  lemma ByAbs(x: real)
    requires x >= 0.0
    ensures forall a :: Abs(By(x)(a)) == By(x)(Abs(a))
  {
    forall a
      ensures Abs(By(x)(a)) == By(x)(Abs(a))
    {
      AbsProduct(a, x);
    }
  }

  lemma ByIsLinear(x: real)
    requires x >= 0.0
    ensures Linear(By(x))
  {
    BySums(x);
    ByAbs(x);
  }

  lemma TimesBy(v: seq<real>, x: real)
    ensures forall i :: 0 <= i < |v| ==> Times(v, x)[i] == By(x)(v[i])
  {
    forall i | 0 <= i < |v|
      ensures Times(v, x)[i] == By(x)(v[i])
    {
      TimesAt(v, x, i);
    }
  }

  lemma ScaleMass(v: seq<real>, x: real)
    requires x >= 0.0
    ensures Mass(Times(v, x)) == By(x)(Mass(v))
  {
    ByIsLinear(x);
    TimesBy(v, x);
    LinearMass(v, Times(v, x), By(x));
  }

  lemma Distributes(a: real, b: real, x: real)
    ensures (a + b) * x == a * x + b * x
  {
  }

  /** Whether a text has anything to embed. */
  predicate HasFeatures(tokens: seq<Text>, bytes: Text) {
    |TokenSteps(tokens)| > 0 || |bytes| >= 3
  }

  lemma ScaleFactor(n: nat)
    requires n > MAX_TOKENS
    ensures 0.0 < MAX_TOKENS as real / n as real
    ensures n as real * (MAX_TOKENS as real / n as real) == MAX_TOKENS as real
  {
    PositiveRatio(MAX_TOKENS as real, n as real);
  }

  lemma PositiveRatio(a: real, b: real)
    requires a > 0.0 && b > 0.0
    ensures a / b > 0.0 && b * (a / b) == a
  {
  }

  lemma ProductGrows(a: real, b: real, x: real)
    requires a <= b && x >= 0.0
    ensures a * x <= b * x
  {
  }

  lemma ScaledKeeps(raw: seq<real>, n: nat)
    requires Signed(raw) && Mass(raw) >= n as real
    ensures Signed(Scaled(raw, n))
    ensures n <= MAX_TOKENS ==> Scaled(raw, n) == raw
    ensures n > MAX_TOKENS ==> Mass(Scaled(raw, n)) >= MAX_TOKENS as real
  {
    if n > MAX_TOKENS {
      var x := MAX_TOKENS as real / n as real;
      ScaleFactor(n);
      ScaleSided(raw, Even(), x);
      ScaleMass(raw, x);
      ProductGrows(n as real, Mass(raw), x);
    }
  }

  /** After scaling, a text with features still has at least half a unit of mass, and one without has none. */
  lemma ScaledMass(tokens: seq<Text>, bytes: Text)
    ensures
      var v := Scaled(Raw(tokens, bytes), |TokenSteps(tokens)|);
      && Signed(v)
      && (HasFeatures(tokens, bytes) ==> Mass(v) >= 0.5)
      && (!HasFeatures(tokens, bytes) ==> Mass(v) == 0.0)
  {
    RawMass(tokens, bytes);
    ScaledKeeps(Raw(tokens, bytes), |TokenSteps(tokens)|);
  }
}
