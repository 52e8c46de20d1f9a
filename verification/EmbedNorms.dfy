/** Hashed embeddings are unit vectors, and any two of them are similar by something between 0 and 1. */
module EmbedNorms {
  import opened Numbers
  import opened Sequences
  import opened HashEmbed
  import opened HashEmbedLaws

  /** `sqrt` as far as it matters here. */
  ghost predicate Root(sqrt: real -> real) {
    forall x :: x >= 0.0 ==> sqrt(x) >= 0.0 && sqrt(x) * sqrt(x) == x
  }

  // ----- a vector with mass has length -----

  lemma SquareAbove(x: real)
    ensures x * x >= 0.002 * Abs(x) - 0.000001
  {
    var y := Abs(x);
    assert (y - 0.001) * (y - 0.001) >= 0.0;
    assert (y - 0.001) * (y - 0.001) == y * y - 0.002 * y + 0.000001;
    assert y * y == x * x;
  }

  lemma {:induction false} SquaresAbove(v: seq<real>)
    ensures SumSquares(v) >= 0.002 * Mass(v) - 0.000001 * |v| as real
  {
    if v != [] {
      SquaresAbove(v[..|v| - 1]);
      SquareAbove(v[|v| - 1]);
      SumSquaresSnoc(v[..|v| - 1], v[|v| - 1]);
      Snoc(v);
    }
  }

  lemma {:induction false} SquaresNonNegative(v: seq<real>)
    ensures SumSquares(v) >= 0.0 && Mass(v) >= 0.0
  {
    if v != [] {
      SquaresNonNegative(v[..|v| - 1]);
      SquareNonNegative(v[|v| - 1]);
      SumSquaresSnoc(v[..|v| - 1], v[|v| - 1]);
      Snoc(v);
    }
  }

  lemma SquareNonNegative(x: real)
    ensures x * x >= 0.0
  {
  }

  lemma Grows(a: real, b: real, x: real, ax: real, bx: real)
    requires a <= b && x >= 0.0 && ax == a * x && bx == b * x
    ensures ax <= bx
  {
  }

  lemma SmallRoot(r: real, s: real)
    requires 0.0 <= r <= 1e-12 && s == r * r
    ensures s <= 1e-12
  {
    Grows(r, 1e-12, r, s, 1e-12 * r);
  }

  lemma RootAbove(s: real, r: real)
    requires s >= 0.0006 && r >= 0.0 && s == r * r
    ensures r > 1e-12
  {
    if r <= 1e-12 {
      SmallRoot(r, s);
    }
  }

  lemma LargeRoot(s: real, mass: real, n: nat, sqrt: real -> real)
    requires Root(sqrt) && s >= 0.002 * mass - 0.000001 * n as real && mass >= 0.5 && n == DIM
    ensures sqrt(s) > 1e-12
  {
    RootAbove(s, sqrt(s));
  }

  lemma MassHasLength(v: seq<real>, sqrt: real -> real)
    requires Root(sqrt) && |v| == DIM && Mass(v) >= 0.5
    ensures sqrt(SumSquares(v)) > 1e-12
  {
    SquaresAbove(v);
    LargeRoot(SumSquares(v), Mass(v), |v|, sqrt);
  }

  lemma {:induction false} NoMassNoLength(v: seq<real>)
    requires Mass(v) == 0.0
    ensures SumSquares(v) == 0.0 && v == Zeros(|v|)
  {
    if v != [] {
      SquaresNonNegative(v[..|v| - 1]);
      NoMassNoLength(v[..|v| - 1]);
      SumSquaresSnoc(v[..|v| - 1], v[|v| - 1]);
      Snoc(v);
    }
  }

  lemma RootOfZero(sqrt: real -> real)
    requires Root(sqrt)
    ensures sqrt(0.0) == 0.0
  {
    var r := sqrt(0.0);
    if r > 0.0 {
      ProductPositive(r, r, 0.0);
    }
  }

  // ----- normalising -----

  lemma QuotientSums(a: real, b: real, s: real)
    requires s != 0.0
    ensures (a + b) / s == a / s + b / s
  {
  }

  lemma SquareOfQuotient(x: real, r: real, s: real)
    requires r > 0.0 && s == r * r && s != 0.0
    ensures (x / r) * (x / r) == x * x / s
  {
    var q := x / r;
    assert q * r == x;
    assert q * q * s == (q * r) * (q * r);
  }

  lemma QuotientStep(a: real, b: real, x: real, r: real, s: real)
    requires r > 0.0 && s == r * r && s != 0.0 && b == a / s
    ensures b + (x / r) * (x / r) == (a + x * x) / s
  {
    SquareOfQuotient(x, r, s);
    QuotientSums(a, x * x, s);
  }

  lemma QuotientsSnoc(v: seq<real>, x: real, r: real)
    requires r != 0.0
    ensures SumSquares(Quotients(v + [x], r)) == SumSquares(Quotients(v, r)) + (x / r) * (x / r)
  {
    assert (v + [x])[..|v|] == v;
    SumSquaresSnoc(Quotients(v, r), x / r);
  }

  lemma {:induction false} QuotientSquares(v: seq<real>, r: real, s: real)
    requires r > 0.0 && s == r * r && s != 0.0
    ensures SumSquares(Quotients(v, r)) == SumSquares(v) / s
  {
    if v != [] {
      var init, x := v[..|v| - 1], v[|v| - 1];
      Snoc(v);
      QuotientSquares(init, r, s);
      QuotientsSnoc(init, x, r);
      SumSquaresSnoc(init, x);
      QuotientStep(SumSquares(init), SumSquares(Quotients(init, r)), x, r, s);
    }
  }

  /** A vector with length is normalised to length 1. */
  lemma NormalisedIsUnit(v: seq<real>, r: real, s: real)
    requires r > 0.0 && s == r * r && s == SumSquares(v) && s > 0.0
    ensures SumSquares(Quotients(v, r)) == 1.0
  {
    QuotientSquares(v, r, s);
  }

  lemma QuotientSign(a: real, r: real)
    requires r > 0.0
    ensures a >= 0.0 ==> a / r >= 0.0
    ensures a <= 0.0 ==> a / r <= 0.0
  {
  }

  lemma QuotientsSided(v: seq<real>, side: nat -> bool, r: real)
    requires Sided(v, side) && r > 0.0
    ensures Sided(Quotients(v, r), side)
  {
    forall i | 0 <= i < |v|
      ensures OnSide(side(i), Quotients(v, r)[i])
    {
      QuotientsAt(v, r, i);
      QuotientSign(v[i], r);
    }
  }

  lemma NormalisedUnit(v: seq<real>, r: real, s: real)
    requires r > 1e-12 && s == r * r && s == SumSquares(v) && Signed(v)
    ensures Signed(Quotients(v, r)) && SumSquares(Quotients(v, r)) == 1.0
  {
    QuotientsSided(v, Even(), r);
    ProductPositive(r, r, s);
    NormalisedIsUnit(v, r, s);
  }

  lemma NormalisedWithMass(v: seq<real>, sqrt: real -> real)
    requires Root(sqrt) && |v| == DIM && Signed(v) && Mass(v) >= 0.5
    ensures Signed(Normalised(v, sqrt)) && SumSquares(Normalised(v, sqrt)) == 1.0
  {
    MassHasLength(v, sqrt);
    SquaresNonNegative(v);
    NormalisedUnit(v, sqrt(SumSquares(v)), SumSquares(v));
  }

  lemma NormalisedWithout(v: seq<real>, sqrt: real -> real)
    requires Root(sqrt) && Mass(v) == 0.0
    ensures Normalised(v, sqrt) == Zeros(|v|)
  {
    NoMassNoLength(v);
    RootOfZero(sqrt);
  }

  /** An embedding is a unit vector, with even values never negative and odd ones never positive, if the text
      has a token of two bytes or a window of three; otherwise it is zero. */
  lemma EmbeddingIs(tokens: seq<Text>, bytes: Text, sqrt: real -> real)
    requires Root(sqrt)
    ensures
      var v := Hashed(tokens, bytes, sqrt);
      && Signed(v)
      && (HasFeatures(tokens, bytes) ==> SumSquares(v) == 1.0)
      && (!HasFeatures(tokens, bytes) ==> v == Zeros(DIM) && SumSquares(v) == 0.0)
  {
    ScaledMass(tokens, bytes);
    var v := Scaled(Raw(tokens, bytes), |TokenSteps(tokens)|);
    if HasFeatures(tokens, bytes) {
      NormalisedWithMass(v, sqrt);
    } else {
      NormalisedWithout(v, sqrt);
      NoMassNoLength(v);
      assert Normalised(v, sqrt) == v;
    }
  }

  // ----- similarity -----

  ghost function Similarity(a: seq<real>, b: seq<real>): real
    requires |a| == |b|
  {
    if a == [] then 0.0 else Similarity(a[..|a| - 1], b[..|b| - 1]) + a[|a| - 1] * b[|b| - 1]
  }

  lemma SameSideProduct(up: bool, a: real, b: real)
    requires OnSide(up, a) && OnSide(up, b)
    ensures a * b >= 0.0
  {
  }

  lemma {:induction false} SimilarityNonNegative(a: seq<real>, b: seq<real>, side: nat -> bool)
    requires |a| == |b| && Sided(a, side) && Sided(b, side)
    ensures Similarity(a, b) >= 0.0
  {
    if a != [] {
      var n: nat := |a| - 1;
      SimilarityNonNegative(a[..n], b[..n], side);
      SameSideProduct(side(n), a[n], b[n]);
    }
  }

  lemma ProductBelow(a: real, b: real)
    ensures 2.0 * (a * b) <= a * a + b * b
  {
    assert (a - b) * (a - b) >= 0.0;
  }

  lemma {:induction false} SimilarityBelow(a: seq<real>, b: seq<real>)
    requires |a| == |b|
    ensures 2.0 * Similarity(a, b) <= SumSquares(a) + SumSquares(b)
  {
    if a != [] {
      SimilarityBelow(a[..|a| - 1], b[..|b| - 1]);
      ProductBelow(a[|a| - 1], b[|b| - 1]);
      SumSquaresSnoc(a[..|a| - 1], a[|a| - 1]);
      SumSquaresSnoc(b[..|b| - 1], b[|b| - 1]);
      Snoc(a);
      Snoc(b);
    }
  }

  /** Any two embeddings have a similarity between 0 and 1. */
  lemma SimilarityInRange(t1: seq<Text>, b1: Text, t2: seq<Text>, b2: Text, sqrt: real -> real)
    requires Root(sqrt)
    ensures 0.0 <= Similarity(Hashed(t1, b1, sqrt), Hashed(t2, b2, sqrt)) <= 1.0
  {
    EmbeddingIs(t1, b1, sqrt);
    EmbeddingIs(t2, b2, sqrt);
    SimilarityNonNegative(Hashed(t1, b1, sqrt), Hashed(t2, b2, sqrt), Even());
    SimilarityBelow(Hashed(t1, b1, sqrt), Hashed(t2, b2, sqrt));
  }
}
