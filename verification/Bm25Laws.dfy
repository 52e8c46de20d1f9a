/** How the BM25 formula of brain/src/retrieve.rs weighs tokens, occurrences and lengths. */
module Bm25Laws {
  import opened Bm25

  ghost predicate Rising(ln: real -> real) {
    forall x, y :: 0.0 < x < y ==> ln(x) < ln(y)
  }

  lemma QuotientFalls(x: real, y: real, a: real, b: real)
    requires x >= y > 0.0 && 0.0 < a <= b
    ensures y / b <= x / a
    ensures x > y || a < b ==> y / b < x / a
  {
    var p, q := x / a, y / b;
    assert p * a == x && q * b == y;
    if q > p || (q == p && (x > y || a < b)) {
      ProductGrows(p, q, a, b);
    }
  }

  lemma ProductGrows(p: real, q: real, a: real, b: real)
    requires q >= p && b >= a > 0.0 && q * b > 0.0
    ensures q * b >= p * a
    ensures b > a ==> q * b > p * a
  {
    assert q * b >= p * b;
    assert q > 0.0;
    assert q * b - q * a == q * (b - a) >= 0.0;
    assert q * a >= p * a;
  }

  /** A rarer token weighs more. */
  lemma RarerWeighsMore(ln: real -> real, n: nat, d: nat, e: nat)
    requires Rising(ln) && d < e <= n
    ensures Idf(ln, n, d) > Idf(ln, n, e)
  {
    var x, y := n as real - d as real + 0.5, n as real - e as real + 0.5;
    QuotientFalls(x, y, d as real + 0.5, e as real + 0.5);
    QuotientPositive(y, e as real + 0.5);
  }

  lemma LengthPart(len: nat, average: real) returns (c: real)
    requires average >= 0.0
    ensures c == K1 * (1.0 - B + B * (len as real / Max(average, 1.0))) && c > 0.0
    ensures forall tf: nat :: Denominator(tf, len, average) == tf as real + c
  {
    NonNegativeRatio(len, Max(average, 1.0));
    c := K1 * (1.0 - B + B * (len as real / Max(average, 1.0)));
  }

  lemma ShareRises(a: real, b: real, c: real)
    requires 0.0 < a < b && c > 0.0
    ensures a * 2.5 / (a + c) < b * 2.5 / (b + c)
  {
    var p, q := a * 2.5 / (a + c), b * 2.5 / (b + c);
    assert p * (a + c) == a * 2.5 && q * (b + c) == b * 2.5;
    ShareIs(a, c, p);
    ShareIs(b, c, q);
    QuotientFalls(2.5 * c, 2.5 * c, a + c, b + c);
  }

  lemma ShareIs(a: real, c: real, p: real)
    requires a > 0.0 && c > 0.0 && p * (a + c) == a * 2.5
    ensures p == 2.5 - 2.5 * c / (a + c)
  {
    var r := 2.5 * c / (a + c);
    assert r * (a + c) == 2.5 * c;
    assert (p + r) * (a + c) == p * (a + c) + r * (a + c);
    Cancels(p + r, 2.5, a + c);
  }

  lemma Cancels(x: real, y: real, z: real)
    requires z > 0.0 && x * z == y * z
    ensures x == y
  {
    assert (x - y) * z == 0.0;
  }

  lemma Scales(w: real, a: real, b: real)
    requires w > 0.0 && a < b
    ensures w * a < w * b
  {
  }

  /** The more often a token occurs, the more it adds. */
  lemma MoreOccurrencesScoreMore(idf: real, tf: nat, more: nat, len: nat, average: real)
    requires idf > 0.0 && 0 < tf < more && average >= 0.0
    ensures Part(idf, tf, len, average) < Part(idf, more, len, average)
  {
    var c := LengthPart(len, average);
    ShareRises(tf as real, more as real, c);
    Scales(idf, tf as real * 2.5 / (tf as real + c), more as real * 2.5 / (more as real + c));
  }

  lemma RatioRises(n: nat, m: nat, x: real)
    requires n < m && x > 0.0
    ensures n as real / x < m as real / x
  {
  }

  /** In a longer document the same occurrences add less. */
  lemma LongerScoresLess(idf: real, tf: nat, len: nat, longer: nat, average: real)
    requires idf > 0.0 && tf > 0 && len < longer && average >= 0.0
    ensures Part(idf, tf, len, average) > Part(idf, tf, longer, average)
  {
    var c := LengthPart(len, average);
    var d := LengthPart(longer, average);
    RatioRises(len, longer, Max(average, 1.0));
    var x := tf as real * 2.5;
    QuotientFalls(x, x, tf as real + c, tf as real + d);
    Scales(idf, x / (tf as real + d), x / (tf as real + c));
  }

  lemma Itself(x: real)
    requires x > 0.0
    ensures x / x == 1.0
  {
  }

  /** One occurrence in a document of average length adds just the weight of the token, and no number of occurrences
      adds two and a half times that; in a document twice as long one occurrence adds twenty twenty-ninths of it. */
  lemma AverageDocument(idf: real, len: nat, tf: nat)
    requires idf > 0.0 && len > 0 && tf > 0
    ensures Part(idf, 1, len, len as real) == idf
    ensures Part(idf, tf, len, len as real) < 2.5 * idf
    ensures Part(idf, 1, 2 * len, len as real) == idf * (2.5 / 3.625)
  {
    Itself(len as real);
    var c := LengthPart(len, len as real);
    assert c == 1.5;
    ShareIs(tf as real, c, tf as real * 2.5 / (tf as real + c));
    QuotientPositive(2.5 * c, tf as real + c);
    Scales(idf, tf as real * 2.5 / (tf as real + c), 2.5);
    var d := LengthPart(2 * len, len as real);
    TwiceOver(len as real);
    assert d == 2.625;
  }

  lemma TwiceOver(x: real)
    requires x > 0.0
    ensures 2.0 * x / x == 2.0
  {
  }
}
