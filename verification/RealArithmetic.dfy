/** Facts about products and quotients of reals, each small enough to prove on
    its own and named where it is used. */
module RealArithmetic {

  function Sum(d: seq<real>): real {
    if d == [] then 0.0 else Sum(d[..|d| - 1]) + d[|d| - 1]
  }

  lemma MulBounds(a: real, b: real, c: real, d: real)
    requires 0.0 <= a <= c && 0.0 <= b <= d
    ensures 0.0 <= a * b <= c * d
  {
    assert a * b >= 0.0;
    assert (c - a) * b >= 0.0;
    assert c * (d - b) >= 0.0;
  }

  lemma SquareGrows(v: real, w: real)
    requires 0.0 < v < w
    ensures 0.0 < v * v < w * w
  {
    assert v * (w - v) > 0.0;
    assert w * (w - v) > 0.0;
  }

  /** The quotient is the number whose product with the divisor is `a`. */
  lemma QuotientIs(a: real, v: real, q: real)
    requires v != 0.0 && q * v == a
    ensures a / v == q
  {
    Cancel(a / v, q, v);
  }

  lemma Cancel(p: real, q: real, v: real)
    requires v != 0.0 && p * v == q * v
    ensures p == q
  {
    assert (p - q) * v == 0.0;
  }

  lemma FractionDecreases(a: real, v: real, w: real)
    requires a > 0.0 && 0.0 < v < w
    ensures a / v > a / w > 0.0
  {
    var p, q := a / v, a / w;
    assert p * v == a && q * w == a;
    PositiveQuotient(q, w);
    assert q * (w - v) > 0.0;
    assert (p - q) * v > 0.0;
    PositiveQuotient(p - q, v);
  }

  lemma PositiveQuotient(p: real, v: real)
    requires v > 0.0 && p * v > 0.0
    ensures p > 0.0
  {
  }

  lemma FractionSplits(x: real, a: real)
    requires a > 0.0 && x == a + 1.0
    ensures x / a == 1.0 + 1.0 / a
  {
    var i := 1.0 / a;
    assert i * a == 1.0;
    assert (1.0 + i) * a == x;
    QuotientIs(x, a, 1.0 + i);
  }

  lemma DivGrows(a: real, b: real, v: real)
    requires a < b && v > 0.0
    ensures a / v < b / v
  {
    var p, q := a / v, b / v;
    assert p * v == a && q * v == b;
    assert (q - p) * v > 0.0;
    PositiveQuotient(q - p, v);
  }

  lemma DivAboveOne(a: real, v: real)
    requires a > v > 0.0
    ensures a / v > 1.0
  {
    DivGrows(v, a, v);
    QuotientIs(v, v, 1.0);
  }

  lemma ProductGrows(a: real, b: real, c: real, d: real)
    requires 1.0 < a < c && 1.0 < b < d
    ensures 1.0 < a * b < c * d
  {
    assert a * (b - 1.0) > 0.0;
    assert (c - a) * b > 0.0;
    assert c * (d - b) > 0.0;
  }

  lemma DivAdd(a: real, b: real, n: real)
    requires n != 0.0
    ensures (a + b) / n == a / n + b / n
  {
    var p, q := a / n, b / n;
    assert p * n == a && q * n == b;
    assert (p + q) * n == a + b;
    QuotientIs(a + b, n, p + q);
  }

  lemma ProductPositive(a: real, b: real)
    requires a > 0.0 && b > 0.0
    ensures a * b > 0.0
  {
  }
}
