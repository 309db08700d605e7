/** The critical values an interval is widened by, and the replicate count a
    declined case is told it needs. Floating point is exact reals here, and the
    square root is a parameter known only by its defining property. */
module TQuantile {
  import opened RealArithmetic

  const Z: real := 1.6448536269514722

  const T_95: seq<real> := [
    6.313751515, 2.919985580, 2.353363435, 2.131846786, 2.015048373, 1.943180281,
    1.894578605, 1.859548038, 1.833112933, 1.812461123, 1.795884819, 1.782287556,
    1.770933396, 1.761310136, 1.753050356, 1.745883676, 1.739606726, 1.734063607,
    1.729132812, 1.724718243, 1.720742903, 1.717144374, 1.713871528, 1.710882080,
    1.708140761, 1.705617920, 1.703288446, 1.701130934, 1.699127027, 1.697260887
  ]

  /** The Cornish-Fisher expansion of the quantile about the normal value `z`. */
  function Expansion(z: real, v: real): real
    requires v > 0.0
  {
    z + FirstTerm(z) / (4.0 * v) + SecondTerm(z) / (96.0 * (v * v))
  }

  function FirstTerm(z: real): real {
    z * z * z + z
  }

  function SecondTerm(z: real): real {
    5.0 * (z * z * z * z * z) + 16.0 * (z * z * z) + 3.0 * z
  }

  /** `t(0.95, freedom)` about the normal value `z`: the table up to thirty
      degrees of freedom and the expansion beyond, with one degree of freedom as
      the floor. */
  function QuantileAbout(z: real, freedom: nat): real {
    var f := if freedom < 1 then 1 else freedom;
    if f - 1 < |T_95| then T_95[f - 1] else Expansion(z, f as real)
  }

  function Quantile(freedom: nat): real {
    QuantileAbout(Z, freedom)
  }

  lemma TableDecreases(i: nat)
    requires i < 29
    ensures T_95[i] > T_95[i + 1] > 1.69
  {
  }

  lemma PowersPositive(z: real)
    requires z > 0.0
    ensures FirstTerm(z) > 0.0 && SecondTerm(z) > 0.0
  {
    var z3 := z * z * z;
    assert z3 > 0.0 by {
      assert z * z > 0.0;
    }
    assert z3 * z * z > 0.0 by {
      assert z3 * z > 0.0;
    }
  }

  lemma ExpansionDecreases(z: real, v: real, w: real)
    requires z > 0.0 && 0.0 < v < w
    ensures Expansion(z, v) > Expansion(z, w) > z
  {
    PowersPositive(z);
    FractionDecreases(FirstTerm(z), 4.0 * v, 4.0 * w);
    SquareGrows(v, w);
    FractionDecreases(SecondTerm(z), 96.0 * (v * v), 96.0 * (w * w));
  }

  lemma PowerBounds(z: real)
    requires 0.0 < z <= 1.645
    ensures FirstTerm(z) <= 6.1 && SecondTerm(z) <= 136.5
  {
    MulBounds(z, z, 1.645, 1.645);
    var z2 := z * z;
    assert z2 <= 2.70603;
    MulBounds(z2, z, 2.70603, 1.645);
    var z3 := z2 * z;
    assert z3 <= 4.45142;
    MulBounds(z3, z, 4.45142, 1.645);
    var z4 := z3 * z;
    assert z4 <= 7.32259;
    MulBounds(z4, z, 7.32259, 1.645);
    assert z4 * z <= 12.04567;
  }

  /** The expansion takes over below the last tabulated value. */
  lemma Seam(z: real, v: real)
    requires 0.0 < z <= 1.645 && v == 31.0
    ensures 1.697260887 > Expansion(z, v) > z
  {
    PowerBounds(z);
    PowersPositive(z);
    assert v * v == 961.0;
    assert FirstTerm(z) / (4.0 * v) <= 0.0493;
    assert SecondTerm(z) / (96.0 * (v * v)) <= 0.00149;
  }

  lemma QuantileStep(z: real, f: nat)
    requires 0.0 < z <= 1.645 && f >= 1
    ensures QuantileAbout(z, f) > QuantileAbout(z, f + 1) > z
  {
    if f <= 29 {
      TableDecreases(f - 1);
    } else if f == 30 {
      Seam(z, 31.0);
    } else {
      ExpansionDecreases(z, f as real, (f + 1) as real);
    }
  }

  lemma {:induction false} QuantileFalls(z: real, f: nat, g: nat)
    requires 0.0 < z <= 1.645 && 1 <= f < g
    ensures QuantileAbout(z, f) > QuantileAbout(z, g) > z
    decreases g
  {
    QuantileStep(z, g - 1);
    if f < g - 1 {
      QuantileFalls(z, f, g - 1);
    }
  }

  /** The quantile falls strictly with the degrees of freedom, over the table,
      across the seam and along the expansion, and never reaches the normal
      value. */
  lemma QuantileDecreases(f: nat, g: nat)
    requires 1 <= f < g
    ensures Quantile(f) > Quantile(g) > Z
  {
    QuantileFalls(Z, f, g);
  }

  // ---- the numerics the decision rule is built on ----

  /** The square root, the critical values and the normal value. The rule's
      properties hold for any such numerics; `SourceNumericsAreValid` says the
      tabulated ones are an instance. */
  datatype Numerics = Numerics(sqrt: real -> real, t: nat -> real, z: real) {
    ghost predicate Valid() {
      && z > 0.0
      && (forall x: real | x >= 0.0 :: IsRoot(sqrt(x), x))
      && t(0) == t(1)
      && (forall f: nat, g: nat | 1 <= f < g :: t(f) > t(g) > z)
    }
  }

  ghost predicate IsRoot(r: real, x: real) {
    r >= 0.0 && r * r == x
  }

  lemma SourceNumericsAreValid(sqrt: real -> real)
    requires forall x: real | x >= 0.0 :: IsRoot(sqrt(x), x)
    ensures Numerics(sqrt, Quantile, Z).Valid()
  {
    var t := Quantile;
    forall f: nat, g: nat | 1 <= f < g
      ensures t(f) > t(g) > Z
    {
      QuantileDecreases(f, g);
    }
  }

  lemma CriticalAboveNormal(num: Numerics, f: nat)
    requires num.Valid()
    ensures num.t(f) > num.z > 0.0
  {
    if f == 0 {
      assert num.t(1) > num.t(2);
    } else {
      assert num.t(f) > num.t(f + 1);
    }
  }

  // ---- the widening factor ----

  function Ratio(n: nat): real
    requires n >= 2
  {
    n as real / (n as real - 1.0)
  }

  function Widening(num: Numerics, n: nat): real
    requires n >= 2 && num.z > 0.0
  {
    Factor(num.t(n - 1), num.z, num.sqrt(Ratio(n)))
  }

  function Factor(t: real, z: real, root: real): real
    requires z > 0.0
  {
    t / z * root
  }

  lemma RootOrder(a: real, b: real)
    requires a >= 0.0 && b >= 0.0 && a * a < b * b
    ensures a < b
  {
    if a >= b {
      MulBounds(b, b, a, a);
    }
  }

  lemma SqrtGrows(num: Numerics, x: real, y: real)
    requires num.Valid() && 0.0 <= x < y
    ensures 0.0 <= num.sqrt(x) < num.sqrt(y)
  {
    assert IsRoot(num.sqrt(x), x) && IsRoot(num.sqrt(y), y);
    RootOrder(num.sqrt(x), num.sqrt(y));
  }

  lemma RootOfOne(num: Numerics)
    requires num.Valid()
    ensures num.sqrt(1.0) == 1.0
  {
    assert IsRoot(num.sqrt(1.0), 1.0);
    PositiveRootOfOne(num.sqrt(1.0));
  }

  lemma PositiveRootOfOne(r: real)
    requires r >= 0.0 && r * r == 1.0
    ensures r == 1.0
  {
    if r < 1.0 {
      MulBounds(r, r, r, 1.0);
    } else {
      MulBounds(1.0, r, r, r);
    }
  }

  lemma RatioDecreases(m: nat, n: nat)
    requires 2 <= m < n
    ensures Ratio(m) > Ratio(n) > 1.0
  {
    var a, b := m as real - 1.0, n as real - 1.0;
    FractionSplits(m as real, a);
    FractionSplits(n as real, b);
    FractionDecreases(1.0, a, b);
  }

  lemma RootRatioDecreases(num: Numerics, m: nat, n: nat)
    requires num.Valid() && 2 <= m < n
    ensures num.sqrt(Ratio(m)) > num.sqrt(Ratio(n)) > 1.0
  {
    RatioDecreases(m, n);
    RootOfOne(num);
    SqrtGrows(num, Ratio(n), Ratio(m));
    SqrtGrows(num, 1.0, Ratio(n));
  }

  /** Every interval is widened, and by strictly less the more pairs it has. */
  lemma WideningDecreases(num: Numerics, m: nat, n: nat)
    requires num.Valid() && 2 <= m < n
    ensures Widening(num, m) > Widening(num, n) > 1.0
  {
    RootRatioDecreases(num, m, n);
    assert num.t(m - 1) > num.t(n - 1) > num.z;
    FactorDecreases(num.t(m - 1), num.t(n - 1), num.z, num.sqrt(Ratio(m)), num.sqrt(Ratio(n)));
  }

  lemma FactorDecreases(p: real, q: real, z: real, s: real, t: real)
    requires p > q > z > 0.0 && s > t > 1.0
    ensures Factor(p, z, s) > Factor(q, z, t) > 1.0
  {
    DivGrows(q, p, z);
    DivAboveOne(q, z);
    ProductGrows(q / z, t, p / z, s);
  }

  lemma WideningWidens(num: Numerics, n: nat)
    requires num.Valid() && n >= 2
    ensures Widening(num, n) > 1.0
  {
    WideningDecreases(num, n, n + 1);
  }

  /** What the factor is, without the root: its square carries the ratio of the
      critical values and the small-sample correction `n / (n - 1)`. */
  lemma WideningSquared(num: Numerics, n: nat)
    requires num.Valid() && n >= 2
    ensures var w, t, z := Widening(num, n), num.t(n - 1), num.z;
      w > 0.0 && (w * w) * (z * z) * (n as real - 1.0) == (t * t) * n as real
  {
    var m := n as real - 1.0;
    WideningWidens(num, n);
    RatioDecreases(n, n + 1);
    assert IsRoot(num.sqrt(Ratio(n)), Ratio(n));
    assert Ratio(n) * m == n as real;
    FactorSquared(num.t(n - 1), num.z, num.sqrt(Ratio(n)), Ratio(n), m, n as real);
  }

  lemma FactorSquared(t: real, z: real, root: real, ratio: real, m: real, n: real)
    requires z > 0.0 && root * root == ratio && ratio * m == n
    ensures var w := Factor(t, z, root); (w * w) * (z * z) * m == (t * t) * n
  {
    var q := t / z;
    assert q * z == t;
    SquareOfProduct(q, root, z, m);
    assert (q * z) * (q * z) == t * t;
    assert (root * root) * m == n;
  }

  lemma SquareOfProduct(q: real, r: real, z: real, m: real)
    ensures ((q * r) * (q * r)) * (z * z) * m == ((q * z) * (q * z)) * ((r * r) * m)
  {
  }

  /** The critical values themselves: thirty tabulated ones, one degree of freedom
      standing in for none, and beyond them the expansion, here without its
      divisions. */
  lemma QuantileValues(z: real, f: nat)
    ensures f == 0 ==> QuantileAbout(z, f) == 6.313751515
    ensures 1 <= f <= 30 ==> QuantileAbout(z, f) == T_95[f - 1]
    ensures f > 30 ==>
      var v := f as real;
      (QuantileAbout(z, f) - z) * (96.0 * (v * v))
      == 24.0 * (z * z * z + z) * v + (5.0 * (z * z * z * z * z) + 16.0 * (z * z * z) + 3.0 * z)
  {
    if f > 30 {
      var v := f as real;
      SquareGrows(v, v + 1.0);
      ExpansionCleared(FirstTerm(z), SecondTerm(z), v, v * v);
    }
  }

  lemma ExpansionCleared(a: real, b: real, v: real, vv: real)
    requires v > 0.0 && vv > 0.0 && vv == v * v
    ensures (a / (4.0 * v) + b / (96.0 * vv)) * (96.0 * vv) == 24.0 * a * v + b
  {
    var w := 96.0 * vv;
    var x, y := a / (4.0 * v), b / w;
    QuotientTimes(a, 4.0 * v);
    QuotientTimes(b, w);
    assert x * w == (x * (4.0 * v)) * (24.0 * v);
  }

  lemma QuotientTimes(a: real, v: real)
    requires v > 0.0
    ensures a / v * v == a
  {
  }
}
