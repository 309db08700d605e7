/** The replicate count a declined metric is told it needs. */
module Replicates {
  import opened Wrappers
  import opened RealArithmetic
  import opened TQuantile

  const MIN_REPLICATES: nat := 5
  const MIN_BALANCED_REPLICATES: nat := MIN_REPLICATES + MIN_REPLICATES % 2
  const MAX_SUGGESTED_REPLICATES: nat := 200

  function Freedom(n: nat): nat {
    if n == 0 then 0 else n - 1
  }

  /** The half-width `half`, measured over `n` pairs, projected to `m`. */
  function Projected(num: Numerics, half: real, n: nat, m: nat): real
    requires m >= 1 && num.t(Freedom(n)) > 0.0
  {
    Scale(half, num.t(m - 1), num.t(Freedom(n)), num.sqrt(n as real / m as real))
  }

  function Scale(half: real, t: real, measured: real, root: real): real
    requires measured > 0.0
  {
    half * t / measured * root
  }

  predicate Suffices(num: Numerics, half: real, n: nat, floor: real, m: nat)
    requires m >= 1 && num.t(Freedom(n)) > 0.0
  {
    Projected(num, half, n, m) < floor
  }

  /** The first count from `m`, in steps of two, that fits. */
  function Search(fits: nat -> bool, m: nat): (r: Option<nat>)
    ensures r.Some? ==>
      && m <= r.value <= MAX_SUGGESTED_REPLICATES && r.value % 2 == m % 2 && fits(r.value)
      && forall k: nat | m <= k < r.value && k % 2 == m % 2 :: !fits(k)
    ensures r.None? ==> forall k: nat | m <= k <= MAX_SUGGESTED_REPLICATES && k % 2 == m % 2 :: !fits(k)
    decreases MAX_SUGGESTED_REPLICATES + 1 - m
  {
    if m > MAX_SUGGESTED_REPLICATES then None
    else if fits(m) then Some(m)
    else Search(fits, m + 2)
  }

  function ReplicatesFor(num: Numerics, half: real, n: nat, floor: real): (r: Option<nat>)
    requires num.t(Freedom(n)) > 0.0
    ensures r.Some? ==>
      && 6 <= r.value <= 200 && r.value % 2 == 0 && Suffices(num, half, n, floor, r.value)
      && forall k | 6 <= k < r.value && k % 2 == 0 :: !Suffices(num, half, n, floor, k)
    ensures r.None? ==> forall k | 6 <= k <= 200 && k % 2 == 0 :: !Suffices(num, half, n, floor, k)
  {
    var fits := (m: nat) => m >= 1 && Suffices(num, half, n, floor, m);
    var r := Search(fits, MIN_BALANCED_REPLICATES);
    assert forall k: nat | k >= 1 :: fits(k) <==> Suffices(num, half, n, floor, k);
    r
  }

  // ---- the projection falls as the count grows ----

  lemma ScaleGrows(half: real, t: real, t': real, measured: real, root: real, root': real)
    requires half >= 0.0 && 0.0 <= t <= t' && measured > 0.0 && 0.0 <= root <= root'
    ensures Scale(half, t, measured, root) <= Scale(half, t', measured, root')
  {
    MulBounds(half, t, half, t');
    QuotientGrows(half * t, half * t', measured);
    MulBounds(half * t / measured, root, half * t' / measured, root');
  }

  lemma QuotientGrows(a: real, b: real, v: real)
    requires 0.0 <= a <= b && v > 0.0
    ensures 0.0 <= a / v <= b / v
  {
    if a < b {
      DivGrows(a, b, v);
    }
    if a > 0.0 {
      DivGrows(0.0, a, v);
    }
    QuotientIs(0.0, v, 0.0);
  }

  lemma RootsShrink(num: Numerics, n: nat, m: nat, k: nat)
    requires num.Valid() && 1 <= m <= k
    ensures 0.0 <= num.sqrt(n as real / k as real) <= num.sqrt(n as real / m as real)
  {
    var x, y := n as real / k as real, n as real / m as real;
    if n > 0 && m < k {
      FractionDecreases(n as real, m as real, k as real);
      SqrtGrows(num, x, y);
    } else {
      QuotientGrows(0.0, n as real, k as real);
      assert n == 0 ==> x == y by {
        QuotientIs(0.0, k as real, 0.0);
        QuotientIs(0.0, m as real, 0.0);
      }
      assert IsRoot(num.sqrt(x), x);
    }
  }

  lemma CriticalsShrink(num: Numerics, m: nat, k: nat)
    requires num.Valid() && m <= k
    ensures 0.0 < num.t(k) <= num.t(m)
  {
    CriticalAboveNormal(num, k);
    if m == 0 && k > 1 {
      assert num.t(1) > num.t(k);
    }
  }

  /** Once a count suffices, every larger one does. */
  lemma LargerCountsSuffice(num: Numerics, half: real, n: nat, floor: real, m: nat, k: nat)
    requires num.Valid() && half >= 0.0 && 1 <= m <= k && num.t(Freedom(n)) > 0.0
    requires Suffices(num, half, n, floor, m)
    ensures Suffices(num, half, n, floor, k)
  {
    CriticalsShrink(num, m - 1, k - 1);
    RootsShrink(num, n, m, k);
    ScaleGrows(half, num.t(k - 1), num.t(m - 1), num.t(Freedom(n)),
               num.sqrt(n as real / k as real), num.sqrt(n as real / m as real));
  }

  /** No count up to the one measured narrows an interval already as wide as the
      floor. */
  lemma CountsAlreadyRunDoNotSuffice(num: Numerics, half: real, n: nat, floor: real, m: nat)
    requires num.Valid() && half >= floor && half >= 0.0 && 1 <= m <= n && num.t(Freedom(n)) > 0.0
    ensures !Suffices(num, half, n, floor, m)
  {
    CriticalsShrink(num, m - 1, n - 1);
    RootsShrink(num, n, m, n);
    QuotientIs(n as real, n as real, 1.0);
    RootOfOne(num);
    ScaleGrows(half, num.t(n - 1), num.t(m - 1), num.t(n - 1), 1.0, num.sqrt(n as real / m as real));
    ScaleByItself(half, num.t(n - 1));
  }

  lemma ScaleByItself(half: real, t: real)
    requires t > 0.0
    ensures Scale(half, t, t, 1.0) == half
  {
    QuotientIs(half * t, t, half);
  }

  /** Nothing up to 200 is enough exactly when the even counts are not. */
  lemma NoCountSuffices(num: Numerics, half: real, n: nat, floor: real, m: nat)
    requires num.Valid() && half >= 0.0 && num.t(Freedom(n)) > 0.0
    requires ReplicatesFor(num, half, n, floor).None? && 6 <= m <= 200
    ensures !Suffices(num, half, n, floor, m)
  {
    if Suffices(num, half, n, floor, m) {
      LargerCountsSuffice(num, half, n, floor, m, 200);
    }
  }

  lemma NamedCountExceedsTheRun(num: Numerics, half: real, n: nat, floor: real, count: nat)
    requires num.Valid() && half >= 0.0 && (n < MIN_REPLICATES || half >= floor) && num.t(Freedom(n)) > 0.0
    requires ReplicatesFor(num, half, n, floor) == Some(count)
    ensures count > n
  {
    if n >= count {
      CountsAlreadyRunDoNotSuffice(num, half, n, floor, count);
    }
  }

  /** What the projection is, without the root: the half-width carries its
      critical value over, and shrinks with the root of the count. */
  lemma ProjectedSquared(num: Numerics, half: real, n: nat, m: nat)
    requires num.Valid() && m >= 1 && num.t(Freedom(n)) > 0.0
    ensures var p, t, u := Projected(num, half, n, m), num.t(m - 1), num.t(Freedom(n));
      (p * p) * m as real * (u * u) == (half * half) * (t * t) * n as real
  {
    var x := n as real / m as real;
    QuotientGrows(0.0, n as real, m as real);
    assert IsRoot(num.sqrt(x), x);
    assert x * m as real == n as real;
    ScaleSquared(half, num.t(m - 1), num.t(Freedom(n)), num.sqrt(x), x, m as real, n as real);
  }

  lemma ScaleSquared(half: real, t: real, u: real, root: real, x: real, m: real, n: real)
    requires u > 0.0 && root * root == x && x * m == n
    ensures var p := Scale(half, t, u, root); (p * p) * m * (u * u) == (half * half) * (t * t) * n
  {
    var a := half * t / u;
    assert a * u == half * t;
    SquareOfScaled(a, root, m, u);
    assert (root * root) * m == n;
    assert (half * t) * (half * t) == (half * half) * (t * t);
  }

  lemma SquareOfScaled(a: real, r: real, m: real, u: real)
    ensures ((a * r) * (a * r)) * m * (u * u) == ((a * u) * (a * u)) * ((r * r) * m)
  {
  }

  /** The projected half-width is under the floor, said about the measured one:
      `half^2 t(m-1)^2 n < floor^2 t(n-1)^2 m`. */
  ghost predicate FitsTheFloor(num: Numerics, half: real, n: nat, floor: real, m: nat) {
    && m >= 1 && floor > 0.0
    && (half * half) * (num.t(m - 1) * num.t(m - 1)) * n as real
       < (floor * floor) * (num.t(Freedom(n)) * num.t(Freedom(n))) * m as real
  }

  lemma SufficesIffFits(num: Numerics, half: real, n: nat, floor: real, m: nat)
    requires num.Valid() && half >= 0.0 && m >= 1 && num.t(Freedom(n)) > 0.0
    ensures Suffices(num, half, n, floor, m) <==> FitsTheFloor(num, half, n, floor, m)
  {
    var p, t, u := Projected(num, half, n, m), num.t(m - 1), num.t(Freedom(n));
    ProjectedIsNotNegative(num, half, n, m);
    ProjectedSquared(num, half, n, m);
    UnderTheFloor(p, floor, m as real, u, (half * half) * (t * t) * n as real);
  }

  lemma UnderTheFloor(p: real, floor: real, m: real, u: real, q: real)
    requires p >= 0.0 && m > 0.0 && u > 0.0 && (p * p) * m * (u * u) == q
    ensures p < floor <==> floor > 0.0 && q < (floor * floor) * (u * u) * m
  {
    if floor > 0.0 {
      BySquares(p, floor, m, u, q);
    }
  }

  lemma BySquares(p: real, floor: real, m: real, u: real, q: real)
    requires p >= 0.0 && floor > 0.0 && m > 0.0 && u > 0.0 && (p * p) * m * (u * u) == q
    ensures p < floor <==> q < (floor * floor) * (u * u) * m
  {
    SquaresOrder(0.0, u);
    SquaresOrder(p, floor);
    ScaledTwice(p * p, floor * floor, m, u * u, q);
  }

  lemma ProjectedIsNotNegative(num: Numerics, half: real, n: nat, m: nat)
    requires num.Valid() && half >= 0.0 && m >= 1 && num.t(Freedom(n)) > 0.0
    ensures Projected(num, half, n, m) >= 0.0
  {
    CriticalAboveNormal(num, m - 1);
    RootsShrink(num, n, m, m);
    ScaleGrows(0.0, num.t(m - 1), num.t(m - 1), num.t(Freedom(n)), 0.0, 0.0);
    var t, r := num.t(m - 1), num.sqrt(n as real / m as real);
    MulBounds(0.0, 0.0, half, t);
    QuotientGrows(0.0, half * t, num.t(Freedom(n)));
    MulBounds(0.0, 0.0, half * t / num.t(Freedom(n)), r);
  }

  lemma ScaledTwice(x: real, y: real, m: real, v: real, q: real)
    requires m > 0.0 && v > 0.0 && x * m * v == q
    ensures x < y <==> q < y * v * m
  {
    ScaledOrder(x, y, m);
    ScaledOrder(x * m, y * m, v);
    assert y * v * m == y * m * v;
  }

  lemma SquaresOrder(p: real, f: real)
    requires p >= 0.0 && f > 0.0
    ensures p < f <==> p * p < f * f
  {
    if p < f {
      ProductPositive(f - p, f + p);
      assert (f - p) * (f + p) == f * f - p * p;
    } else {
      MulBounds(f, f, p, p);
    }
  }

  lemma ScaledOrder(x: real, y: real, c: real)
    requires c > 0.0
    ensures x < y <==> x * c < y * c
  {
    if x < y {
      assert (y - x) * c > 0.0;
    } else {
      assert (x - y) * c >= 0.0;
    }
  }

  /** The count named for a metric the rule declined, for too few pairs or for an
      interval as wide as its floor: even, between 6 and 200, more than was run,
      and the smallest even count at which the projected interval fits the floor,
      with every larger count fitting it too. None is named exactly when no count
      up to 200 fits. */
  lemma NamedCountIsTheSmallest(num: Numerics, half: real, n: nat, floor: real)
    requires num.Valid() && half >= 0.0 && (n < MIN_REPLICATES || half >= floor)
    requires num.t(Freedom(n)) > 0.0
    ensures var r := ReplicatesFor(num, half, n, floor);
      && (r.Some? ==>
            && r.value % 2 == 0 && 6 <= r.value <= 200 && r.value > n
            && (forall m | 6 <= m < r.value && m % 2 == 0 :: !FitsTheFloor(num, half, n, floor, m))
            && (forall m | m >= r.value :: FitsTheFloor(num, half, n, floor, m)))
      && (r.None? <==> forall m | 6 <= m <= 200 :: !FitsTheFloor(num, half, n, floor, m))
  {
    var r := ReplicatesFor(num, half, n, floor);
    forall m: nat | m >= 1
      ensures Suffices(num, half, n, floor, m) <==> FitsTheFloor(num, half, n, floor, m)
    {
      SufficesIffFits(num, half, n, floor, m);
    }
    if r.Some? {
      NamedCountExceedsTheRun(num, half, n, floor, r.value);
      forall m | m >= r.value
        ensures FitsTheFloor(num, half, n, floor, m)
      {
        LargerCountsSuffice(num, half, n, floor, r.value, m);
      }
    } else {
      forall m | 6 <= m <= 200
        ensures !FitsTheFloor(num, half, n, floor, m)
      {
        NoCountSuffices(num, half, n, floor, m);
      }
    }
  }
}
