/** What the interval promises for every sample and every seed. */
module BootstrapLaws {
  import opened Arithmetic
  import opened LittleEndian
  import opened RealArithmetic
  import opened OrderStatistics
  import opened TQuantile
  import opened Bootstrap
  import Rng = SplitMix64

  /** `f` is the map `x -> a * x + b`. */
  ghost predicate IsLine(f: real -> real, a: real, b: real) {
    forall x :: f(x) == a * x + b
  }

  lemma LineIncreases(f: real -> real, a: real, b: real)
    requires IsLine(f, a, b) && a > 0.0
    ensures Increasing(f)
  {
    forall x, y | x < y
      ensures f(x) < f(y)
    {
      assert a * (y - x) > 0.0;
    }
  }

  // ---- means ----

  lemma {:induction false} SumOfLine(s: seq<real>, t: seq<real>, f: real -> real, a: real, b: real)
    requires IsLine(f, a, b) && IsImage(s, t, f)
    ensures Sum(t) == a * Sum(s) + |s| as real * b
  {
    if s != [] {
      var n := |s| - 1;
      SumOfLine(s[..n], t[..n], f, a, b);
      SumStep(a, b, Sum(s[..n]), s[n], n as real);
      assert t[n] == f(s[n]);
    }
  }

  lemma SumStep(a: real, b: real, total: real, x: real, n: real)
    ensures (a * total + n * b) + (a * x + b) == a * (total + x) + (n + 1.0) * b
  {
  }

  lemma MeanOfLine(s: seq<real>, t: seq<real>, f: real -> real, a: real, b: real)
    requires s != [] && IsLine(f, a, b) && IsImage(s, t, f)
    ensures Mean(t) == f(Mean(s))
  {
    SumOfLine(s, t, f, a, b);
    QuotientOfLine(Sum(s), Sum(t), |s| as real, a, b);
  }

  lemma QuotientOfLine(x: real, y: real, n: real, a: real, b: real)
    requires n > 0.0 && y == a * x + n * b
    ensures y / n == a * (x / n) + b
  {
    var q := x / n;
    assert q * n == x;
    assert (a * q + b) * n == a * (q * n) + n * b;
    QuotientIs(y, n, a * q + b);
  }

  lemma DrawnImage(s: Sample, t: Sample, f: real -> real, seed: Word, i: nat)
    requires s != [] && IsImage(s, t, f)
    ensures Drawn(t, seed, i) == f(Drawn(s, seed, i))
  {
  }

  lemma ResampleImage(s: Sample, t: Sample, f: real -> real, seed: Word, start: nat)
    requires s != [] && IsImage(s, t, f)
    ensures IsImage(Resample(s, seed, start), Resample(t, seed, start), f)
  {
    forall k | 0 <= k < |s|
      ensures Resample(t, seed, start)[k] == f(Resample(s, seed, start)[k])
    {
      DrawAt(s, seed, start, k);
      DrawAt(t, seed, start, k);
      DrawnImage(s, t, f, seed, start + k);
    }
  }

  lemma MeansImage(s: Sample, t: Sample, f: real -> real, a: real, b: real, seed: Word)
    requires s != [] && IsLine(f, a, b) && IsImage(s, t, f)
    ensures IsImage(ResampleMeans(s, seed), ResampleMeans(t, seed), f)
  {
    forall r | 0 <= r < RESAMPLES
      ensures ResampleMeans(t, seed)[r] == f(ResampleMeans(s, seed)[r])
    {
      ResampleImage(s, t, f, seed, |s| * r);
      MeanOfLine(Resample(s, seed, |s| * r), Resample(t, seed, |s| * r), f, a, b);
    }
  }

  // ---- scaling up and shifting ----

  lemma CutsImage(s: Sample, t: Sample, f: real -> real, seed: Word)
    requires s != [] && t != [] && Increasing(f)
    requires IsImage(ResampleMeans(s, seed), ResampleMeans(t, seed), f)
    ensures LowCut(t, seed) == f(LowCut(s, seed))
    ensures HighCut(t, seed) == f(HighCut(s, seed))
  {
    CutIndices();
    SortedImage(ResampleMeans(s, seed), ResampleMeans(t, seed), f, 500);
    SortedImage(ResampleMeans(s, seed), ResampleMeans(t, seed), f, 9499);
  }

  lemma WidenedImage(centre: real, factor: real, low: real, high: real, f: real -> real, a: real, b: real)
    requires IsLine(f, a, b)
    ensures var ci := Widened(centre, factor, low, high);
      Widened(f(centre), factor, f(low), f(high)) == Interval(f(ci.low), f(ci.high))
  {
    WidenedLine(centre, factor, low, a, b);
    WidenedLine(centre, factor, high, a, b);
  }

  lemma WidenedLine(centre: real, factor: real, x: real, a: real, b: real)
    ensures a * (centre + factor * (x - centre)) + b
         == (a * centre + b) + factor * ((a * x + b) - (a * centre + b))
    ensures a * (centre - factor * (centre - x)) + b
         == (a * centre + b) - factor * ((a * centre + b) - (a * x + b))
  {
    assert factor * (a * x - a * centre) == a * (factor * (x - centre));
  }

  /** Scaling a sample up and shifting it carries both ends of its interval
      along, under every seed. */
  lemma IntervalIsAffineEquivariant(num: Numerics, s: Sample, t: Sample, f: real -> real, a: real, b: real, seed: Word)
    requires s != [] && num.z > 0.0 && a > 0.0 && IsLine(f, a, b) && IsImage(s, t, f)
    ensures var ci := ConfidenceInterval(num, s, seed);
      ConfidenceInterval(num, t, seed) == Interval(f(ci.low), f(ci.high))
  {
    if |s| > 1 {
      LineIncreases(f, a, b);
      MeanOfLine(s, t, f, a, b);
      MeansImage(s, t, f, a, b, seed);
      CutsImage(s, t, f, seed);
      WidenedImage(Mean(s), Widening(num, |s|), LowCut(s, seed), HighCut(s, seed), f, a, b);
    }
  }

  // ---- reflecting ----

  lemma CutsNegated(s: Sample, t: Sample, f: real -> real, seed: Word)
    requires s != [] && t != [] && Negates(f)
    requires IsImage(ResampleMeans(s, seed), ResampleMeans(t, seed), f)
    ensures LowCut(t, seed) == -HighCut(s, seed)
    ensures HighCut(t, seed) == -LowCut(s, seed)
  {
    CutIndices();
    SortedNegated(ResampleMeans(s, seed), ResampleMeans(t, seed), f, 500);
    SortedNegated(ResampleMeans(s, seed), ResampleMeans(t, seed), f, 9499);
  }

  /** Reflecting a sample reflects its interval, because the two cuts sit at
      mirrored ranks. */
  lemma IntervalMirrors(num: Numerics, s: Sample, t: Sample, f: real -> real, seed: Word)
    requires s != [] && num.z > 0.0 && Negates(f) && IsImage(s, t, f)
    ensures var ci := ConfidenceInterval(num, s, seed);
      ConfidenceInterval(num, t, seed) == Interval(-ci.high, -ci.low)
  {
    if |s| > 1 {
      assert IsLine(f, -1.0, 0.0);
      MeanOfLine(s, t, f, -1.0, 0.0);
      MeansImage(s, t, f, -1.0, 0.0, seed);
      CutsNegated(s, t, f, seed);
      WidenedNegated(Mean(s), Widening(num, |s|), LowCut(s, seed), HighCut(s, seed));
    }
  }

  lemma WidenedNegated(centre: real, factor: real, low: real, high: real)
    ensures var ci := Widened(centre, factor, low, high);
      Widened(-centre, factor, -high, -low) == Interval(-ci.high, -ci.low)
  {
    assert factor * (-centre - -high) == factor * (high - centre);
    assert factor * (-low - -centre) == factor * (centre - low);
  }

  // ---- width ----

  lemma CutsAreOrdered(d: Sample, seed: Word)
    requires d != []
    ensures LowCut(d, seed) <= HighCut(d, seed)
  {
    CutIndices();
    SortIncreases(ResampleMeans(d, seed), 500, 9499);
  }

  /** The interval's width is the widening factor times the spread of the cuts,
      so its ends are always in order. */
  lemma IntervalWidth(num: Numerics, d: Sample, seed: Word)
    requires |d| >= 2 && num.Valid()
    ensures var ci := ConfidenceInterval(num, d, seed);
      ci.high - ci.low == Widening(num, |d|) * (HighCut(d, seed) - LowCut(d, seed)) >= 0.0
  {
    CutsAreOrdered(d, seed);
    WideningWidens(num, |d|);
    WidenedWidth(Mean(d), Widening(num, |d|), LowCut(d, seed), HighCut(d, seed));
  }

  lemma WidenedWidth(centre: real, factor: real, low: real, high: real)
    requires factor > 0.0 && low <= high
    ensures var ci := Widened(centre, factor, low, high);
      ci.high - ci.low == factor * (high - low) >= 0.0
  {
    assert factor * (high - centre) + factor * (centre - low) == factor * (high - low);
    assert factor * (high - low) >= 0.0;
  }

  lemma IntervalEndsInOrder(num: Numerics, d: Sample, seed: Word)
    requires d != [] && num.Valid()
    ensures ConfidenceInterval(num, d, seed).low <= ConfidenceInterval(num, d, seed).high
  {
    if |d| >= 2 {
      IntervalWidth(num, d, seed);
    }
  }

  // ---- samples without spread ----

  ghost predicate AllEqual(d: seq<real>, c: real) {
    forall i | 0 <= i < |d| :: d[i] == c
  }

  lemma {:induction false} SumOfConstant(d: seq<real>, c: real)
    requires AllEqual(d, c)
    ensures Sum(d) == |d| as real * c
  {
    if d != [] {
      SumOfConstant(d[..|d| - 1], c);
    }
  }

  lemma MeanOfConstant(d: seq<real>, c: real)
    requires d != [] && AllEqual(d, c)
    ensures Mean(d) == c
  {
    SumOfConstant(d, c);
    QuotientIs(Sum(d), |d| as real, c);
  }

  lemma {:induction false} ConstantCounts(d: seq<real>, c: real)
    requires AllEqual(d, c)
    ensures CountBelow(d, c) == 0 && CountUpTo(d, c) == |d|
  {
    if d != [] {
      ConstantCounts(d[1..], c);
    }
  }

  lemma ResampleOfConstant(d: Sample, c: real, seed: Word, start: nat)
    requires d != [] && AllEqual(d, c)
    ensures AllEqual(Resample(d, seed, start), c)
  {
    forall k | 0 <= k < |d|
      ensures Resample(d, seed, start)[k] == c
    {
      DrawAt(d, seed, start, k);
    }
  }

  lemma MeansOfConstant(d: Sample, c: real, seed: Word)
    requires d != [] && AllEqual(d, c)
    ensures AllEqual(ResampleMeans(d, seed), c)
  {
    forall r | 0 <= r < RESAMPLES
      ensures ResampleMeans(d, seed)[r] == c
    {
      ResampleOfConstant(d, c, seed, |d| * r);
      MeanOfConstant(Resample(d, seed, |d| * r), c);
    }
  }

  lemma CutsOfConstant(d: Sample, c: real, seed: Word)
    requires d != [] && AllEqual(d, c)
    ensures LowCut(d, seed) == c == HighCut(d, seed)
  {
    MeansOfConstant(d, c, seed);
    ConstantCounts(ResampleMeans(d, seed), c);
    CutIndices();
    SortedAtRank(ResampleMeans(d, seed), 500, c);
    SortedAtRank(ResampleMeans(d, seed), 9499, c);
  }

  lemma WidenedPoint(c: real, factor: real)
    ensures Widened(c, factor, c, c) == Interval(c, c)
  {
  }

  /** Equal differences leave nothing to resample: the interval is the point. */
  lemma IntervalOfConstant(num: Numerics, d: Sample, c: real, seed: Word)
    requires d != [] && num.z > 0.0 && AllEqual(d, c)
    ensures ConfidenceInterval(num, d, seed) == Interval(c, c)
    ensures Mean(d) == c
  {
    MeanOfConstant(d, c);
    if |d| > 1 {
      CutsOfConstant(d, c, seed);
      WidenedPoint(c, Widening(num, |d|));
    }
  }

  // ---- which words a resample reads ----

  /** What draw number `i` picks, as the source computes it: the high half of the
      product of word `i` and the number of pairs. */
  ghost predicate IsDraw(d: Sample, seed: Word, i: nat, x: real)
    requires d != []
  {
    var at := Rng.Output(seed, i) * |d| / TWO64;
    0 <= at < |d| && x == d[at]
  }

  /** The draws of the first 10,000 n words, each once and in order. */
  ghost predicate IsDrawing(d: Sample, seed: Word, draws: seq<real>)
    requires d != []
  {
    |draws| == 10_000 * |d| && forall i | 0 <= i < |draws| :: IsDraw(d, seed, i, draws[i])
  }

  /** The resamples, put end to end, are the draws of the first 10,000 n words of
      the stream: each word is read once, and no two resamples share one. */
  lemma ResamplesReadTheStreamInOrder(d: Sample, seed: Word, draws: seq<real>, r: nat)
    requires d != [] && IsDrawing(d, seed, draws) && r < 10_000
    ensures |ResampleMeans(d, seed)| == 10_000
    ensures |d| * r + |d| <= |draws|
    ensures ResampleMeans(d, seed)[r] == Mean(draws[|d| * r..|d| * r + |d|])
  {
    var n := |d|;
    MulMono(n, r + 1, 10_000);
    assert n * (r + 1) == n * r + n;
    var s, t := draws[n * r..n * r + n], Resample(d, seed, n * r);
    forall k | 0 <= k < n
      ensures s[k] == t[k]
    {
      DrawAt(d, seed, n * r, k);
      assert IsDraw(d, seed, n * r + k, draws[n * r + k]);
    }
    assert s == t;
  }

  // ---- what a mean is ----

  lemma {:induction false} SumOfBoth(a: seq<real>, b: seq<real>)
    ensures Sum(a + b) == Sum(a) + Sum(b)
  {
    if b == [] {
      assert a + b == a;
    } else {
      var n := |b| - 1;
      SumOfBoth(a, b[..n]);
      assert (a + b)[..|a + b| - 1] == a + b[..n];
    }
  }

  /** A mean times the count is the sum, a sum of one number is that number, and
      the sum of two lists is the sum of their sums. */
  lemma MeanIsTheAverage(a: seq<real>, b: seq<real>, x: real)
    requires a != []
    ensures Mean(a) * |a| as real == Sum(a) && Sum([x]) == x && Sum(a + b) == Sum(a) + Sum(b) && Mean([]) == 0.0
  {
    SumOfBoth(a, b);
    SumOfOne(x);
    QuotientTimes(Sum(a), |a| as real);
  }

  lemma SumOfOne(x: real)
    ensures Sum([x]) == x
  {
    assert [x][..0] == [];
  }

  // ---- the interval, from the stream ----

  /** Cuts pushed out about a centre by a factor. */
  ghost predicate PushedOut(ci: Interval, centre: real, factor: real, low: real, high: real) {
    ci.low == centre - factor * (centre - low) && ci.high == centre + factor * (high - centre)
  }

  /** The factor for `n` pairs: its square is `t^2 n / (z^2 (n - 1))`. */
  ghost predicate IsFactor(w: real, t: real, z: real, n: real) {
    w > 0.0 && (w * w) * (z * z) * (n - 1.0) == (t * t) * n
  }

  lemma WidenedIsPushedOut(centre: real, factor: real, low: real, high: real)
    ensures PushedOut(Widened(centre, factor, low, high), centre, factor, low, high)
  {
  }

  /** The interval of two or more pairs, said from the words of the stream: the
      values of rank 500 and 9499 among the 10,000 means of consecutive draws,
      each pushed out about the mean by the factor. */
  lemma IntervalComesFromTheDraws(num: Numerics, d: Sample, seed: Word, draws: seq<real>)
    returns (means: seq<real>, low: real, high: real, factor: real)
    requires num.Valid() && |d| >= 2 && IsDrawing(d, seed, draws)
    ensures |means| == 10_000
    ensures forall r: nat | r < 10_000 ::
      |d| * r + |d| <= |draws| && means[r] == Mean(draws[|d| * r..|d| * r + |d|])
    ensures IsRank(means, 500, low) && IsRank(means, 9499, high)
    ensures IsFactor(factor, num.t(|d| - 1), num.z, |d| as real)
    ensures PushedOut(ConfidenceInterval(num, d, seed), Mean(d), factor, low, high)
  {
    means := MeansOfTheDraws(d, seed, draws);
    low, high, factor := CutsAndFactor(num, d, seed, means);
  }

  lemma MeansOfTheDraws(d: Sample, seed: Word, draws: seq<real>) returns (means: seq<real>)
    requires d != [] && IsDrawing(d, seed, draws)
    ensures means == ResampleMeans(d, seed) && |means| == 10_000
    ensures forall r: nat | r < 10_000 ::
      |d| * r + |d| <= |draws| && means[r] == Mean(draws[|d| * r..|d| * r + |d|])
  {
    means := ResampleMeans(d, seed);
    forall r: nat | r < 10_000
      ensures |d| * r + |d| <= |draws| && means[r] == Mean(draws[|d| * r..|d| * r + |d|])
    {
      ResamplesReadTheStreamInOrder(d, seed, draws, r);
    }
  }

  lemma CutsAndFactor(num: Numerics, d: Sample, seed: Word, means: seq<real>)
    returns (low: real, high: real, factor: real)
    requires num.Valid() && |d| >= 2 && means == ResampleMeans(d, seed)
    ensures IsRank(means, 500, low) && IsRank(means, 9499, high)
    ensures IsFactor(factor, num.t(|d| - 1), num.z, |d| as real)
    ensures PushedOut(ConfidenceInterval(num, d, seed), Mean(d), factor, low, high)
  {
    low, high, factor := LowCut(d, seed), HighCut(d, seed), Widening(num, |d|);
    CutIndices();
    SortDeliversRanks(means, 500);
    SortDeliversRanks(means, 9499);
    WideningSquared(num, |d|);
    WidenedIsPushedOut(Mean(d), factor, low, high);
  }
}
