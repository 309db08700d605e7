/** The percentile bootstrap on the mean of a sample, widened for its size. */
module Bootstrap {
  import opened LittleEndian
  import opened RealArithmetic
  import opened OrderStatistics
  import opened TQuantile
  import Rng = SplitMix64

  const RESAMPLES: nat := 10_000
  const CONFIDENCE: real := 0.90

  /** A sample the resampler can index with one word. */
  type Sample = d: seq<real> | |d| < TWO64

  function Mean(d: seq<real>): real {
    if d == [] then 0.0 else Sum(d) / |d| as real
  }

  /** The pair draw number `i` of the stream picks. */
  function Drawn(d: Sample, seed: Word, i: nat): real
    requires d != []
  {
    d[Rng.Reduce(Rng.Output(seed, i), |d|)]
  }

  /** As many draws as the sample has pairs, from draw number `start` on. */
  function Resample(d: Sample, seed: Word, start: nat): (s: seq<real>)
    requires d != []
    ensures |s| == |d|
  {
    seq(|d|, k requires 0 <= k < |d| => Drawn(d, seed, start + k))
  }

  function ResampleMeans(d: Sample, seed: Word): (s: seq<real>)
    requires d != []
    ensures |s| == RESAMPLES
  {
    seq(RESAMPLES, r requires 0 <= r < RESAMPLES => Mean(Resample(d, seed, |d| * r)))
  }

  /** Nearest rank, rounding half away from zero. */
  function RankIndex(p: real, len: nat): (k: nat)
    requires len > 0
    ensures k < len
  {
    var at := (p * (len - 1) as real + 0.5).Floor;
    if at < 0 then 0 else if at > len - 1 then len - 1 else at
  }

  function Percentile(sorted: seq<real>, p: real): real
    requires sorted != []
  {
    sorted[RankIndex(p, |sorted|)]
  }

  const TAIL: real := (1.0 - CONFIDENCE) / 2.0

  /** The two cuts mirror each other about the middle of the sorted means. */
  lemma CutIndices()
    ensures RankIndex(TAIL, RESAMPLES) == 500
    ensures RankIndex(1.0 - TAIL, RESAMPLES) == 9499
    ensures RESAMPLES - 1 - 500 == 9499
  {
  }

  function LowCut(d: Sample, seed: Word): real
    requires d != []
  {
    Percentile(Sort(ResampleMeans(d, seed)), TAIL)
  }

  function HighCut(d: Sample, seed: Word): real
    requires d != []
  {
    Percentile(Sort(ResampleMeans(d, seed)), 1.0 - TAIL)
  }

  datatype Interval = Interval(low: real, high: real)

  /** The interval for a sample under one seed. A single pair has no spread. */
  function ConfidenceInterval(num: Numerics, d: Sample, seed: Word): Interval
    requires d != [] && num.z > 0.0
  {
    if |d| == 1 then Interval(d[0], d[0])
    else
      Widened(Mean(d), Widening(num, |d|), LowCut(d, seed), HighCut(d, seed))
  }

  // ---- the resampling loop ----

  /** One resample's mean, advancing the generator one word per pair. */
  method ResampleMean(rng: Rng.Generator, d: Sample, ghost seed: Word, ghost start: nat) returns (mean: real)
    requires d != [] && rng.state == Rng.StateAt(seed, start)
    modifies rng
    ensures mean == Mean(Resample(d, seed, start))
    ensures rng.state == Rng.StateAt(seed, start + |d|)
  {
    ghost var drawn := Resample(d, seed, start);
    var total := 0.0;
    for k := 0 to |d|
      invariant total == Sum(drawn[..k])
      invariant rng.state == Rng.StateAt(seed, start + k)
    {
      DrawnBy(d, seed, start + k);
      DrawAt(d, seed, start, k);
      var at := rng.Below(|d|);
      total := total + d[at];
      assert drawn[..k + 1][..k] == drawn[..k];
    }
    assert drawn[..|d|] == drawn;
    mean := total / |d| as real;
  }

  lemma DrawAt(d: Sample, seed: Word, start: nat, k: nat)
    requires k < |d|
    ensures Resample(d, seed, start)[k] == Drawn(d, seed, start + k)
  {
  }

  lemma DrawnBy(d: Sample, seed: Word, i: nat)
    requires d != []
    ensures d[Rng.Reduce(Rng.Output(Rng.StateAt(seed, i), 0), |d|)] == Drawn(d, seed, i)
    ensures Rng.StateAt(Rng.StateAt(seed, i), 1) == Rng.StateAt(seed, i + 1)
  {
    Rng.DrawsContinue(seed, i);
  }

  /** Every resample's mean, from one generator drawn on throughout. */
  method DrawMeans(rng: Rng.Generator, d: Sample, ghost seed: Word) returns (means: seq<real>)
    requires d != [] && rng.state == seed
    modifies rng
    ensures means == ResampleMeans(d, seed)
    ensures rng.state == Rng.StateAt(seed, RESAMPLES * |d|)
  {
    Rng.StateAdvance(seed, 0, 0);
    means := [];
    for r := 0 to RESAMPLES
      invariant |means| == r
      invariant forall q | 0 <= q < r :: means[q] == Mean(Resample(d, seed, |d| * q))
      invariant rng.state == Rng.StateAt(seed, |d| * r)
    {
      var mean := ResampleMean(rng, d, seed, |d| * r);
      assert |d| * (r + 1) == |d| * r + |d|;
      means := means + [mean];
    }
  }

  method BootstrapCi(num: Numerics, d: Sample, seed: Word) returns (ci: Interval)
    requires d != [] && num.z > 0.0
    ensures ci == ConfidenceInterval(num, d, seed)
  {
    if |d| == 1 {
      return Interval(d[0], d[0]);
    }
    var rng := new Rng.Generator(seed);
    var means := DrawMeans(rng, d, seed);
    var sorted := Sort(means);
    var low := Percentile(sorted, TAIL);
    var high := Percentile(sorted, 1.0 - TAIL);
    ci := Widened(Mean(d), Widening(num, |d|), low, high);
  }

  /** The cuts pushed out about the estimate, so a lopsided interval stays
      lopsided. */
  function Widened(centre: real, factor: real, low: real, high: real): Interval {
    Interval(centre - factor * (centre - low), centre + factor * (high - centre))
  }
}
