/** The decision rule: one metric's paired samples in, a verdict out. */
module Decision {
  import opened Wrappers
  import opened LittleEndian
  import opened RealArithmetic
  import opened OrderStatistics
  import opened TQuantile
  import opened Replicates
  import opened Bootstrap
  import opened BootstrapLaws

  /** A recorded number; floating point also has values that are no number. */
  datatype Value = Finite(x: real) | NotFinite

  /** Why a pair of samples has no analysis. */
  datatype Refusal = NotPaired | NoSamples | NotANumber(k: nat) | FromNothing(k: nat)

  datatype Verdict = Improved | Regressed | NoChange | NoVerdict {
    predicate IsSignificant() {
      Improved? || Regressed?
    }

    predicate IsJudged() {
      !NoVerdict?
    }
  }

  datatype Analysis = Analysis(
    replicates: nat, baseMean: real, headMean: real, delta: real, ci: Interval,
    floor: real, verdict: Verdict, needed: Option<nat>)

  const WALL_NS_PER_ITER := "wall_ns_per_iter"
  const RECORDS_PER_S := "records_per_s"
  const BYTES_PER_S := "bytes_per_s"
  const PEAK_RSS_BYTES := "peak_rss_bytes"
  const ALLOC_BYTES_PER_ITER := "alloc_bytes_per_iter"
  const ALLOC_COUNT_PER_ITER := "alloc_count_per_iter"

  const DEFAULT_FLOOR: real := 0.05
  const RSS_FLOOR: real := 0.10
  const ALLOC_FLOOR: real := 0.01

  function FloorFor(metric: string): (f: real)
    ensures 0.0 < f < 1.0
  {
    if metric == PEAK_RSS_BYTES then RSS_FLOOR
    else if metric == ALLOC_BYTES_PER_ITER || metric == ALLOC_COUNT_PER_ITER then ALLOC_FLOOR
    else DEFAULT_FLOOR
  }

  /** The metric a derived one is computed from. */
  function DerivedFrom(metric: string): Option<string> {
    if metric == RECORDS_PER_S || metric == BYTES_PER_S then Some(WALL_NS_PER_ITER) else None
  }

  /** What a derived metric comes from is itself measured. */
  lemma WallIsMeasured()
    ensures DerivedFrom(WALL_NS_PER_ITER).None?
  {
    assert |WALL_NS_PER_ITER| != |RECORDS_PER_S| && |WALL_NS_PER_ITER| != |BYTES_PER_S|;
  }

  /** The two throughputs are computed from the wall time, and nothing else is
      computed from anything. */
  lemma DerivedMetrics(metric: string)
    ensures DerivedFrom("records_per_s") == DerivedFrom("bytes_per_s") == Some("wall_ns_per_iter")
    ensures metric !in {"records_per_s", "bytes_per_s"} ==> DerivedFrom(metric).None?
  {
  }

  // ---- per-pair differences ----

  /** What is wrong with replicate `k`, if anything. */
  function PairRefusal(k: nat, b: Value, h: Value): Option<Refusal> {
    if b.NotFinite? || h.NotFinite? then Some(NotANumber(k))
    else if b.x == 0.0 && h.x != 0.0 then Some(FromNothing(k))
    else None
  }

  /** Zero on both legs is no change; otherwise the relative difference. */
  function PairDelta(b: Value, h: Value): real
    requires PairRefusal(0, b, h).None?
  {
    if b.x == 0.0 then 0.0 else (h.x - b.x) / b.x
  }

  ghost predicate Comparable(base: seq<Value>, head: seq<Value>) {
    |base| == |head| && forall k | 0 <= k < |base| :: PairRefusal(0, base[k], head[k]).None?
  }

  ghost function Deltas(base: seq<Value>, head: seq<Value>): (d: seq<real>)
    requires Comparable(base, head)
    ensures |d| == |base|
  {
    seq(|base|, k requires 0 <= k < |base| => PairDelta(base[k], head[k]))
  }

  /** The first replicate refused, or the differences of all of them. */
  method PairDeltas(base: seq<Value>, head: seq<Value>) returns (r: Result<seq<real>, Refusal>)
    requires |base| == |head|
    ensures r.Ok? <==> Comparable(base, head)
    ensures r.Ok? ==> r.value == Deltas(base, head)
    ensures r.Err? ==> IsFirstRefusal(base, head, r.error)
  {
    var deltas: seq<real> := [];
    for k := 0 to |base|
      invariant |deltas| == k
      invariant forall i | 0 <= i < k ::
        PairRefusal(0, base[i], head[i]).None? && deltas[i] == PairDelta(base[i], head[i])
    {
      var refusal := PairRefusal(k, base[k], head[k]);
      if refusal.Some? {
        return Err(refusal.value);
      }
      deltas := deltas + [PairDelta(base[k], head[k])];
    }
    r := Ok(deltas);
  }

  ghost predicate IsFirstRefusal(base: seq<Value>, head: seq<Value>, e: Refusal)
    requires |base| == |head|
  {
    exists k: nat :: k < |base| && PairRefusal(k, base[k], head[k]) == Some(e)
      && forall i | 0 <= i < k :: PairRefusal(0, base[i], head[i]).None?
  }

  // ---- the rule ----

  function Cleared(delta: real, higherIsBetter: bool): Verdict {
    if (delta > 0.0) == higherIsBetter then Improved else Regressed
  }

  function Abs(x: real): real {
    if x < 0.0 then -x else x
  }

  predicate WhollyPast(ci: Interval, floor: real) {
    ci.low > floor || ci.high < -floor
  }

  predicate ExcludesZero(ci: Interval) {
    ci.low > 0.0 || ci.high < 0.0
  }

  function HalfWidth(ci: Interval): real {
    (ci.high - ci.low) / 2.0
  }

  function Decide(num: Numerics, n: nat, delta: real, ci: Interval, floor: real, higherIsBetter: bool)
    : (Verdict, Option<nat>)
    requires num.t(Freedom(n)) > 0.0
  {
    if n < MIN_REPLICATES then (NoVerdict, ReplicatesFor(num, HalfWidth(ci), n, floor))
    else if WhollyPast(ci, floor) then (Cleared(delta, higherIsBetter), None)
    else if HalfWidth(ci) >= floor then (NoVerdict, ReplicatesFor(num, HalfWidth(ci), n, floor))
    else if ExcludesZero(ci) && Abs(delta) >= floor then (Cleared(delta, higherIsBetter), None)
    else (NoChange, None)
  }

  ghost function Numbers(values: seq<Value>): (s: seq<real>)
    ensures |s| == |values|
  {
    seq(|values|, k requires 0 <= k < |values| => if values[k].Finite? then values[k].x else 0.0)
  }

  method MeanOf(values: seq<Value>) returns (mean: real)
    requires forall k | 0 <= k < |values| :: values[k].Finite?
    ensures mean == Mean(Numbers(values))
  {
    if values == [] {
      return 0.0;
    }
    var total := 0.0;
    for k := 0 to |values|
      invariant total == Sum(Numbers(values)[..k])
    {
      total := total + values[k].x;
      assert Numbers(values)[..k + 1][..k] == Numbers(values)[..k];
    }
    assert Numbers(values)[..|values|] == Numbers(values);
    mean := total / |values| as real;
  }

  /** The analysis of samples that pair and compare. */
  ghost function AnalysisOf(
    num: Numerics, metric: string, higherIsBetter: bool, base: seq<Value>, head: seq<Value>, seed: Word): Analysis
    requires num.Valid() && Comparable(base, head) && 0 < |base| < TWO64
  {
    CriticalAboveNormal(num, Freedom(|base|));
    var d := Deltas(base, head);
    var ci := ConfidenceInterval(num, d, seed);
    var decided := Decide(num, |d|, Mean(d), ci, FloorFor(metric), higherIsBetter);
    Analysis(|d|, Mean(Numbers(base)), Mean(Numbers(head)), Mean(d), ci, FloorFor(metric), decided.0, decided.1)
  }

  method Analyse(num: Numerics, metric: string, higherIsBetter: bool, base: seq<Value>, head: seq<Value>, seed: Word)
    returns (r: Result<Analysis, Refusal>)
    requires num.Valid() && |base| < TWO64
    ensures r.Ok? <==> base != [] && Comparable(base, head)
    ensures r.Ok? ==> r.value == AnalysisOf(num, metric, higherIsBetter, base, head, seed)
    ensures r.Err? && |base| != |head| ==> r.error == NotPaired
    ensures r.Err? && |base| == |head| ==>
      if base == [] then r.error == NoSamples else IsFirstRefusal(base, head, r.error)
  {
    if |base| != |head| {
      return Err(NotPaired);
    }
    if base == [] {
      return Err(NoSamples);
    }
    var pairs := PairDeltas(base, head);
    if pairs.Err? {
      return Err(pairs.error);
    }
    var d := pairs.value;
    var delta := Mean(d);
    var ci := BootstrapCi(num, d, seed);
    CriticalAboveNormal(num, Freedom(|d|));
    var floor := FloorFor(metric);
    var decided := Decide(num, |d|, delta, ci, floor, higherIsBetter);
    var baseMean := MeanOf(base);
    var headMean := MeanOf(head);
    r := Ok(Analysis(|d|, baseMean, headMean, delta, ci, floor, decided.0, decided.1));
  }

  // ---- what a verdict means ----

  predicate Brackets(ci: Interval, delta: real) {
    ci.low <= delta <= ci.high
  }

  /** The rule as it is printed: both halves, on an interval that is narrow
      enough or wholly past the floor. */
  predicate PrintedRule(n: nat, delta: real, ci: Interval, floor: real) {
    && n >= 5
    && (ci.low > 0.0 || ci.high < 0.0)
    && (delta >= floor || delta <= -floor)
    && (ci.high - ci.low < 2.0 * floor || ci.low > floor || ci.high < -floor)
  }

  /** What is flagged is what the printed rule flags, except exactly when an
      interval wholly past the floor has its estimate inside the floor, which an
      interval around its estimate never has. */
  lemma FlaggedIffPrintedRule(num: Numerics, n: nat, delta: real, ci: Interval, floor: real, higherIsBetter: bool)
    requires num.t(Freedom(n)) > 0.0 && floor > 0.0
    ensures var flagged := Decide(num, n, delta, ci, floor, higherIsBetter).0.IsSignificant();
      && ((flagged <==> PrintedRule(n, delta, ci, floor))
          <==> !(n >= MIN_REPLICATES && WhollyPast(ci, floor) && Abs(delta) < floor))
      && (Brackets(ci, delta) ==> (flagged <==> PrintedRule(n, delta, ci, floor)))
  {
  }

  /** The direction flagged is the side of zero the interval lies on. */
  lemma DirectionIsTheIntervalsSide(num: Numerics, n: nat, delta: real, ci: Interval, floor: real, higherIsBetter: bool)
    requires num.t(Freedom(n)) > 0.0 && floor > 0.0 && Brackets(ci, delta)
    requires Decide(num, n, delta, ci, floor, higherIsBetter).0.IsSignificant()
    ensures Decide(num, n, delta, ci, floor, higherIsBetter).0
         == if (ci.low > 0.0) == higherIsBetter then Improved else Regressed
    ensures ci.low > 0.0 <==> !(ci.high < 0.0)
  {
  }

  /** Widening about the mean keeps it inside where the cuts held it inside. */
  lemma WideningKeepsTheMeanInside(centre: real, factor: real, low: real, high: real)
    requires factor > 0.0 && low <= centre <= high
    ensures Brackets(Widened(centre, factor, low, high), centre)
  {
    assert factor * (centre - low) >= 0.0 && factor * (high - centre) >= 0.0;
  }

  ghost predicate CutsBracketTheMean(d: Sample, seed: Word) {
    |d| >= 2 ==> LowCut(d, seed) <= Mean(d) <= HighCut(d, seed)
  }

  lemma IntervalHoldsTheMean(num: Numerics, d: Sample, seed: Word)
    requires num.Valid() && d != [] && CutsBracketTheMean(d, seed)
    ensures Brackets(ConfidenceInterval(num, d, seed), Mean(d))
  {
    if |d| == 1 {
      MeanOfConstant(d, d[0]);
    } else {
      WideningWidens(num, |d|);
      WideningKeepsTheMeanInside(Mean(d), Widening(num, |d|), LowCut(d, seed), HighCut(d, seed));
    }
  }

  /** The cuts lie so far to one side of the mean that widening carries both ends
      past the floor. */
  predicate FarFromTheMean(centre: real, factor: real, low: real, high: real, floor: real) {
    factor * (low - centre) > floor - centre || factor * (centre - high) > floor + centre
  }

  lemma WidenedWhollyPast(centre: real, factor: real, low: real, high: real, floor: real)
    ensures WhollyPast(Widened(centre, factor, low, high), floor) == FarFromTheMean(centre, factor, low, high, floor)
  {
    assert factor * (low - centre) == -(factor * (centre - low));
    assert factor * (centre - high) == -(factor * (high - centre));
  }

  /** A mean inside the floor whose cuts are far from it. */
  ghost predicate CutsLoseTheMean(num: Numerics, d: Sample, seed: Word, floor: real)
    requires d != [] && num.z > 0.0
  {
    && |d| >= MIN_REPLICATES && Abs(Mean(d)) < floor
    && FarFromTheMean(Mean(d), Widening(num, |d|), LowCut(d, seed), HighCut(d, seed), floor)
  }

  lemma LosesTheMeanIffPast(num: Numerics, d: Sample, seed: Word, floor: real)
    requires d != [] && num.z > 0.0
    ensures CutsLoseTheMean(num, d, seed, floor) ==
      (|d| >= MIN_REPLICATES && WhollyPast(ConfidenceInterval(num, d, seed), floor) && Abs(Mean(d)) < floor)
  {
    if |d| >= MIN_REPLICATES {
      var m, factor, low, high := Mean(d), Widening(num, |d|), LowCut(d, seed), HighCut(d, seed);
      assert ConfidenceInterval(num, d, seed) == Widened(m, factor, low, high);
      WidenedWhollyPast(m, factor, low, high, floor);
    }
  }

  /** A metric is flagged exactly when the printed rule flags it, unless the cuts
      lose the mean, and then it is flagged against the rule. Cuts that bracket
      the mean never lose it. The direction is the side of zero the mean is on. */
  lemma AnalysisFollowsThePrintedRule(
    num: Numerics, metric: string, higherIsBetter: bool, base: seq<Value>, head: seq<Value>, seed: Word)
    requires num.Valid() && Comparable(base, head) && 0 < |base| < TWO64
    ensures var a, d := AnalysisOf(num, metric, higherIsBetter, base, head, seed), Deltas(base, head);
      && ((a.verdict.IsSignificant() <==> PrintedRule(a.replicates, a.delta, a.ci, a.floor))
          <==> !CutsLoseTheMean(num, d, seed, a.floor))
      && (CutsLoseTheMean(num, d, seed, a.floor) ==> a.verdict.IsSignificant())
      && (CutsBracketTheMean(d, seed) ==> !CutsLoseTheMean(num, d, seed, a.floor))
      && (a.verdict.IsSignificant() ==>
            a.verdict == if (a.delta > 0.0) == higherIsBetter then Improved else Regressed)
  {
    var d := Deltas(base, head);
    var delta, ci, floor := Mean(d), ConfidenceInterval(num, d, seed), FloorFor(metric);
    CriticalAboveNormal(num, Freedom(|d|));
    LosesTheMeanIffPast(num, d, seed, floor);
    FlaggedIffPrintedRule(num, |d|, delta, ci, floor, higherIsBetter);
    if CutsBracketTheMean(d, seed) {
      IntervalHoldsTheMean(num, d, seed);
    }
  }

  /** Where the cuts bracket the mean, the direction flagged is the side of zero
      the interval lies on. */
  lemma AnalysisTakesTheIntervalsSide(
    num: Numerics, metric: string, higherIsBetter: bool, base: seq<Value>, head: seq<Value>, seed: Word)
    requires num.Valid() && Comparable(base, head) && 0 < |base| < TWO64
    requires CutsBracketTheMean(Deltas(base, head), seed)
    ensures var a := AnalysisOf(num, metric, higherIsBetter, base, head, seed);
      a.verdict.IsSignificant() ==>
        a.verdict == if (a.ci.low > 0.0) == higherIsBetter then Improved else Regressed
  {
    var d := Deltas(base, head);
    var delta, ci, floor := Mean(d), ConfidenceInterval(num, d, seed), FloorFor(metric);
    CriticalAboveNormal(num, Freedom(|d|));
    IntervalHoldsTheMean(num, d, seed);
    if Decide(num, |d|, delta, ci, floor, higherIsBetter).0.IsSignificant() {
      DirectionIsTheIntervalsSide(num, |d|, delta, ci, floor, higherIsBetter);
    }
  }

  /** A count named with an analysis is even, from 6 to 200, more than was run,
      the smallest even count whose projection fits the floor, and every larger
      count fits too. */
  lemma AnalysisNamesTheSmallestCount(
    num: Numerics, metric: string, higherIsBetter: bool, base: seq<Value>, head: seq<Value>, seed: Word)
    requires num.Valid() && Comparable(base, head) && 0 < |base| < TWO64
    ensures var a := AnalysisOf(num, metric, higherIsBetter, base, head, seed);
      a.needed.Some? ==>
        && a.verdict.NoVerdict? && num.t(Freedom(a.replicates)) > 0.0
        && a.needed.value % 2 == 0 && 6 <= a.needed.value <= 200 && a.needed.value > a.replicates
        && (forall m | 6 <= m < a.needed.value && m % 2 == 0 ::
              !FitsTheFloor(num, HalfWidth(a.ci), a.replicates, a.floor, m))
        && (forall m | m >= a.needed.value :: FitsTheFloor(num, HalfWidth(a.ci), a.replicates, a.floor, m))
  {
    var a := AnalysisOf(num, metric, higherIsBetter, base, head, seed);
    CriticalAboveNormal(num, Freedom(|base|));
    IntervalEndsInOrder(num, Deltas(base, head), seed);
    if a.needed.Some? {
      NamedCountIsTheSmallest(num, HalfWidth(a.ci), a.replicates, a.floor);
    }
  }

  /** The rule declines a metric exactly for fewer than 5 pairs, or for an
      interval as wide as the floor and not wholly past it. A count is named
      exactly when it declines and some count up to 200 fits the floor. */
  lemma DeclinedIff(
    num: Numerics, metric: string, higherIsBetter: bool, base: seq<Value>, head: seq<Value>, seed: Word)
    requires num.Valid() && Comparable(base, head) && 0 < |base| < TWO64
    ensures var a := AnalysisOf(num, metric, higherIsBetter, base, head, seed);
      && (a.verdict.NoVerdict? <==> a.replicates < 5 || WideAndNotPast(a.ci, a.floor))
      && (a.needed.Some? <==>
            a.verdict.NoVerdict? && SomeCountFits(num, HalfWidth(a.ci), a.replicates, a.floor))
  {
    var d := Deltas(base, head);
    var ci := ConfidenceInterval(num, d, seed);
    CriticalAboveNormal(num, Freedom(|d|));
    IntervalEndsInOrder(num, d, seed);
    DeclinesIff(num, |d|, Mean(d), ci, FloorFor(metric), higherIsBetter);
  }

  /** As wide as the floor, and reaching inside it. */
  predicate WideAndNotPast(ci: Interval, floor: real) {
    ci.high - ci.low >= 2.0 * floor && ci.low <= floor && ci.high >= -floor
  }

  ghost predicate SomeCountFits(num: Numerics, half: real, n: nat, floor: real) {
    exists m :: 6 <= m <= 200 && FitsTheFloor(num, half, n, floor, m)
  }

  lemma DeclinesIff(num: Numerics, n: nat, delta: real, ci: Interval, floor: real, higherIsBetter: bool)
    requires num.Valid() && num.t(Freedom(n)) > 0.0 && ci.low <= ci.high
    ensures var decided := Decide(num, n, delta, ci, floor, higherIsBetter);
      && (decided.0.NoVerdict? <==> n < 5 || WideAndNotPast(ci, floor))
      && (decided.1.Some? <==> decided.0.NoVerdict? && SomeCountFits(num, HalfWidth(ci), n, floor))
  {
    var half, named := HalfWidth(ci), ReplicatesFor(num, HalfWidth(ci), n, floor);
    assert half >= floor <==> ci.high - ci.low >= 2.0 * floor;
    assert n < 5 || half >= floor ==> (named.Some? <==> SomeCountFits(num, half, n, floor)) by {
      if n < 5 || half >= floor {
        CountNamedIff(num, half, n, floor);
      }
    }
  }

  lemma CountNamedIff(num: Numerics, half: real, n: nat, floor: real)
    requires num.Valid() && half >= 0.0 && (n < MIN_REPLICATES || half >= floor) && num.t(Freedom(n)) > 0.0
    ensures ReplicatesFor(num, half, n, floor).Some? <==> SomeCountFits(num, half, n, floor)
  {
    NamedCountIsTheSmallest(num, half, n, floor);
  }

  /** An analysis is of these samples: the number of pairs, the mean of each leg,
      the mean of the pairs' relative differences, the interval of those
      differences under this seed, and the floor of this metric. */
  lemma AnalysisIsOfTheSamples(
    num: Numerics, metric: string, higherIsBetter: bool, base: seq<Value>, head: seq<Value>, seed: Word)
    returns (b: seq<real>, h: seq<real>, d: seq<real>)
    requires num.Valid() && Comparable(base, head) && 0 < |base| < TWO64
    ensures |b| == |h| == |d| == |base|
    ensures forall k | 0 <= k < |d| :: base[k] == Finite(b[k]) && head[k] == Finite(h[k])
    ensures forall k | 0 <= k < |d| :: IsRelative(b[k], h[k], d[k])
    ensures var a := AnalysisOf(num, metric, higherIsBetter, base, head, seed);
      && a.replicates == |base| && a.delta == Mean(d) && a.ci == ConfidenceInterval(num, d, seed)
      && a.baseMean == Mean(b) && a.headMean == Mean(h) && a.floor == FloorFor(metric)
  {
    b, h, d := Numbers(base), Numbers(head), Deltas(base, head);
    forall k | 0 <= k < |d|
      ensures base[k] == Finite(b[k]) && head[k] == Finite(h[k]) && IsRelative(b[k], h[k], d[k])
    {
      RelativeDifference(base[k], head[k]);
    }
  }

  /** How much the head differs from the base, as a share of the base; zero on
      both is no difference, and zero on the base alone has none. */
  ghost predicate IsRelative(b: real, h: real, d: real) {
    d * b == h - b && (b == 0.0 ==> d == 0.0)
  }

  lemma RelativeDifference(b: Value, h: Value)
    requires PairRefusal(0, b, h).None?
    ensures IsRelative(b.x, h.x, PairDelta(b, h))
  {
  }

  /** A replicate is refused exactly when a side is no number, or the two numbers
      have no relative difference. */
  lemma RefusedIff(k: nat, b: Value, h: Value)
    ensures PairRefusal(k, b, h) == Some(NotANumber(k)) <==> b.NotFinite? || h.NotFinite?
    ensures b.Finite? && h.Finite? ==> (PairRefusal(k, b, h).None? <==> exists d :: IsRelative(b.x, h.x, d))
    ensures b.Finite? && h.Finite? && PairRefusal(k, b, h).Some? ==> PairRefusal(k, b, h).value == FromNothing(k)
  {
    if PairRefusal(k, b, h).None? {
      RelativeDifference(b, h);
    }
  }

  /** 10% for the peak resident set, 1% for allocation totals, 5% for the rest. */
  lemma FloorsPerMetric(metric: string)
    ensures FloorFor("peak_rss_bytes") == 0.10
    ensures FloorFor("alloc_bytes_per_iter") == 0.01 && FloorFor("alloc_count_per_iter") == 0.01
    ensures metric !in {"peak_rss_bytes", "alloc_bytes_per_iter", "alloc_count_per_iter"} ==> FloorFor(metric) == 0.05
  {
    assert |"peak_rss_bytes"| == 14 && |"alloc_bytes_per_iter"| == 20 && |"alloc_count_per_iter"| == 20;
  }

  // ---- samples without spread ----

  ghost predicate ShiftedBy(base: seq<Value>, head: seq<Value>, d: real) {
    Comparable(base, head) && forall k | 0 <= k < |base| :: PairDelta(base[k], head[k]) == d
  }

  /** A constant relative shift is flagged exactly when there are enough pairs
      and it reaches the floor. */
  lemma ConstantShiftIsFlaggedAtTheFloor(
    num: Numerics, metric: string, higherIsBetter: bool, base: seq<Value>, head: seq<Value>, seed: Word, d: real)
    requires num.Valid() && 0 < |base| < TWO64 && ShiftedBy(base, head, d)
    ensures var a := AnalysisOf(num, metric, higherIsBetter, base, head, seed);
      && a.delta == d && a.ci == Interval(d, d)
      && (|base| < MIN_REPLICATES ==> a.verdict == NoVerdict)
      && (|base| >= MIN_REPLICATES ==>
            a.verdict == if Abs(d) < FloorFor(metric) then NoChange else Cleared(d, higherIsBetter))
  {
    var ds := Deltas(base, head);
    assert AllEqual(ds, d);
    IntervalOfConstant(num, ds, d, seed);
    CriticalAboveNormal(num, Freedom(|base|));
  }

  /** Identical legs are never flagged, whatever the seed. */
  lemma IdenticalLegsAreNeverFlagged(num: Numerics, metric: string, higherIsBetter: bool, legs: seq<Value>, seed: Word)
    requires num.Valid() && 0 < |legs| < TWO64 && forall k | 0 <= k < |legs| :: legs[k].Finite?
    ensures Comparable(legs, legs)
    ensures var a := AnalysisOf(num, metric, higherIsBetter, legs, legs, seed);
      a.delta == 0.0 && a.verdict == if |legs| < MIN_REPLICATES then NoVerdict else NoChange
  {
    forall k | 0 <= k < |legs|
      ensures PairDelta(legs[k], legs[k]) == 0.0
    {
      var b := legs[k].x;
      if b != 0.0 {
        QuotientIs(b - b, b, 0.0);
      }
    }
    ConstantShiftIsFlaggedAtTheFloor(num, metric, higherIsBetter, legs, legs, seed, 0.0);
  }

  /** Mirrored differences under the opposite direction of goodness get the same
      verdict and count, except exactly when an interval wholly past the floor
      belongs to a mean of zero, which has no direction to mirror. */
  lemma MirroredSamplesAreJudgedAlike(
    num: Numerics, d: Sample, e: Sample, f: real -> real, seed: Word, floor: real, higherIsBetter: bool)
    requires num.Valid() && d != [] && Negates(f) && IsImage(d, e, f) && floor > 0.0
    requires num.t(Freedom(|d|)) > 0.0
    ensures Decide(num, |d|, Mean(d), ConfidenceInterval(num, d, seed), floor, higherIsBetter)
         == Decide(num, |e|, Mean(e), ConfidenceInterval(num, e, seed), floor, !higherIsBetter)
       <==> !(|d| >= MIN_REPLICATES && WhollyPast(ConfidenceInterval(num, d, seed), floor) && Mean(d) == 0.0)
  {
    var n, delta, ci := |d|, Mean(d), ConfidenceInterval(num, d, seed);
    assert |e| == n && ConfidenceInterval(num, e, seed) == Interval(-ci.high, -ci.low) by {
      IntervalMirrors(num, d, e, f, seed);
    }
    assert Mean(e) == -delta by {
      MeanMirrors(d, e, f);
    }
    IntervalEndsInOrder(num, d, seed);
    DecideMirrors(num, n, delta, ci, floor, higherIsBetter);
  }

  lemma MeanMirrors(d: Sample, e: Sample, f: real -> real)
    requires d != [] && Negates(f) && IsImage(d, e, f)
    ensures Mean(e) == -Mean(d)
  {
    assert IsLine(f, -1.0, 0.0);
    MeanOfLine(d, e, f, -1.0, 0.0);
  }

  lemma DecideMirrors(num: Numerics, n: nat, delta: real, ci: Interval, floor: real, higherIsBetter: bool)
    requires num.t(Freedom(n)) > 0.0 && floor > 0.0 && ci.low <= ci.high
    ensures Decide(num, n, delta, ci, floor, higherIsBetter)
         == Decide(num, n, -delta, Interval(-ci.high, -ci.low), floor, !higherIsBetter)
       <==> !(n >= MIN_REPLICATES && WhollyPast(ci, floor) && delta == 0.0)
  {
    assert HalfWidth(Interval(-ci.high, -ci.low)) == HalfWidth(ci);
  }
}
