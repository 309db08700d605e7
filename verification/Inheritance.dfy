/** One case's rows, and the verdict a derived row takes from the measured row
    it is computed from. */
module Inheritance {
  import opened Cases
  import opened Wrappers
  import opened LittleEndian
  import opened RealArithmetic
  import opened TQuantile
  import opened Replicates
  import opened Decision

  datatype Row = Row(
    id: CaseId, metric: string, unit: string, higherIsBetter: bool,
    erratic: bool, inherited: bool, analysis: Analysis)
  {
    predicate IsFinding() {
      !erratic && !inherited && analysis.verdict.IsSignificant()
    }
  }

  /** The position of the first row of a metric. */
  ghost predicate IsFirstOf(rows: seq<Row>, metric: string, k: nat) {
    k < |rows| && rows[k].metric == metric && forall i | 0 <= i < k :: rows[i].metric != metric
  }

  function FindMetric(rows: seq<Row>, metric: string): (k: Option<nat>)
    ensures k.Some? ==> IsFirstOf(rows, metric, k.value)
    ensures k.None? <==> forall i | 0 <= i < |rows| :: rows[i].metric != metric
  {
    if rows == [] then None
    else if rows[0].metric == metric then Some(0)
    else match FindMetric(rows[1..], metric)
      case None => None
      case Some(k) => Some(k + 1)
  }

  /** Whose verdict row `i` ends up with: its measured row's, if the case has
      one, and its own otherwise. */
  function Source(rows: seq<Row>, i: nat): (s: nat)
    requires i < |rows|
    ensures s < |rows|
  {
    var measured := DerivedFrom(rows[i].metric);
    if measured.None? || FindMetric(rows, measured.value).None? then i
    else FindMetric(rows, measured.value).value
  }

  /** The row with another row's verdict and count, keeping its own numbers. */
  function TakeVerdict(row: Row, from: Row): Row {
    row.(inherited := true, analysis := row.analysis.(verdict := from.analysis.verdict, needed := from.analysis.needed))
  }

  function Settled(rows: seq<Row>, i: nat): Row
    requires i < |rows|
  {
    if Source(rows, i) == i then rows[i] else TakeVerdict(rows[i], rows[Source(rows, i)])
  }

  function Inherited(rows: seq<Row>): (s: seq<Row>)
    ensures |s| == |rows|
  {
    seq(|rows|, i requires 0 <= i < |rows| => Settled(rows, i))
  }

  // ---- the loop, in place ----

  method SetVerdict(rows: array<Row>, index: nat, from: Row)
    requires index < rows.Length
    modifies rows
    ensures rows[..] == old(rows[..])[index := TakeVerdict(old(rows[index]), from)]
  {
    rows[index] := rows[index].(analysis := rows[index].analysis.(verdict := from.analysis.verdict));
    rows[index] := rows[index].(analysis := rows[index].analysis.(needed := from.analysis.needed));
    rows[index] := rows[index].(inherited := true);
  }

  /** The rows with the first `n` settled. */
  ghost function PartlySettled(rows: seq<Row>, n: nat): (s: seq<Row>)
    requires n <= |rows|
    ensures |s| == |rows|
  {
    seq(|rows|, i requires 0 <= i < |rows| => if i < n then Settled(rows, i) else rows[i])
  }

  lemma OneMoreSettled(was: seq<Row>, n: nat)
    requires n < |was|
    ensures PartlySettled(was, n)[n] == was[n]
    ensures PartlySettled(was, n + 1) == PartlySettled(was, n)[n := Settled(was, n)]
  {
  }

  /** What the loop finds and leaves at place `n`, having settled the ones before. */
  lemma StepSettles(was: seq<Row>, now: seq<Row>, n: nat)
    requires n < |was| && now == PartlySettled(was, n)
    ensures var measured := DerivedFrom(now[n].metric);
      Settled(was, n) == if measured.Some? && FindMetric(now, measured.value).Some?
                         then TakeVerdict(now[n], now[FindMetric(now, measured.value).value]) else now[n]
  {
    var measured := DerivedFrom(was[n].metric);
    if measured.Some? {
      PartlySettledFindsTheSame(was, now, n, measured.value);
    }
  }

  /** Reconciles the rows from `start` on, in place; the source passes the tail
      of one vector that holds every case's rows. */
  method InheritDerivedVerdicts(rows: array<Row>, start: nat)
    requires start <= rows.Length
    modifies rows
    ensures rows[..start] == old(rows[..start])
    ensures rows[start..] == Inherited(old(rows[start..]))
  {
    ghost var was := rows[start..];
    for index := start to rows.Length
      invariant rows[..start] == old(rows[..start])
      invariant rows[start..] == PartlySettled(was, index - start)
    {
      ghost var before, n := rows[start..], index - start;
      OneMoreSettled(was, n);
      StepSettles(was, before, n);
      assert rows[index] == before[n];
      var measured := DerivedFrom(rows[index].metric);
      if measured.Some? {
        var at := FindMetric(rows[start..], measured.value);
        if at.Some? {
          SetVerdict(rows, index, rows[start + at.value]);
          assert rows[..start] == rows[..][..start] && rows[start..] == rows[..][start..];
        }
      }
      assert rows[start..] == before[n := Settled(was, n)];
    }
  }

  lemma FirstIsUnique(rows: seq<Row>, metric: string, j: nat, k: nat)
    requires IsFirstOf(rows, metric, j) && IsFirstOf(rows, metric, k)
    ensures j == k
  {
  }

  /** A measured row is never rewritten, so the loop reads it as it was however
      far it has come. */
  lemma PartlySettledFindsTheSame(was: seq<Row>, now: seq<Row>, index: nat, measured: string)
    requires |was| == |now| && index < |was|
    requires forall i | 0 <= i < index :: now[i] == Settled(was, i)
    requires forall i | index <= i < |was| :: now[i] == was[i]
    requires DerivedFrom(was[index].metric) == Some(measured)
    ensures FindMetric(now, measured) == FindMetric(was, measured)
    ensures FindMetric(now, measured).Some? ==>
      var k := FindMetric(now, measured).value; now[k] == was[k] && k != index
  {
    WallIsMeasured();
    forall i | 0 <= i < |was|
      ensures now[i].metric == was[i].metric
      ensures DerivedFrom(was[i].metric).None? ==> now[i] == was[i]
    {
    }
    if FindMetric(was, measured).Some? && FindMetric(now, measured).Some? {
      FirstIsUnique(was, measured, FindMetric(was, measured).value, FindMetric(now, measured).value);
    }
  }

  // ---- what it leaves ----

  lemma SettledFacts(rows: seq<Row>, i: nat)
    requires i < |rows|
    ensures var r := Inherited(rows)[i];
      && r.metric == rows[i].metric && r.erratic == rows[i].erratic && r.id == rows[i].id
      && r.analysis.delta == rows[i].analysis.delta && r.analysis.ci == rows[i].analysis.ci
      && r.analysis.floor == rows[i].analysis.floor && r.analysis.replicates == rows[i].analysis.replicates
      && (DerivedFrom(rows[i].metric).None? ==> r == rows[i])
  {
  }

  ghost predicate DistinctMetrics(rows: seq<Row>) {
    forall i, j | 0 <= i < j < |rows| :: rows[i].metric != rows[j].metric
  }

  /** After the loop a derived row and its measured row carry one verdict and
      one count, and the derived row is marked. */
  lemma DerivedNeverDisagrees(rows: seq<Row>, i: nat, j: nat)
    requires DistinctMetrics(rows) && i < |rows| && j < |rows|
    requires DerivedFrom(rows[i].metric) == Some(rows[j].metric)
    ensures var out := Inherited(rows);
      && out[i].analysis.verdict == out[j].analysis.verdict
      && out[i].analysis.needed == out[j].analysis.needed
      && out[i].inherited
  {
    WallIsMeasured();
    assert IsFirstOf(rows, rows[j].metric, j);
    FirstIsUnique(rows, rows[j].metric, j, FindMetric(rows, rows[j].metric).value);
  }

  /** On the tail of a vector every row takes its verdict and count from a row of
      that tail: never from another case's rows before it. */
  lemma SliceTakesItsOwnCase(rows: seq<Row>, start: nat, i: nat) returns (j: nat)
    requires start <= i < |rows|
    ensures start <= j < |rows| && (j == i || Some(rows[j].metric) == DerivedFrom(rows[i].metric))
    ensures Inherited(rows[start..])[i - start].analysis.verdict == rows[j].analysis.verdict
    ensures Inherited(rows[start..])[i - start].analysis.needed == rows[j].analysis.needed
  {
    j := start + Source(rows[start..], i - start);
  }

  /** Over the whole vector it would: a throughput without a wall time of its own
      takes the verdict of an earlier case's. */
  lemma WholeVectorWouldCrossCases(wall: Row, rate: Row)
    requires wall.metric == WALL_NS_PER_ITER && DerivedFrom(rate.metric).Some?
    ensures Inherited([wall, rate])[1].analysis.verdict == wall.analysis.verdict
    ensures Inherited([wall, rate][1..])[0] == rate
  {
    WallIsMeasured();
    var rows := [wall, rate];
    assert IsFirstOf(rows, WALL_NS_PER_ITER, 0);
    FirstIsUnique(rows, WALL_NS_PER_ITER, 0, FindMetric(rows, WALL_NS_PER_ITER).value);
    assert rows[1..] == [rate];
    assert rate.metric != WALL_NS_PER_ITER;
  }

  /** Running the loop again changes nothing. */
  lemma InheritanceIsIdempotent(rows: seq<Row>)
    ensures Inherited(Inherited(rows)) == Inherited(rows)
  {
    var once := Inherited(rows);
    forall i | 0 <= i < |rows|
      ensures Settled(once, i) == once[i]
    {
      SettledAgain(rows, once, i);
    }
  }

  lemma SettledAgain(rows: seq<Row>, once: seq<Row>, i: nat)
    requires once == Inherited(rows) && i < |rows|
    ensures Settled(once, i) == once[i]
  {
    SettledFacts(rows, i);
    var measured := DerivedFrom(rows[i].metric);
    if measured.Some? {
      WallIsMeasured();
      forall k | 0 <= k < |rows|
        ensures once[k].metric == rows[k].metric
        ensures once[k].metric == measured.value ==> once[k] == rows[k]
      {
        SettledFacts(rows, k);
      }
      if FindMetric(once, measured.value).Some? && FindMetric(rows, measured.value).Some? {
        FirstIsUnique(rows, measured.value,
                      FindMetric(once, measured.value).value, FindMetric(rows, measured.value).value);
      }
    }
  }

  ghost predicate CountOnlyWhenDeclined(row: Row) {
    row.analysis.needed.Some? ==> row.analysis.verdict.NoVerdict?
  }

  /** A judged row still carries no count. */
  lemma JudgedRowsStillCarryNoCount(rows: seq<Row>, i: nat)
    requires i < |rows| && forall k | 0 <= k < |rows| :: CountOnlyWhenDeclined(rows[k])
    ensures CountOnlyWhenDeclined(Inherited(rows)[i])
  {
    assert CountOnlyWhenDeclined(rows[Source(rows, i)]);
    assert CountOnlyWhenDeclined(rows[i]);
  }

  // ---- why one verdict has to cover both ----

  /** The relative change of `c / wall` when `wall` changes by `d`. */
  function RateChange(d: real): real
    requires d > -1.0
  {
    -d / (1.0 + d)
  }

  lemma RateChangeAtLeast(d: real, f: real)
    requires d > -1.0 && 0.0 < f < 1.0
    ensures Abs(RateChange(d)) >= f <==> Abs(d) >= f * (1.0 + d)
    ensures d > 0.0 ==> RateChange(d) < 0.0
    ensures d < 0.0 ==> RateChange(d) > 0.0
  {
    var u, q := 1.0 + d, RateChange(d);
    assert q * u == -d;
    assert Abs(q) * u == Abs(d) by {
      if q < 0.0 {
        assert (-q) * u == d && (-q) * u > 0.0;
      } else {
        assert q * u >= 0.0;
      }
    }
    AtLeastScaled(Abs(q), f, u);
    if d > 0.0 {
      assert (-q) * u == d;
      PositiveQuotient(-q, u);
    } else if d < 0.0 {
      PositiveQuotient(q, u);
    }
  }

  lemma AtLeastScaled(x: real, f: real, u: real)
    requires u > 0.0
    ensures x >= f <==> x * u >= f * u
  {
    if x >= f {
      assert (x - f) * u >= 0.0;
    } else {
      assert (f - x) * u > 0.0;
    }
  }

  /** The bands either side of a floor where a wall time and its rate, judged
      apiece, would disagree. */
  predicate InBand(d: real, f: real)
    requires 0.0 < f < 1.0
  {
    f <= d < f / (1.0 - f) || -f < d <= -(f / (1.0 + f))
  }

  lemma BandsAreWhereFloorsDisagree(d: real, f: real)
    requires d > -1.0 && 0.0 < f < 1.0
    ensures (Abs(d) >= f) != (Abs(RateChange(d)) >= f) <==> InBand(d, f)
  {
    RateChangeAtLeast(d, f);
    var p, q := f / (1.0 - f), f / (1.0 + f);
    assert p * (1.0 - f) == f && q * (1.0 + f) == f;
    AtLeastScaled(d, p, 1.0 - f);
    AtLeastScaled(-d, q, 1.0 + f);
  }

  lemma RatePair(c: real, w: real, d: real)
    requires c > 0.0 && w > 0.0 && d > -1.0
    ensures w * (1.0 + d) > 0.0 && c / w != 0.0
    ensures (c / (w * (1.0 + d)) - c / w) / (c / w) == RateChange(d)
  {
    var u, p := 1.0 + d, c / w;
    var v := w * u;
    assert v > 0.0;
    assert p * w == c;
    PositiveQuotient(p, w);
    var i := 1.0 / u;
    assert i * u == 1.0;
    assert (p * i) * v == (p * w) * (i * u);
    QuotientIs(c, v, p * i);
    assert p * i - p == (i - 1.0) * p;
    QuotientIs(p * i - p, p, i - 1.0);
    assert (i - 1.0) * u == i * u - u == -d;
    QuotientIs(-d, u, i - 1.0);
  }

  lemma WallPair(w: real, d: real)
    requires w > 0.0
    ensures (w * (1.0 + d) - w) / w == d
  {
    assert d * w == w * (1.0 + d) - w;
    QuotientIs(w * (1.0 + d) - w, w, d);
  }

  /** Wall times `w` shifted by `d`, and the rates `c / w` they give. */
  ghost predicate ShiftedRun(
    w: seq<real>, d: real, c: real, wall: (seq<Value>, seq<Value>), rate: (seq<Value>, seq<Value>))
  {
    && |wall.0| == |wall.1| == |rate.0| == |rate.1| == |w| && c > 0.0 && d > -1.0
    && forall k | 0 <= k < |w| ::
         && w[k] > 0.0 && w[k] * (1.0 + d) > 0.0
         && wall.0[k] == Finite(w[k]) && wall.1[k] == Finite(w[k] * (1.0 + d))
         && rate.0[k] == Finite(c / w[k]) && rate.1[k] == Finite(c / (w[k] * (1.0 + d)))
  }

  lemma ShiftedRunDeltas(w: seq<real>, d: real, c: real, wall: (seq<Value>, seq<Value>), rate: (seq<Value>, seq<Value>))
    requires ShiftedRun(w, d, c, wall, rate)
    ensures ShiftedBy(wall.0, wall.1, d) && ShiftedBy(rate.0, rate.1, RateChange(d))
  {
    forall k | 0 <= k < |w|
      ensures PairRefusal(0, wall.0[k], wall.1[k]).None? && PairDelta(wall.0[k], wall.1[k]) == d
      ensures PairRefusal(0, rate.0[k], rate.1[k]).None? && PairDelta(rate.0[k], rate.1[k]) == RateChange(d)
    {
      WallPair(w[k], d);
      RatePair(c, w[k], d);
    }
  }

  /** A wall time shifted by `d` and the rate computed from it, each judged on
      its own floor, disagree exactly when `d` lies in one of the two bands. */
  lemma JudgedApieceDisagreeExactlyInTheBands(
    num: Numerics, metric: string, w: seq<real>, d: real, c: real,
    wall: (seq<Value>, seq<Value>), rate: (seq<Value>, seq<Value>), seed: Word, rateSeed: Word)
    requires num.Valid() && DerivedFrom(metric).Some?
    requires MIN_REPLICATES <= |w| < TWO64 && ShiftedRun(w, d, c, wall, rate)
    ensures Comparable(wall.0, wall.1) && Comparable(rate.0, rate.1)
    ensures AnalysisOf(num, WALL_NS_PER_ITER, false, wall.0, wall.1, seed).verdict
         != AnalysisOf(num, metric, true, rate.0, rate.1, rateSeed).verdict
         <==> InBand(d, DEFAULT_FLOOR)
  {
    ShiftedRunDeltas(w, d, c, wall, rate);
    TimingFloors(metric);
    ConstantShiftIsFlaggedAtTheFloor(num, WALL_NS_PER_ITER, false, wall.0, wall.1, seed, d);
    ConstantShiftIsFlaggedAtTheFloor(num, metric, true, rate.0, rate.1, rateSeed, RateChange(d));
    BandsAreWhereFloorsDisagree(d, DEFAULT_FLOOR);
    RateChangeAtLeast(d, DEFAULT_FLOOR);
    assert d == 0.0 ==> RateChange(d) == 0.0;
  }

  lemma TimingFloors(metric: string)
    requires DerivedFrom(metric).Some?
    ensures FloorFor(metric) == DEFAULT_FLOOR == FloorFor(WALL_NS_PER_ITER)
  {
    assert |RECORDS_PER_S| == 13 && |BYTES_PER_S| == 11 && |WALL_NS_PER_ITER| == 16;
    assert |PEAK_RSS_BYTES| == 14 && |ALLOC_BYTES_PER_ITER| == 20 && |ALLOC_COUNT_PER_ITER| == 20;
  }
}
