/** How one timing event comes to be counted twice: a case whose wall time is
    recorded in two units loses that row, and its two throughputs, judged apiece,
    both become findings. */
module LostWall {
  import opened Cases
  import opened Wrappers
  import opened LittleEndian
  import opened RealArithmetic
  import opened TQuantile
  import opened Replicates
  import opened Decision
  import opened Inheritance
  import opened Records
  import opened CaseCompare
  import opened Compare
  import opened Fingerprints
  import opened GuardLaws
  import opened ReportLaws
  import opened Summary

  /** Every replicate recorded exactly this for the metric. */
  ghost predicate Carry(reps: Replicas, m: string, metric: Metric) {
    forall k | k in reps :: m in reps[k].metrics && reps[k].metrics[m] == metric
  }

  lemma FirstCarriersShape(b: Replicas, h: Replicas, m: string, metric: Metric)
    requires b != map[] && Carry(b, m, metric)
    ensures SeedShape(b, h, m) == Some(ShapeOf(metric)) && m in AllMetrics(b, h)
  {
    var k :| k in b;
    var ks := Ascending(b.Keys);
    assert k in ks;
    assert ks[0] in ks;
  }

  /** A metric the legs record in two shapes is left out. */
  lemma TwoShapesAreNotWhole(b: Replicas, h: Replicas, m: string, x: Metric, y: Metric)
    requires b.Keys * h.Keys != {} && Carry(b, m, x) && Carry(h, m, y) && ShapeOf(x) != ShapeOf(y)
    ensures !Whole(b, h, m)
  {
    var k :| k in b.Keys * h.Keys;
    assert k in b && k in h && k in Paired(b, h);
    FirstCarriersShape(b, h, m, x);
  }

  lemma ValuesOfCarried(reps: Replicas, ks: seq<nat>, m: string, metric: Metric)
    requires Carry(reps, m, metric) && forall k | k in ks :: k in reps
    ensures CarriedBy(reps, ks, m, ShapeOf(metric))
    ensures forall i | 0 <= i < |ks| :: Values(reps, ks, m)[i] == metric.value
  {
    forall i | 0 <= i < |ks|
      ensures Values(reps, ks, m)[i] == metric.value
    {
      assert ks[i] in ks;
    }
  }

  lemma ConstantPairsAreShifted(bs: seq<Value>, hs: seq<Value>, x: real, y: real)
    requires |bs| == |hs| && x != 0.0 && forall i | 0 <= i < |bs| :: bs[i] == Finite(x) && hs[i] == Finite(y)
    ensures ShiftedBy(bs, hs, (y - x) / x)
  {
  }

  lemma CarriedIsWhole(b: Replicas, h: Replicas, m: string, x: Metric, y: Metric)
    requires b.Keys * h.Keys != {} && Carry(b, m, x) && Carry(h, m, y) && ShapeOf(x) == ShapeOf(y)
    ensures Whole(b, h, m) && SeedShape(b, h, m).value == ShapeOf(x) && m in AllMetrics(b, h)
  {
    var k :| k in b.Keys * h.Keys;
    assert k in b;
    FirstCarriersShape(b, h, m, x);
    ValuesOfCarried(b, Paired(b, h), m, x);
    ValuesOfCarried(h, Paired(b, h), m, y);
  }

  /** A constant change of a metric, at least as large as its floor. */
  ghost predicate ChangesPastTheFloor(m: string, x: Metric, y: Metric) {
    && ShapeOf(x) == ShapeOf(y) && x.value.Finite? && y.value.Finite? && x.value.x != 0.0
    && Abs((y.value.x - x.value.x) / x.value.x) >= FloorFor(m)
  }

  lemma ConstantSamplesAreFlagged(
    judge: Judge, num: Numerics, m: string, x: Metric, y: Metric, bs: seq<Value>, hs: seq<Value>, seed: Word)
    requires DecisionRule(judge, num) && ChangesPastTheFloor(m, x, y) && |bs| == |hs|
    requires MIN_REPLICATES <= |bs| < TWO64
    requires forall i | 0 <= i < |bs| :: bs[i] == x.value && hs[i] == y.value
    ensures var r := judge(m, x.higherIsBetter, bs, hs, seed); r.Ok? && r.value.verdict.IsSignificant()
  {
    var d := (y.value.x - x.value.x) / x.value.x;
    ConstantPairsAreShifted(bs, hs, x.value.x, y.value.x);
    ConstantShiftIsFlaggedAtTheFloor(num, m, x.higherIsBetter, bs, hs, seed, d);
  }

  /** A metric recorded as `x` at every replicate of one leg and `y` at every
      replicate of the other, past its floor, is flagged. */
  lemma ConstantMetricIsFlagged(
    setting: Setting, num: Numerics, id: CaseId, b: Replicas, h: Replicas, m: string, x: Metric, y: Metric)
    requires DecisionRule(setting.judge, num) && MIN_REPLICATES <= |b.Keys * h.Keys| < TWO64
    requires Carry(b, m, x) && Carry(h, m, y) && ChangesPastTheFloor(m, x, y)
    ensures Judgeable(setting, id, b, h, m) && Judged(setting, id, b, h, m).value.verdict.IsSignificant()
  {
    var ks := Paired(b, h);
    CarriedIsWhole(b, h, m, x, y);
    ValuesOfCarried(b, ks, m, x);
    ValuesOfCarried(h, ks, m, y);
    ConstantSamplesAreFlagged(
      setting.judge, num, m, x, y, Values(b, ks, m), Values(h, ks, m), setting.seed(id, m));
  }

  /** What one leg recorded at every replicate: the wall time and the two
      throughputs computed from it. */
  datatype Timing3 = Timing3(wall: Metric, records: Metric, bytes: Metric)

  ghost predicate CarryTiming(reps: Replicas, t: Timing3) {
    Carry(reps, WALL_NS_PER_ITER, t.wall) && Carry(reps, RECORDS_PER_S, t.records) && Carry(reps, BYTES_PER_S, t.bytes)
  }

  /** The case loses its wall time and keeps both throughputs as findings. */
  lemma WallLostRatesFlagged(
    setting: Setting, num: Numerics, id: CaseId, b: Replicas, h: Replicas, x: Timing3, y: Timing3)
    requires DecisionRule(setting.judge, num) && MIN_REPLICATES <= |b.Keys * h.Keys| < TWO64
    requires Reached(setting, id, b, h) && !Erratic(b, h) && CarryTiming(b, x) && CarryTiming(h, y)
    requires ShapeOf(x.wall) != ShapeOf(y.wall)
    requires ChangesPastTheFloor(RECORDS_PER_S, x.records, y.records)
    requires ChangesPastTheFloor(BYTES_PER_S, x.bytes, y.bytes)
    ensures var rows := CaseRows(setting, id, b, h);
      WALL_NS_PER_ITER !in rows && FlaggedRow(rows, RECORDS_PER_S) && FlaggedRow(rows, BYTES_PER_S)
  {
    TwoShapesAreNotWhole(b, h, WALL_NS_PER_ITER, x.wall, y.wall);
    RateIsFlagged(setting, num, id, b, h, RECORDS_PER_S, x.records, y.records);
    RateIsFlagged(setting, num, id, b, h, BYTES_PER_S, x.bytes, y.bytes);
  }

  ghost predicate FlaggedRow(rows: map<string, Row>, m: string) {
    m in rows && rows[m].metric == m && !rows[m].erratic && rows[m].analysis.verdict.IsSignificant()
  }

  /** Without a wall time to take a verdict from, a row keeps its own. */
  lemma RowWithoutWall(setting: Setting, id: CaseId, b: Replicas, h: Replicas, m: string)
    requires Reached(setting, id, b, h) && m in AllMetrics(b, h) && Judgeable(setting, id, b, h, m)
    requires !Whole(b, h, WALL_NS_PER_ITER)
    ensures m in CaseRows(setting, id, b, h) && CaseRows(setting, id, b, h)[m] == RowOf(setting, id, b, h, m)
    ensures WALL_NS_PER_ITER !in CaseRows(setting, id, b, h)
  {
    RawRowOf(setting, id, b, h, m);
    SettledAlone(RawRows(setting, id, b, h), m);
  }

  lemma RawRowOf(setting: Setting, id: CaseId, b: Replicas, h: Replicas, m: string)
    requires b.Keys * h.Keys != {} && m in AllMetrics(b, h) && Judgeable(setting, id, b, h, m)
    requires !Whole(b, h, WALL_NS_PER_ITER)
    ensures m in RawRows(setting, id, b, h) && RawRows(setting, id, b, h)[m] == RowOf(setting, id, b, h, m)
    ensures WALL_NS_PER_ITER !in RawRows(setting, id, b, h)
  {
  }

  lemma SettledAlone(raw: map<string, Row>, m: string)
    requires m in raw && WALL_NS_PER_ITER !in raw
    ensures SettledRows(raw)[m] == raw[m]
  {
  }

  lemma RateIsFlagged(
    setting: Setting, num: Numerics, id: CaseId, b: Replicas, h: Replicas, m: string, x: Metric, y: Metric)
    requires DecisionRule(setting.judge, num) && MIN_REPLICATES <= |b.Keys * h.Keys| < TWO64
    requires Reached(setting, id, b, h) && !Erratic(b, h) && Carry(b, m, x) && Carry(h, m, y)
    requires ChangesPastTheFloor(m, x, y) && !Whole(b, h, WALL_NS_PER_ITER)
    ensures WALL_NS_PER_ITER !in CaseRows(setting, id, b, h) && FlaggedRow(CaseRows(setting, id, b, h), m)
  {
    CarriedIsWhole(b, h, m, x, y);
    ConstantMetricIsFlagged(setting, num, id, b, h, m, x, y);
    RowWithoutWall(setting, id, b, h, m);
  }

  /** Every such case of a comparison is counted twice. */
  lemma LostWallIsCountedTwice(
    rows: seq<Row>, setting: Setting, num: Numerics, legs: Legs, id: CaseId, x: Timing3, y: Timing3)
    requires RowsOf(rows, setting, legs) && DecisionRule(setting.judge, num) && id in legs.Shared()
    requires MIN_REPLICATES <= |legs.base[id].Keys * legs.head[id].Keys| < TWO64
    requires Reached(setting, id, legs.base[id], legs.head[id]) && !Erratic(legs.base[id], legs.head[id])
    requires CarryTiming(legs.base[id], x) && CarryTiming(legs.head[id], y) && ShapeOf(x.wall) != ShapeOf(y.wall)
    requires ChangesPastTheFloor(RECORDS_PER_S, x.records, y.records)
    requires ChangesPastTheFloor(BYTES_PER_S, x.bytes, y.bytes)
    ensures CountedTwice(rows, id)
  {
    var table := Compared(setting, legs).rows;
    WallLostRatesFlagged(setting, num, id, legs.base[id], legs.head[id], x, y);
    WallIsListed(rows, table, id);
    FlaggedRowIsListed(rows, table, id, RECORDS_PER_S);
    FlaggedRowIsListed(rows, table, id, BYTES_PER_S);
    CountedTwiceIff(rows, setting, legs, id);
  }

  lemma FlaggedRowIsListed(rows: seq<Row>, table: map<CaseId, map<string, Row>>, id: CaseId, m: string)
    requires RowsListed(rows, table) && id in table && FlaggedRow(table[id], m)
    ensures SignificantAt(rows, id, m)
  {
    assert HasRow(rows, id, m);
    var i: nat :| i < |rows| && CellOf(rows[i]) == (id, m);
    assert InTable(table, rows[i]);
    assert SignificantRow(rows, i);
  }

  // ---- two legs like that ----

  const CASE := CaseId("spate-avro", "decode", "small")

  const FIELDS :=
    GuardedFields(Fingerprint(1, None, None, None, None, []), Host("linux/x86_64", "unknown", 8, "local"))

  function Origin(leg: string): Provenance {
    Provenance(leg, Commit, FIELDS, "")
  }

  function Metrics(t: Timing3): map<string, Metric> {
    map[WALL_NS_PER_ITER := t.wall, RECORDS_PER_S := t.records, BYTES_PER_S := t.bytes]
  }

  lemma MetricsHold(t: Timing3)
    ensures var ms := Metrics(t);
      && WALL_NS_PER_ITER in ms && ms[WALL_NS_PER_ITER] == t.wall
      && RECORDS_PER_S in ms && ms[RECORDS_PER_S] == t.records
      && BYTES_PER_S in ms && ms[BYTES_PER_S] == t.bytes
  {
    assert |WALL_NS_PER_ITER| == 16 && |RECORDS_PER_S| == 13 && |BYTES_PER_S| == 11;
  }

  function RecordAt(leg: string, t: Timing3, k: nat): Record {
    Record(CASE, k, false, 1, false, "corpus", None, Metrics(t), Origin(leg))
  }

  function Series(leg: string, t: Timing3): (s: seq<Record>)
    ensures |s| == 5
  {
    seq(5, k requires 0 <= k < 5 => RecordAt(leg, t, k))
  }

  lemma SeriesAt(leg: string, t: Timing3)
    ensures forall k: nat | k < 5 :: Series(leg, t)[k] == RecordAt(leg, t, k)
    ensures UniqueKeys(Series(leg, t))
  {
  }

  const BASE_TIMING := Timing3(
    Metric(Finite(100.0), "ns", false), Metric(Finite(100.0), "1/s", true), Metric(Finite(100.0), "B/s", true))
  const HEAD_TIMING := Timing3(
    Metric(Finite(0.05), "us", false), Metric(Finite(200.0), "1/s", true), Metric(Finite(200.0), "B/s", true))

  const BASE := Leg("runs/base", Origin(BASE_LEG), Series(BASE_LEG, BASE_TIMING))
  const HEAD := Leg("runs/head", Origin(HEAD_LEG), Series(HEAD_LEG, HEAD_TIMING))

  /** What such a leg holds once grouped. */
  lemma SeriesGroups(leg: string, t: Timing3)
    ensures var groups := GroupOf(Series(leg, t));
      && groups.Keys == {CASE} && groups[CASE].Keys == {0, 1, 2, 3, 4}
      && (forall k | k in groups[CASE] :: groups[CASE][k] == RecordAt(leg, t, k))
  {
    var records := Series(leg, t);
    var groups := GroupOf(records);
    SeriesAt(leg, t);
    forall k: nat | k < 5
      ensures CASE in groups && k in groups[CASE] && groups[CASE][k] == RecordAt(leg, t, k)
    {
      assert records[k] in records;
      GroupHoldsEveryRecord(records, records[k]);
    }
    assert CASE in groups && 0 in groups[CASE];
    forall id, k | id in groups && k in groups[id]
      ensures id == CASE && k < 5
    {
      GroupedIsInSeries(leg, t, id, k);
    }
    GroupIsWellGrouped(records);
    forall id | id in groups
      ensures id == CASE
    {
      var k :| k in groups[id];
    }
  }

  lemma GroupedIsInSeries(leg: string, t: Timing3, id: CaseId, k: nat)
    requires id in GroupOf(Series(leg, t)) && k in GroupOf(Series(leg, t))[id]
    ensures id == CASE && k < 5
  {
    var records := Series(leg, t);
    var r := GroupOf(records)[id][k];
    SeriesAt(leg, t);
    GroupIsWellGrouped(records);
    assert Grouped(GroupOf(records), r);
    GroupHoldsOnlyRecords(records, r);
    var i: nat :| i < |records| && records[i] == r;
  }

  lemma SeriesCarries(reps: Replicas, leg: string, t: Timing3)
    requires forall k | k in reps :: reps[k] == RecordAt(leg, t, k)
    ensures CarryTiming(reps, t)
  {
    MetricsHold(t);
  }

  lemma FiveReplicates(s: set<nat>)
    requires s == {0, 1, 2, 3, 4}
    ensures |s * s| == 5 && 0 in s
  {
    assert s * s == s;
  }

  lemma SeriesReaches(setting: Setting, b: Replicas, h: Replicas)
    requires b.Keys == {0, 1, 2, 3, 4} == h.Keys
    requires forall k | k in b :: b[k] == RecordAt(BASE_LEG, BASE_TIMING, k)
    requires forall k | k in h :: h[k] == RecordAt(HEAD_LEG, HEAD_TIMING, k)
    ensures |b.Keys * h.Keys| == 5 && Reached(setting, CASE, b, h) && !Erratic(b, h)
  {
    FiveReplicates(b.Keys);
    assert 0 in b && 0 in h;
    SeriesFits(setting, b, h, 0);
    assert Paired(b, h)[0] in Paired(b, h);
  }

  lemma SeriesFits(setting: Setting, b: Replicas, h: Replicas, i: nat)
    requires i in b && i in h
    requires forall k | k in b :: b[k] == RecordAt(BASE_LEG, BASE_TIMING, k)
    requires forall k | k in h :: h[k] == RecordAt(HEAD_LEG, HEAD_TIMING, k)
    ensures Reached(setting, CASE, b, h)
  {
    ReachedIffFit(setting, CASE, b, h, i, i);
    assert RightBuilds(setting.axis, None, None);
  }

  lemma DoubledPastTheFloor(m: string, unit: string)
    ensures ChangesPastTheFloor(m, Metric(Finite(100.0), unit, true), Metric(Finite(200.0), unit, true))
  {
    QuotientIs(200.0 - 100.0, 100.0, 1.0);
  }

  lemma CountInOne(p: CaseId -> bool, id: CaseId)
    ensures Count(p, {id}) <= 1
  {
    CountOfNone(p, {});
    CountOneMore(p, {}, id);
    assert {} + {id} == {id};
  }

  /** One shared case never makes a statement about the whole run. */
  lemma OneCaseIsNotSystemic(setting: Setting, legs: Legs, id: CaseId)
    requires legs.Shared() == {id}
    ensures Systemic(TalliedOver(setting, legs, legs.All()), setting).None?
  {
    EverySharedCaseIsVisited(setting, legs);
    CountInOne(Asked(setting, legs), id);
  }

  /** No guard refuses the two legs. */
  lemma TheyCompare(setting: Setting, allow: set<string>)
    ensures RefusalOf(setting, BASE, HEAD, allow).None?
  {
    OnlyCaseIsShared();
    OneCaseIsNotSystemic(setting, LegsOf(BASE, HEAD), CASE);
    DirectoriesDiffer();
    FieldsPassIff(FIELDS, FIELDS, allow, setting.axis);
  }

  lemma OnlyCaseIsShared()
    ensures LegsOf(BASE, HEAD).Shared() == {CASE}
  {
    SeriesGroups(BASE_LEG, BASE_TIMING);
    SeriesGroups(HEAD_LEG, HEAD_TIMING);
  }

  /** What loading asks of a leg. */
  ghost predicate Loads(leg: Leg) {
    && leg.records != [] && UniqueKeys(leg.records)
    && OneProvenance(leg.records) && leg.provenance == leg.records[0].provenance
  }

  lemma TheyLoad()
    ensures Loads(BASE) && Loads(HEAD)
  {
    SeriesAt(BASE_LEG, BASE_TIMING);
    SeriesAt(HEAD_LEG, HEAD_TIMING);
  }

  lemma DirectoriesDiffer()
    ensures GuardLegs(BASE, HEAD).None?
  {
    assert "runs/base"[5] != "runs/head"[5] && BASE_LEG[0] != HEAD_LEG[0];
  }

  /** These two legs load, compare, and have every report of them count the
      case's timing twice. */
  lemma OneEventIsCountedTwice(
    setting: Setting, num: Numerics, order: Orders, allow: set<string>, out: Report)
    requires DecisionRule(setting.judge, num)
    requires LaysOut(order, out, Outcome(setting, BASE, HEAD))
    ensures Loads(BASE) && Loads(HEAD) && RefusalOf(setting, BASE, HEAD, allow).None?
    ensures CountedTwice(out.rows, CASE)
  {
    TheyLoad();
    TheyCompare(setting, allow);
    TheyAreCountedTwice(setting, num, out.rows);
  }

  lemma TheyAreCountedTwice(setting: Setting, num: Numerics, rows: seq<Row>)
    requires DecisionRule(setting.judge, num) && RowsOf(rows, setting, LegsOf(BASE, HEAD))
    ensures CountedTwice(rows, CASE)
  {
    SeriesGroups(BASE_LEG, BASE_TIMING);
    SeriesGroups(HEAD_LEG, HEAD_TIMING);
    var legs := LegsOf(BASE, HEAD);
    var b, h := legs.base[CASE], legs.head[CASE];
    SeriesReaches(setting, b, h);
    SeriesCarries(b, BASE_LEG, BASE_TIMING);
    SeriesCarries(h, HEAD_LEG, HEAD_TIMING);
    DoubledPastTheFloor(RECORDS_PER_S, "1/s");
    DoubledPastTheFloor(BYTES_PER_S, "B/s");
    assert "us"[0] != "ns"[0];
    LostWallIsCountedTwice(rows, setting, num, legs, CASE, BASE_TIMING, HEAD_TIMING);
  }
}
