/** One case, compared: the guards on its corpus, its build and its counts, the
    pairing of its replicates, and the analysis of each metric. */
module CaseCompare {
  import opened Cases
  import opened Wrappers
  import opened LittleEndian
  import opened Sequences
  import opened Sets
  import opened TQuantile
  import opened Decision
  import opened Inheritance
  import opened Records

  /** How one metric's paired samples are judged. Comparing a case does not
      depend on the rule, so it is a parameter here; `DecisionRule` below says
      what it is. */
  type Judge = (string, bool, seq<Value>, seq<Value>, Word) -> Result<Analysis, Refusal>

  /** What a comparison is run with: the rule, the bootstrap seed of each
      (case, metric), the axis, and the two waivable per-case guards. */
  datatype Setting = Setting(
    judge: Judge, seed: (CaseId, string) -> Word, axis: Axis, allowDigest: bool, allowBuild: bool)

  /** The rule `Analyse` computes. */
  ghost predicate DecisionRule(judge: Judge, num: Numerics) {
    && num.Valid()
    && forall metric, higher, base, head, seed | |base| < TWO64 ::
         var r := judge(metric, higher, base, head, seed);
         && (r.Ok? <==> base != [] && Comparable(base, head))
         && (r.Ok? ==> r.value == AnalysisOf(num, metric, higher, base, head, seed))
  }

  /** The rule as a function: what `Analyse` computes, or that it refuses. */
  ghost function RuleOf(num: Numerics): Judge
    requires num.Valid()
  {
    (metric: string, higher: bool, base: seq<Value>, head: seq<Value>, seed: Word) =>
      if |base| < TWO64 && base != [] && Comparable(base, head)
      then Ok(AnalysisOf(num, metric, higher, base, head, seed))
      else Err(NoSamples)
  }

  lemma RuleOfIsTheRule(num: Numerics)
    requires num.Valid()
    ensures DecisionRule(RuleOf(num), num)
  {
  }

  datatype Cause =
    | DigestLeftOut | DigestCompared
    | BuildLeftOut | BuildCompared | BuildSameLeftOut | BuildSameCompared
    | Other

  datatype What = WholeCase(id: CaseId) | OneMetric(id: CaseId, metric: string)

  datatype Why =
    | PresentOnOneLeg
    | DigestWithinLeg | DigestDiffers
    | BuildWithinLeg | BuildOneSided | BuildSame | BuildDiffers
    | ItersDiffer
    | Unpaired(replicates: set<nat>)
    | MetricMissing
    | RefusedByTheRule

  datatype NotComparable = NotComparable(what: What, why: Why, cause: Cause)

  // ---- what the replicates of a leg say ----

  function Digests(reps: Replicas): set<string> {
    set k | k in reps :: reps[k].corpusDigest
  }

  function Builds(reps: Replicas): set<Option<string>> {
    set k | k in reps :: reps[k].buildDigest
  }

  function IterCounts(reps: Replicas): set<nat> {
    set k | k in reps :: reps[k].iters
  }

  function MetricNames(reps: Replicas): set<string> {
    set k, m | k in reps && m in reps[k].metrics :: m
  }

  // ---- the guards ----

  /** A guard's answer: what it discloses, and whether the case goes on. */
  datatype Gate = Gate(entry: Option<NotComparable>, passes: bool)

  predicate DigestsWithin(b: Replicas, h: Replicas) {
    |Digests(b)| != 1 || |Digests(h)| != 1
  }

  function DigestGate(setting: Setting, id: CaseId, b: Replicas, h: Replicas): Gate {
    if Digests(b) == Digests(h) && |Digests(b)| == 1 then Gate(None, true)
    else
      var within := DigestsWithin(b, h);
      var why := if within then DigestWithinLeg else DigestDiffers;
      if setting.allowDigest && !within then Gate(Some(NotComparable(WholeCase(id), why, DigestCompared)), true)
      else Gate(Some(NotComparable(WholeCase(id), why, DigestLeftOut)), false)
  }

  predicate BuildsWithin(b: Replicas, h: Replicas) {
    |Builds(b)| != 1 || |Builds(h)| != 1
  }

  predicate BuildsAgree(b: Replicas, h: Replicas) {
    Builds(b) == Builds(h)
  }

  predicate DeclaredAnything(b: Replicas, h: Replicas) {
    exists x :: x in Builds(b) + Builds(h) && x.Some?
  }

  predicate BuildsOneSided(b: Replicas, h: Replicas) {
    DeclaredAnything(b, h) && (Builds(b) == {None} || Builds(h) == {None})
  }

  /** The answer the guard wants inverts with the axis. */
  predicate BuildsWrong(axis: Axis, b: Replicas, h: Replicas) {
    || BuildsWithin(b, h)
    || BuildsOneSided(b, h)
    || (match axis
        case Commit => !BuildsAgree(b, h)
        case Arm => BuildsAgree(b, h) && DeclaredAnything(b, h))
  }

  function BuildGate(setting: Setting, id: CaseId, b: Replicas, h: Replicas): Gate {
    if !BuildsWrong(setting.axis, b, h) then Gate(None, true)
    else
      var within, oneSided, agree := BuildsWithin(b, h), BuildsOneSided(b, h), BuildsAgree(b, h);
      var why :=
        if within then BuildWithinLeg else if oneSided then BuildOneSided
        else if agree then BuildSame else BuildDiffers;
      var same := agree && !within && !oneSided;
      if setting.allowBuild && !within then
        Gate(Some(NotComparable(WholeCase(id), why, if same then BuildSameCompared else BuildCompared)), true)
      else
        Gate(Some(NotComparable(WholeCase(id), why, if same then BuildSameLeftOut else BuildLeftOut)), false)
  }

  function ItersGate(id: CaseId, b: Replicas, h: Replicas): Gate {
    if IterCounts(b) == IterCounts(h) && |IterCounts(b)| == 1 then Gate(None, true)
    else Gate(Some(NotComparable(WholeCase(id), ItersDiffer, Other)), false)
  }

  function PairingGate(id: CaseId, b: Replicas, h: Replicas): Gate {
    var unpaired := b.Keys + h.Keys - b.Keys * h.Keys;
    Gate(if unpaired == {} then None else Some(NotComparable(WholeCase(id), Unpaired(unpaired), Other)),
         b.Keys * h.Keys != {})
  }

  function Disclosed(g: Gate): set<NotComparable> {
    if g.entry.Some? then {g.entry.value} else {}
  }

  /** The case reaches its metrics. */
  predicate Reached(setting: Setting, id: CaseId, b: Replicas, h: Replicas) {
    && DigestGate(setting, id, b, h).passes
    && BuildGate(setting, id, b, h).passes
    && ItersGate(id, b, h).passes
    && PairingGate(id, b, h).passes
  }

  /** What gates in a row disclose, each asked only if the ones before let the
      case through. */
  function DisclosedThrough(digest: Gate, build: Gate, iters: Gate, pairing: Gate): set<NotComparable> {
    if !digest.passes then Disclosed(digest)
    else if !build.passes then Disclosed(digest) + Disclosed(build)
    else if !iters.passes then Disclosed(digest) + Disclosed(build) + Disclosed(iters)
    else Disclosed(digest) + Disclosed(build) + Disclosed(iters) + Disclosed(pairing)
  }

  function GuardEntries(setting: Setting, id: CaseId, b: Replicas, h: Replicas): set<NotComparable> {
    DisclosedThrough(
      DigestGate(setting, id, b, h), BuildGate(setting, id, b, h), ItersGate(id, b, h), PairingGate(id, b, h))
  }

  // ---- pairing ----

  ghost predicate IsLeast(m: nat, s: set<nat>) {
    m in s && forall x | x in s :: m <= x
  }

  function Least(s: set<nat>): (m: nat)
    requires s != {}
    ensures IsLeast(m, s)
  {
    LeastExists(s);
    var m :| m in s && forall x | x in s :: m <= x;
    m
  }

  lemma LeastExists(s: set<nat>)
    requires s != {}
    ensures exists m :: IsLeast(m, s)
  {
    var y :| y in s;
    var rest := s - {y};
    if rest == {} {
      assert s == {y};
      assert IsLeast(y, s);
    } else {
      LeastExists(rest);
      var m :| IsLeast(m, rest);
      LeastOfTwo(y, m, s);
    }
  }

  lemma LeastOfTwo(y: nat, m: nat, s: set<nat>)
    requires y in s && IsLeast(m, s - {y})
    ensures IsLeast(if y < m then y else m, s)
  {
    forall x | x in s
      ensures x == y || m <= x
    {
      assert x == y || x in s - {y};
    }
  }

  /** The replicate indices of a set, in increasing order. */
  function Ascending(s: set<nat>): (ks: seq<nat>)
    ensures |ks| == |s|
    ensures forall k :: k in ks <==> k in s
    ensures forall i, j | 0 <= i < j < |ks| :: ks[i] < ks[j]
  {
    if s == {} then []
    else
      var m := Least(s);
      var rest := Ascending(s - {m});
      PrependLeast(m, s, rest);
      [m] + rest
  }

  lemma PrependLeast(m: nat, s: set<nat>, rest: seq<nat>)
    requires IsLeast(m, s) && |rest| == |s - {m}| && (forall k :: k in rest <==> k in s - {m})
    requires forall i, j | 0 <= i < j < |rest| :: rest[i] < rest[j]
    ensures var ks := [m] + rest;
      |ks| == |s| && (forall k :: k in ks <==> k in s) && forall i, j | 0 <= i < j < |ks| :: ks[i] < ks[j]
  {
    var ks := [m] + rest;
    forall i, j | 0 <= i < j < |ks|
      ensures ks[i] < ks[j]
    {
      assert ks[j] == rest[j - 1];
      assert rest[j - 1] in rest;
    }
  }

  // ---- one metric ----

  datatype Shape = Shape(unit: string, higherIsBetter: bool)

  function ShapeOf(m: Metric): Shape {
    Shape(m.unit, m.higherIsBetter)
  }

  /** The shape in the first of these replicates to carry the metric. */
  function FirstShape(reps: Replicas, ks: seq<nat>, metric: string): Option<Shape>
    requires forall k | k in ks :: k in reps
  {
    if ks == [] then None
    else if metric in reps[ks[0]].metrics then Some(ShapeOf(reps[ks[0]].metrics[metric]))
    else FirstShape(reps, ks[1..], metric)
  }

  /** Seeded from any record carrying the metric, paired or not, the base leg
      first. */
  function SeedShape(b: Replicas, h: Replicas, metric: string): Option<Shape> {
    var inBase := FirstShape(b, Ascending(b.Keys), metric);
    if inBase.Some? then inBase else FirstShape(h, Ascending(h.Keys), metric)
  }

  /** Every one of these replicates carries the metric in this shape. */
  ghost predicate CarriedBy(reps: Replicas, ks: seq<nat>, metric: string, shape: Shape)
    requires forall k | k in ks :: k in reps
  {
    forall k | k in ks :: metric in reps[k].metrics && ShapeOf(reps[k].metrics[metric]) == shape
  }

  ghost function Values(reps: Replicas, ks: seq<nat>, metric: string): (vs: seq<Value>)
    requires forall k | k in ks :: k in reps && metric in reps[k].metrics
    ensures |vs| == |ks|
  {
    seq(|ks|, i requires 0 <= i < |ks| => reps[ks[i]].metrics[metric].value)
  }

  function Paired(b: Replicas, h: Replicas): (ks: seq<nat>)
    ensures forall k :: k in ks <==> k in b && k in h
    ensures |ks| == |b.Keys * h.Keys|
  {
    Ascending(b.Keys * h.Keys)
  }

  /** The metric is whole over the paired replicates of both legs. */
  ghost predicate Whole(b: Replicas, h: Replicas, metric: string) {
    var shape := SeedShape(b, h, metric);
    && shape.Some?
    && CarriedBy(b, Paired(b, h), metric, shape.value)
    && CarriedBy(h, Paired(b, h), metric, shape.value)
  }

  /** What the rule says of a whole metric's paired values. */
  ghost function Judged(setting: Setting, id: CaseId, b: Replicas, h: Replicas, metric: string)
    : Result<Analysis, Refusal>
    requires Whole(b, h, metric)
  {
    var ks := Paired(b, h);
    setting.judge(metric, SeedShape(b, h, metric).value.higherIsBetter,
                  Values(b, ks, metric), Values(h, ks, metric), setting.seed(id, metric))
  }

  ghost predicate Judgeable(setting: Setting, id: CaseId, b: Replicas, h: Replicas, metric: string) {
    Whole(b, h, metric) && Judged(setting, id, b, h, metric).Ok?
  }

  /** Either leg's first paired record declaring the case noisy is enough. */
  function Erratic(b: Replicas, h: Replicas): bool
    requires b.Keys * h.Keys != {}
  {
    var k := Paired(b, h)[0];
    b[k].erratic || h[k].erratic
  }

  /** The row of one metric, before inheritance: its sample is the values at
      exactly the replicates both legs have. */
  ghost function RowOf(setting: Setting, id: CaseId, b: Replicas, h: Replicas, metric: string): (row: Row)
    requires b.Keys * h.Keys != {} && Judgeable(setting, id, b, h, metric)
    ensures row.metric == metric
  {
    var shape := SeedShape(b, h, metric).value;
    Row(id, metric, shape.unit, shape.higherIsBetter, Erratic(b, h), false, Judged(setting, id, b, h, metric).value)
  }

  ghost function MetricEntry(id: CaseId, b: Replicas, h: Replicas, metric: string): NotComparable {
    NotComparable(OneMetric(id, metric), if Whole(b, h, metric) then RefusedByTheRule else MetricMissing, Other)
  }

  /** Every metric some record carries has a shape, so none falls out of the
      report for want of one. */
  lemma CarriedMetricHasAShape(b: Replicas, h: Replicas, metric: string)
    ensures SeedShape(b, h, metric).Some? <==> metric in MetricNames(b) + MetricNames(h)
  {
    FirstShapeExists(b, Ascending(b.Keys), metric);
    FirstShapeExists(h, Ascending(h.Keys), metric);
  }

  lemma {:induction false} FirstShapeExists(reps: Replicas, ks: seq<nat>, metric: string)
    requires forall k | k in ks :: k in reps
    ensures FirstShape(reps, ks, metric).Some? <==> exists k :: k in ks && metric in reps[k].metrics
  {
    if ks != [] {
      FirstShapeExists(reps, ks[1..], metric);
    }
  }

  /** One side's value for one replicate. */
  method TakeValue(record: Record, metric: string, shape: Shape, values: seq<Value>, missing: bool)
    returns (values': seq<Value>, missing': bool)
    ensures missing' == (missing || metric !in record.metrics || ShapeOf(record.metrics[metric]) != shape)
    ensures metric in record.metrics ==> values' == values + [record.metrics[metric].value]
  {
    values', missing' := values, missing;
    if metric in record.metrics {
      var m := record.metrics[metric];
      if m.unit != shape.unit || m.higherIsBetter != shape.higherIsBetter {
        missing' := true;
      }
      values' := values' + [m.value];
    } else {
      missing' := true;
    }
  }

  /** Collects both legs' values over the paired replicates. */
  method Collect(b: Replicas, h: Replicas, ks: seq<nat>, metric: string, shape: Shape)
    returns (baseValues: seq<Value>, headValues: seq<Value>, missing: bool)
    requires forall k | k in ks :: k in b && k in h
    ensures !missing <==> CarriedBy(b, ks, metric, shape) && CarriedBy(h, ks, metric, shape)
    ensures !missing ==> baseValues == Values(b, ks, metric) && headValues == Values(h, ks, metric)
  {
    baseValues, headValues, missing := [], [], false;
    for i := 0 to |ks|
      invariant !missing ==> |baseValues| == i == |headValues|
      invariant !missing <==> forall j | 0 <= j < i ::
        && metric in b[ks[j]].metrics && ShapeOf(b[ks[j]].metrics[metric]) == shape
        && metric in h[ks[j]].metrics && ShapeOf(h[ks[j]].metrics[metric]) == shape
      invariant !missing ==> forall j | 0 <= j < i ::
        baseValues[j] == b[ks[j]].metrics[metric].value && headValues[j] == h[ks[j]].metrics[metric].value
    {
      baseValues, missing := TakeValue(b[ks[i]], metric, shape, baseValues, missing);
      headValues, missing := TakeValue(h[ks[i]], metric, shape, headValues, missing);
    }
  }

  /** Every row before inheritance, by metric. */
  ghost function RawRows(setting: Setting, id: CaseId, b: Replicas, h: Replicas): map<string, Row>
    requires b.Keys * h.Keys != {}
  {
    map m | m in AllMetrics(b, h) && Judgeable(setting, id, b, h, m) :: RowOf(setting, id, b, h, m)
  }

  /** Every metric left out, by metric. */
  ghost function LeftOut(setting: Setting, id: CaseId, b: Replicas, h: Replicas): map<string, NotComparable> {
    map m | m in AllMetrics(b, h) && !Judgeable(setting, id, b, h, m) :: MetricEntry(id, b, h, m)
  }

  function AllMetrics(b: Replicas, h: Replicas): set<string> {
    MetricNames(b) + MetricNames(h)
  }

  /** `all` and `refused` say of this metric what comparing it gives. */
  ghost predicate Foretold(setting: Setting, id: CaseId, b: Replicas, h: Replicas, m: string,
                           all: map<string, Row>, refused: map<string, NotComparable>)
    requires b.Keys * h.Keys != {}
  {
    && (m in all <==> Judgeable(setting, id, b, h, m))
    && (m in all ==> all[m] == RowOf(setting, id, b, h, m) && all[m].metric == m)
    && (m in refused <==> !Judgeable(setting, id, b, h, m))
    && (m in refused ==> refused[m] == MetricEntry(id, b, h, m))
  }

  method CompareMetric(setting: Setting, id: CaseId, b: Replicas, h: Replicas, metric: string,
                       ghost all: map<string, Row>, ghost refused: map<string, NotComparable>)
    returns (row: Option<Row>, entry: Option<NotComparable>)
    requires b.Keys * h.Keys != {}
    requires metric in AllMetrics(b, h) && Foretold(setting, id, b, h, metric, all, refused)
    ensures row == if metric in all then Some(all[metric]) else None
    ensures entry == if metric in refused then Some(refused[metric]) else None
  {
    row, entry := None, None;
    var ks := Paired(b, h);
    CarriedMetricHasAShape(b, h, metric);
    var shape := SeedShape(b, h, metric).value;
    var baseValues, headValues, missing := Collect(b, h, ks, metric, shape);
    if missing {
      entry := Some(NotComparable(OneMetric(id, metric), MetricMissing, Other));
      return;
    }
    var analysed := setting.judge(metric, shape.higherIsBetter, baseValues, headValues, setting.seed(id, metric));
    if analysed.Ok? {
      row := Some(Row(id, metric, shape.unit, shape.higherIsBetter, Erratic(b, h), false, analysed.value));
    } else {
      entry := Some(NotComparable(OneMetric(id, metric), RefusedByTheRule, Other));
    }
  }

  // ---- the whole case ----

  /** `rows` lists the rows of `all` for the metrics visited, each once. */
  ghost predicate Lists(rows: seq<Row>, all: map<string, Row>, visited: set<string>) {
    && DistinctMetrics(rows)
    && (forall i | 0 <= i < |rows| ::
          rows[i].metric in visited && rows[i].metric in all && rows[i] == all[rows[i].metric])
    && (forall m | m in visited && m in all :: exists i :: 0 <= i < |rows| && rows[i].metric == m)
  }

  ghost predicate ListsAll(rows: seq<Row>, all: map<string, Row>) {
    Lists(rows, all, all.Keys)
  }

  lemma ListsOneMore(rows: seq<Row>, all: map<string, Row>, visited: set<string>, metric: string)
    requires Lists(rows, all, visited) && metric !in visited
    requires metric in all ==> all[metric].metric == metric
    ensures Lists(if metric in all then rows + [all[metric]] else rows, all, visited + {metric})
  {
    var more := if metric in all then rows + [all[metric]] else rows;
    forall m | m in visited + {metric} && m in all
      ensures exists i :: 0 <= i < |more| && more[i].metric == m
    {
      if m == metric {
        assert more[|rows|].metric == m;
      } else {
        var i :| 0 <= i < |rows| && rows[i].metric == m;
        assert more[i].metric == m;
      }
    }
  }

  ghost function EntriesAt(all: map<string, NotComparable>, visited: set<string>): set<NotComparable> {
    set m | m in visited && m in all :: all[m]
  }

  lemma EntriesOneMore(all: map<string, NotComparable>, visited: set<string>, metric: string)
    ensures metric in all ==> EntriesAt(all, visited + {metric}) == EntriesAt(all, visited) + {all[metric]}
    ensures metric !in all ==> EntriesAt(all, visited + {metric}) == EntriesAt(all, visited)
  {
  }

  /** Pushes each metric's row, or its entry, onto what the cases before gave. */
  method CompareMetrics(setting: Setting, id: CaseId, b: Replicas, h: Replicas, metrics: set<string>,
                        rows0: seq<Row>, entries0: seq<NotComparable>,
                        ghost all: map<string, Row>, ghost refused: map<string, NotComparable>)
    returns (rows: seq<Row>, entries: seq<NotComparable>)
    requires b.Keys * h.Keys != {}
    requires forall m | m in metrics :: m in AllMetrics(b, h) && Foretold(setting, id, b, h, m, all, refused)
    ensures rows0 <= rows && Lists(rows[|rows0|..], all, metrics)
    ensures entries0 <= entries && Elements(entries[|entries0|..]) == EntriesAt(refused, metrics)
  {
    rows, entries := rows0, entries0;
    ghost var mine: seq<Row>, said: seq<NotComparable> := [], [];
    var left := metrics;
    Ends(metrics);
    while left != {}
      invariant left <= metrics
      invariant rows == rows0 + mine && Lists(mine, all, metrics - left)
      invariant entries == entries0 + said && Elements(said) == EntriesAt(refused, metrics - left)
    {
      var metric :| metric in left;
      ListsOneMore(mine, all, metrics - left, metric);
      EntriesOneMore(refused, metrics - left, metric);
      Remaining(metrics, left, metric);
      left := left - {metric};
      var row, entry := CompareMetric(setting, id, b, h, metric, all, refused);
      if row.Some? {
        PushOne(rows0, mine, row.value);
        rows, mine := rows + [row.value], mine + [row.value];
      }
      if entry.Some? {
        PushOne(entries0, said, entry.value);
        entries, said := entries + [entry.value], said + [entry.value];
      }
    }
    assert rows[|rows0|..] == mine && entries[|entries0|..] == said;
  }

  // ---- the case's rows, settled ----

  /** A metric's row after inheritance, given every row before it. */
  function SettledRow(raw: map<string, Row>, m: string): Row
    requires m in raw
  {
    var measured := DerivedFrom(m);
    if measured.Some? && measured.value in raw then TakeVerdict(raw[m], raw[measured.value]) else raw[m]
  }

  function SettledRows(raw: map<string, Row>): map<string, Row> {
    map m | m in raw :: SettledRow(raw, m)
  }

  /** The loop over a list of rows gives each metric its settled row. */
  lemma InheritedListsSettledRows(rows: seq<Row>, raw: map<string, Row>)
    requires ListsAll(rows, raw)
    ensures ListsAll(Inherited(rows), SettledRows(raw))
  {
    var out, settled := Inherited(rows), SettledRows(raw);
    forall i | 0 <= i < |rows|
      ensures out[i].metric == rows[i].metric && out[i] == SettledRow(raw, rows[i].metric)
    {
      SettledIsSettledRow(rows, raw, i);
    }
    forall m | m in raw
      ensures exists i :: 0 <= i < |out| && out[i].metric == m
    {
      var i :| 0 <= i < |rows| && rows[i].metric == m;
      assert out[i].metric == m;
    }
  }

  lemma SettledIsSettledRow(rows: seq<Row>, raw: map<string, Row>, i: nat)
    requires ListsAll(rows, raw) && i < |rows|
    ensures Settled(rows, i) == SettledRow(raw, rows[i].metric)
    ensures Settled(rows, i).metric == rows[i].metric
  {
    WallIsMeasured();
    var measured := DerivedFrom(rows[i].metric);
    if measured.Some? {
      var found := FindMetric(rows, measured.value);
      if found.Some? {
        assert rows[found.value].metric == measured.value;
      }
      assert measured.value in raw <==> found.Some?;
    }
  }

  /** A case's rows: each judgeable metric's row, settled, once the guards let
      the case through. */
  ghost function CaseRows(setting: Setting, id: CaseId, b: Replicas, h: Replicas): map<string, Row> {
    if !Reached(setting, id, b, h) then map[] else SettledRows(RawRows(setting, id, b, h))
  }

  ghost function CaseEntries(setting: Setting, id: CaseId, b: Replicas, h: Replicas): set<NotComparable> {
    if !Reached(setting, id, b, h) then GuardEntries(setting, id, b, h)
    else GuardEntries(setting, id, b, h) + EntriesAt(LeftOut(setting, id, b, h), AllMetrics(b, h))
  }

  lemma ComparingIsForetold(setting: Setting, id: CaseId, b: Replicas, h: Replicas, m: string)
    requires b.Keys * h.Keys != {} && m in AllMetrics(b, h)
    ensures Foretold(setting, id, b, h, m, RawRows(setting, id, b, h), LeftOut(setting, id, b, h))
  {
  }

  lemma ListsOnlyItsOwn(rows: seq<Row>, all: map<string, Row>, visited: set<string>)
    requires Lists(rows, all, visited) && all.Keys <= visited
    ensures ListsAll(rows, all)
  {
  }

  /** Reconciles this case's tail of the vector. */
  method Reconcile(rows0: seq<Row>, start: nat) returns (rows: seq<Row>)
    requires start <= |rows0|
    ensures rows == rows0[..start] + Inherited(rows0[start..])
  {
    var slice := new Row[|rows0|](i requires 0 <= i < |rows0| => rows0[i]);
    assert slice[..] == rows0;
    assert slice[..start] == rows0[..start] && slice[start..] == rows0[start..];
    InheritDerivedVerdicts(slice, start);
    rows := slice[..];
    assert rows == slice[..start] + slice[start..];
  }

  /** The metrics of a case that reached them, onto the vectors. */
  method CaseTable(setting: Setting, id: CaseId, b: Replicas, h: Replicas,
                   rows0: seq<Row>, entries0: seq<NotComparable>,
                   ghost raw: map<string, Row>, ghost refused: map<string, NotComparable>)
    returns (rows: seq<Row>, entries: seq<NotComparable>)
    requires b.Keys * h.Keys != {} && raw.Keys <= AllMetrics(b, h)
    requires forall m | m in AllMetrics(b, h) :: Foretold(setting, id, b, h, m, raw, refused)
    ensures rows0 <= rows && ListsAll(rows[|rows0|..], SettledRows(raw))
    ensures entries0 <= entries && Elements(entries[|entries0|..]) == EntriesAt(refused, AllMetrics(b, h))
  {
    var caseStart := |rows0|;
    rows, entries := CompareMetrics(setting, id, b, h, AllMetrics(b, h), rows0, entries0, raw, refused);
    ghost var mine := rows[caseStart..];
    ListsOnlyItsOwn(mine, raw, AllMetrics(b, h));
    InheritedListsSettledRows(mine, raw);
    rows := Reconcile(rows, caseStart);
    assert rows[caseStart..] == Inherited(mine);
  }

  /** The guards in order, each asked only of a case the ones before let
      through. */
  method Guards(setting: Setting, id: CaseId, b: Replicas, h: Replicas)
    returns (entries: seq<NotComparable>, reached: bool)
    ensures Elements(entries) == GuardEntries(setting, id, b, h)
    ensures reached == Reached(setting, id, b, h)
  {
    reached := false;
    var digest := DigestGate(setting, id, b, h);
    entries := Listed(digest);
    if !digest.passes {
      return;
    }
    var build := BuildGate(setting, id, b, h);
    ElementsOfBoth(entries, Listed(build));
    entries := entries + Listed(build);
    if !build.passes {
      return;
    }
    var iters := ItersGate(id, b, h);
    ElementsOfBoth(entries, Listed(iters));
    entries := entries + Listed(iters);
    if !iters.passes {
      return;
    }
    var pairing := PairingGate(id, b, h);
    ElementsOfBoth(entries, Listed(pairing));
    entries := entries + Listed(pairing);
    reached := pairing.passes;
  }

  function Listed(g: Gate): (s: seq<NotComparable>)
    ensures Elements(s) == Disclosed(g)
  {
    if g.entry.Some? then [g.entry.value] else []
  }

  /** One case, pushed onto the vectors of the cases before it. */
  method CompareCase(setting: Setting, id: CaseId, b: Replicas, h: Replicas,
                     rows0: seq<Row>, entries0: seq<NotComparable>)
    returns (rows: seq<Row>, entries: seq<NotComparable>)
    ensures rows0 <= rows && ListsAll(rows[|rows0|..], CaseRows(setting, id, b, h))
    ensures entries0 <= entries && Elements(entries[|entries0|..]) == CaseEntries(setting, id, b, h)
  {
    var first, reached := Guards(setting, id, b, h);
    rows, entries := rows0, entries0 + first;
    assert rows[|rows0|..] == [] && entries[|entries0|..] == first;
    if reached {
      forall m | m in AllMetrics(b, h)
        ensures Foretold(setting, id, b, h, m, RawRows(setting, id, b, h), LeftOut(setting, id, b, h))
      {
        ComparingIsForetold(setting, id, b, h, m);
      }
      ghost var before := entries;
      rows, entries :=
        CaseTable(setting, id, b, h, rows0, entries, RawRows(setting, id, b, h), LeftOut(setting, id, b, h));
      ElementsOfBoth(first, entries[|before|..]);
      TailAfterBoth(entries0, first, entries);
    }
  }
}
