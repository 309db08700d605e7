/** What a successful comparison reports: every measured metric accounted for,
    every row's sample, and nothing that depends on how a leg was written down. */
module ReportLaws {
  import opened Cases
  import opened Wrappers
  import opened Decision
  import opened Inheritance
  import opened Records
  import opened CaseCompare
  import opened Compare
  import opened GuardLaws

  ghost function Outcome(setting: Setting, base: Leg, head: Leg): Comparison {
    Compared(setting, LegsOf(base, head))
  }

  /** The case has a row for this metric. */
  ghost predicate Found(c: Comparison, id: CaseId, m: string) {
    id in c.rows && m in c.rows[id]
  }

  ghost predicate Discloses(c: Comparison, id: CaseId, what: What) {
    id in c.entries && exists e :: e in c.entries[id] && e.what == what
  }

  /** A record of this leg that was measured, for this case and replicate. */
  ghost predicate Measured(leg: Leg, r: Record, id: CaseId, k: nat) {
    r in leg.records && !r.priming && r.id == id && r.replicate == k
  }

  lemma GroupedIffMeasured(leg: Leg, r: Record, id: CaseId, k: nat)
    requires UniqueKeys(leg.records)
    ensures var reps := Held(GroupOf(leg.records), id);
      Measured(leg, r, id, k) <==> k in reps && reps[k] == r
  {
    var groups := GroupOf(leg.records);
    if Measured(leg, r, id, k) {
      GroupHoldsEveryRecord(leg.records, r);
    }
    var reps := Held(groups, id);
    if k in reps && reps[k] == r {
      GroupIsWellGrouped(leg.records);
      assert Grouped(groups, r);
      GroupHoldsOnlyRecords(leg.records, r);
    }
  }

  // ---- nothing is dropped ----

  /** A case kept from its metrics says so. */
  lemma UnreachedCaseIsDisclosed(setting: Setting, id: CaseId, b: Replicas, h: Replicas)
    requires b != map[] && !Reached(setting, id, b, h)
    ensures exists e :: e in GuardEntries(setting, id, b, h) && e.what == WholeCase(id)
  {
    var k :| k in b;
    var unpaired := b.Keys + h.Keys - b.Keys * h.Keys;
    assert b.Keys * h.Keys == {} ==> k in unpaired;
    var gate :=
      if !DigestGate(setting, id, b, h).passes then DigestGate(setting, id, b, h)
      else if !BuildGate(setting, id, b, h).passes then BuildGate(setting, id, b, h)
      else if !ItersGate(id, b, h).passes then ItersGate(id, b, h)
      else PairingGate(id, b, h);
    assert gate.entry.Some? && gate.entry.value in GuardEntries(setting, id, b, h);
  }

  lemma GuardsNameOnlyTheCase(setting: Setting, id: CaseId, b: Replicas, h: Replicas)
    ensures forall e | e in GuardEntries(setting, id, b, h) :: e.what == WholeCase(id)
  {
    GatesNameTheCase(setting, id, b, h);
    var digest, build, iters, pairing :=
      DigestGate(setting, id, b, h), BuildGate(setting, id, b, h), ItersGate(id, b, h), PairingGate(id, b, h);
    forall e | e in DisclosedThrough(digest, build, iters, pairing)
      ensures e.what == WholeCase(id)
    {
      EntryComesFromAGate(digest, build, iters, pairing, e);
    }
  }

  ghost predicate NamesTheCase(gate: Gate, id: CaseId) {
    gate.entry.Some? ==> gate.entry.value.what == WholeCase(id)
  }

  lemma GatesNameTheCase(setting: Setting, id: CaseId, b: Replicas, h: Replicas)
    ensures NamesTheCase(DigestGate(setting, id, b, h), id) && NamesTheCase(BuildGate(setting, id, b, h), id)
    ensures NamesTheCase(ItersGate(id, b, h), id) && NamesTheCase(PairingGate(id, b, h), id)
  {
  }

  /** A case that reached its metrics: a row for each one judged, an entry for
      each one carried and not judged. */
  lemma ReachedCaseNamesItsMetrics(setting: Setting, id: CaseId, b: Replicas, h: Replicas, m: string)
    requires Reached(setting, id, b, h)
    ensures m in CaseRows(setting, id, b, h) <==> m in AllMetrics(b, h) && Judgeable(setting, id, b, h, m)
    ensures (exists e :: e in CaseEntries(setting, id, b, h) && e.what == OneMetric(id, m))
       <==> m in AllMetrics(b, h) && !Judgeable(setting, id, b, h, m)
  {
    GuardsNameOnlyTheCase(setting, id, b, h);
    var refused := LeftOut(setting, id, b, h);
    if m in refused {
      assert refused[m] in EntriesAt(refused, AllMetrics(b, h));
    }
  }

  lemma SharedCaseIsAccountedFor(setting: Setting, legs: Legs, id: CaseId, m: string)
    requires id in legs.Shared() && legs.base[id] != map[]
    requires m in AllMetrics(legs.base[id], legs.head[id])
    ensures Accounted(Compared(setting, legs), id, m)
  {
    var c, b, h := Compared(setting, legs), legs.base[id], legs.head[id];
    assert c.rows[id] == CaseRows(setting, id, b, h) && c.entries[id] == CaseEntries(setting, id, b, h);
    if Reached(setting, id, b, h) {
      ReachedCaseNamesItsMetrics(setting, id, b, h, m);
    } else {
      GuardsNameOnlyTheCase(setting, id, b, h);
      UnreachedCaseIsDisclosed(setting, id, b, h);
    }
  }

  lemma LoneCaseIsDisclosed(setting: Setting, legs: Legs, id: CaseId, m: string)
    requires id in legs.All() && id !in legs.Shared()
    ensures Accounted(Compared(setting, legs), id, m)
  {
    var c := Compared(setting, legs);
    assert c.entries[id] == {NotComparable(WholeCase(id), PresentOnOneLeg, Other)};
    assert NotComparable(WholeCase(id), PresentOnOneLeg, Other) in c.entries[id];
  }

  /** A row and no entry, an entry and no row, or a disclosed case without
      either for any metric. */
  ghost predicate Accounted(c: Comparison, id: CaseId, m: string) {
    || (Found(c, id, m) && !Discloses(c, id, OneMetric(id, m)))
    || (!Found(c, id, m) && Discloses(c, id, OneMetric(id, m)))
    || (Discloses(c, id, WholeCase(id)) && forall n :: !Found(c, id, n) && !Discloses(c, id, OneMetric(id, n)))
  }

  lemma MetricIsAccountedFor(setting: Setting, base: Leg, head: Leg, r: Record, m: string)
    requires UniqueKeys(base.records) && UniqueKeys(head.records)
    requires (r in base.records || r in head.records) && !r.priming && m in r.metrics
    ensures Accounted(Outcome(setting, base, head), r.id, m)
  {
    var legs, id := LegsOf(base, head), r.id;
    GroupedIffMeasured(base, r, id, r.replicate);
    GroupedIffMeasured(head, r, id, r.replicate);
    if id in legs.Shared() {
      GroupIsWellGrouped(base.records);
      assert m in AllMetrics(legs.base[id], legs.head[id]);
      SharedCaseIsAccountedFor(setting, legs, id, m);
    } else {
      LoneCaseIsDisclosed(setting, legs, id, m);
    }
  }

  // ---- in the lists reported ----

  ghost predicate Says(out: Report, what: What) {
    exists e :: e in out.notComparable && e.what == what
  }

  /** One place in the list holds this cell. */
  ghost predicate OnlyRow(out: Report, id: CaseId, m: string, i: nat) {
    && i < |out.rows| && CellOf(out.rows[i]) == (id, m)
    && forall j | 0 <= j < |out.rows| && CellOf(out.rows[j]) == (id, m) :: j == i
  }

  lemma RowIffFound(out: Report, c: Comparison, id: CaseId, m: string)
    requires Holds(out, c)
    ensures HasRow(out.rows, id, m) <==> Found(c, id, m)
    ensures HasRow(out.rows, id, m) <==> exists i :: OnlyRow(out, id, m, i)
  {
    if i :| 0 <= i < |out.rows| && CellOf(out.rows[i]) == (id, m) {
      assert InTable(c.rows, out.rows[i]);
      assert OnlyRow(out, id, m, i);
    }
  }

  lemma EntriesNameTheirCase(setting: Setting, legs: Legs, id: CaseId)
    ensures forall e | e in EntriesOf(setting, legs, id) :: e.what.id == id
  {
    GuardsNameOnlyTheCase(setting, id, Held(legs.base, id), Held(legs.head, id));
  }

  lemma SaysIffDiscloses(out: Report, setting: Setting, legs: Legs, what: What)
    requires Holds(out, Compared(setting, legs))
    ensures Says(out, what) <==> Discloses(Compared(setting, legs), what.id, what)
  {
    var c := Compared(setting, legs);
    assert forall e :: e in out.notComparable <==> e in AllEntries(c.entries);
    if e :| e in out.notComparable && e.what == what {
      var id :| id in c.entries && e in c.entries[id];
      EntriesNameTheirCase(setting, legs, id);
    }
  }

  /** One place in the list of rows and no entry, an entry and no row, or a
      disclosed case without either for any metric. */
  ghost predicate AccountedIn(out: Report, id: CaseId, m: string) {
    || ((exists i :: OnlyRow(out, id, m, i)) && !Says(out, OneMetric(id, m)))
    || (!HasRow(out.rows, id, m) && Says(out, OneMetric(id, m)))
    || (Says(out, WholeCase(id)) && forall n :: !HasRow(out.rows, id, n) && !Says(out, OneMetric(id, n)))
  }

  /** Every metric of every measured record of either leg is accounted for in the
      lists reported, pushed, sorted and freed of repeats. */
  lemma NothingIsDropped(
    order: Orders, setting: Setting, base: Leg, head: Leg, out: Report, r: Record, m: string)
    requires UniqueKeys(base.records) && UniqueKeys(head.records)
    requires LaysOut(order, out, Outcome(setting, base, head))
    requires (r in base.records || r in head.records) && !r.priming && m in r.metrics
    ensures AccountedIn(out, r.id, m)
  {
    var c, id := Outcome(setting, base, head), r.id;
    MetricIsAccountedFor(setting, base, head, r, m);
    forall n
      ensures HasRow(out.rows, id, n) <==> Found(c, id, n)
      ensures HasRow(out.rows, id, n) <==> exists i :: OnlyRow(out, id, n, i)
      ensures Says(out, OneMetric(id, n)) <==> Discloses(c, id, OneMetric(id, n))
    {
      RowIffFound(out, c, id, n);
      SaysIffDiscloses(out, setting, LegsOf(base, head), OneMetric(id, n));
    }
    SaysIffDiscloses(out, setting, LegsOf(base, head), WholeCase(id));
  }

  /** A leg holds a measured record of this case carrying this metric. */
  ghost predicate Carries(leg: Leg, id: CaseId, m: string) {
    exists r :: r in leg.records && !r.priming && r.id == id && m in r.metrics
  }

  lemma NamedMetricIsCarried(leg: Leg, id: CaseId, m: string)
    requires UniqueKeys(leg.records) && m in MetricNames(Held(GroupOf(leg.records), id))
    ensures Carries(leg, id, m)
  {
    var reps := Held(GroupOf(leg.records), id);
    var k :| k in reps && m in reps[k].metrics;
    GroupedIffMeasured(leg, reps[k], id, k);
  }

  /** Nothing is reported of a metric no measured record carries. */
  lemma NothingIsInvented(
    order: Orders, setting: Setting, base: Leg, head: Leg, out: Report, id: CaseId, m: string)
    requires UniqueKeys(base.records) && UniqueKeys(head.records)
    requires LaysOut(order, out, Outcome(setting, base, head))
    requires HasRow(out.rows, id, m) || Says(out, OneMetric(id, m))
    ensures Carries(base, id, m) || Carries(head, id, m)
  {
    RowIffFound(out, Outcome(setting, base, head), id, m);
    SaysIffDiscloses(out, setting, LegsOf(base, head), OneMetric(id, m));
    FoundIsCarried(setting, base, head, id, m);
  }

  lemma FoundIsCarried(setting: Setting, base: Leg, head: Leg, id: CaseId, m: string)
    requires UniqueKeys(base.records) && UniqueKeys(head.records)
    requires var c := Outcome(setting, base, head); Found(c, id, m) || Discloses(c, id, OneMetric(id, m))
    ensures Carries(base, id, m) || Carries(head, id, m)
  {
    var legs := LegsOf(base, head);
    var b, h := Held(legs.base, id), Held(legs.head, id);
    GuardsNameOnlyTheCase(setting, id, b, h);
    assert Reached(setting, id, b, h);
    ReachedCaseNamesItsMetrics(setting, id, b, h, m);
    if m in MetricNames(b) {
      NamedMetricIsCarried(base, id, m);
    } else {
      NamedMetricIsCarried(head, id, m);
    }
  }

  // ---- why a metric is left out ----

  /** The record carries the metric in this unit and direction. */
  predicate InShape(r: Record, m: string, shape: Shape) {
    m in r.metrics && r.metrics[m].unit == shape.unit && r.metrics[m].higherIsBetter == shape.higherIsBetter
  }

  /** Replicate `k` is the first of these to carry the metric. */
  ghost predicate FirstToCarry(reps: Replicas, m: string, k: nat) {
    k in reps && m in reps[k].metrics && forall j | j in reps && j < k :: m !in reps[j].metrics
  }

  /** The shape of the first record to carry the metric, the base leg first. */
  ghost predicate SeededBy(b: Replicas, h: Replicas, m: string, shape: Shape) {
    || (exists k :: FirstToCarry(b, m, k) && InShape(b[k], m, shape))
    || ((forall k | k in b :: m !in b[k].metrics) && exists k :: FirstToCarry(h, m, k) && InShape(h[k], m, shape))
  }

  lemma {:induction false} FirstShapeIsTheFirst(reps: Replicas, ks: seq<nat>, m: string) returns (i: nat)
    requires forall k | k in ks :: k in reps
    requires FirstShape(reps, ks, m).Some?
    ensures i < |ks| && InShape(reps[ks[i]], m, FirstShape(reps, ks, m).value)
    ensures forall j | 0 <= j < i :: m !in reps[ks[j]].metrics
  {
    i := 0;
    if m !in reps[ks[0]].metrics {
      var rest := FirstShapeIsTheFirst(reps, ks[1..], m);
      i := rest + 1;
    }
  }

  lemma FirstIsFirstToCarry(reps: Replicas, ks: seq<nat>, m: string) returns (k: nat)
    requires Increasing(ks) && forall k :: k in ks <==> k in reps
    requires FirstShape(reps, ks, m).Some?
    ensures FirstToCarry(reps, m, k) && InShape(reps[k], m, FirstShape(reps, ks, m).value)
  {
    var i := FirstShapeIsTheFirst(reps, ks, m);
    k := ks[i];
    forall j | j in reps && j < k
      ensures m !in reps[j].metrics
    {
      assert j in ks;
      var at :| 0 <= at < |ks| && ks[at] == j;
      assert at < i;
    }
  }

  lemma SeedShapeIsSeeded(b: Replicas, h: Replicas, m: string)
    requires SeedShape(b, h, m).Some?
    ensures SeededBy(b, h, m, SeedShape(b, h, m).value)
  {
    FirstShapeExists(b, Ascending(b.Keys), m);
    if FirstShape(b, Ascending(b.Keys), m).Some? {
      var k := FirstIsFirstToCarry(b, Ascending(b.Keys), m);
    } else {
      var k := FirstIsFirstToCarry(h, Ascending(h.Keys), m);
    }
  }

  lemma SeedIsUnique(b: Replicas, h: Replicas, m: string, x: Shape, y: Shape)
    requires SeededBy(b, h, m, x) && SeededBy(b, h, m, y)
    ensures x == y
  {
  }

  /** Every replicate of both legs carries the metric in this shape. */
  ghost predicate WholeIn(b: Replicas, h: Replicas, m: string, shape: Shape) {
    forall k | k in b && k in h :: InShape(b[k], m, shape) && InShape(h[k], m, shape)
  }

  ghost predicate WholeInItsShape(b: Replicas, h: Replicas, m: string) {
    exists shape :: SeededBy(b, h, m, shape) && WholeIn(b, h, m, shape)
  }

  lemma WholeIffIn(b: Replicas, h: Replicas, m: string, shape: Shape)
    requires SeedShape(b, h, m) == Some(shape)
    ensures Whole(b, h, m) <==> WholeIn(b, h, m, shape)
  {
    var ks := Paired(b, h);
    assert CarriedBy(b, ks, m, shape) <==> forall k | k in b && k in h :: InShape(b[k], m, shape);
    assert CarriedBy(h, ks, m, shape) <==> forall k | k in b && k in h :: InShape(h[k], m, shape);
  }

  lemma WholeIffInItsShape(b: Replicas, h: Replicas, m: string)
    requires m in AllMetrics(b, h)
    ensures Whole(b, h, m) <==> WholeInItsShape(b, h, m)
  {
    var shape: Shape;
    assert SeedShape(b, h, m).Some? by {
      CarriedMetricHasAShape(b, h, m);
    }
    shape := SeedShape(b, h, m).value;
    assert SeededBy(b, h, m, shape) by {
      SeedShapeIsSeeded(b, h, m);
    }
    WholeIffIn(b, h, m, shape);
    OnlyItsSeed(b, h, m, shape);
  }

  lemma OnlyItsSeed(b: Replicas, h: Replicas, m: string, shape: Shape)
    requires SeededBy(b, h, m, shape)
    ensures WholeInItsShape(b, h, m) <==> WholeIn(b, h, m, shape)
  {
    if other :| SeededBy(b, h, m, other) && WholeIn(b, h, m, other) {
      SeedIsUnique(b, h, m, shape, other);
    }
  }

  /** A metric of a compared case is left out as missing exactly when some common
      replicate does not carry it in the shape of the first record that does, and
      as refused by the rule exactly when they all do and the rule refuses their
      values. */
  lemma MetricEntriesAreTrue(setting: Setting, id: CaseId, b: Replicas, h: Replicas, m: string, e: NotComparable)
    requires Reached(setting, id, b, h) && e in CaseEntries(setting, id, b, h) && e.what == OneMetric(id, m)
    ensures e.cause == Other && m in AllMetrics(b, h)
    ensures e.why.MetricMissing? <==> !WholeInItsShape(b, h, m)
    ensures !e.why.MetricMissing? ==>
      e.why.RefusedByTheRule? && Whole(b, h, m) && Judged(setting, id, b, h, m).Err?
  {
    GuardsNameOnlyTheCase(setting, id, b, h);
    WholeIffInItsShape(b, h, m);
  }

  // ---- how a leg was written down ----

  /** The same leg: one directory, one provenance, the same measured records. */
  ghost predicate SameRun(leg: Leg, other: Leg) {
    && leg.dir == other.dir && leg.provenance == other.provenance
    && UniqueKeys(leg.records) && UniqueKeys(other.records) && SameMeasured(leg.records, other.records)
  }

  /** Neither the lists reported nor the refusal depends on the order records
      were written in, or on any priming record. */
  lemma ReportIgnoresOrderAndPriming(
    order: Orders, setting: Setting, base: Leg, head: Leg, base': Leg, head': Leg, allow: set<string>,
    out: Report, out': Report)
    requires order.Valid() && SameRun(base, base') && SameRun(head, head')
    requires LaysOut(order, out, Outcome(setting, base, head)) && LaysOut(order, out', Outcome(setting, base', head'))
    ensures out == out'
    ensures RefusalOf(setting, base, head, allow) == RefusalOf(setting, base', head', allow)
  {
    SameLegsOf(base, head, base', head');
    SameRefusal(setting, base, head, base', head', allow);
    OneReportPerComparison(order, Outcome(setting, base, head), out, out');
  }

  lemma SameRefusal(setting: Setting, base: Leg, head: Leg, base': Leg, head': Leg, allow: set<string>)
    requires base.dir == base'.dir && base.provenance == base'.provenance
    requires head.dir == head'.dir && head.provenance == head'.provenance && LegsOf(base, head) == LegsOf(base', head')
    ensures RefusalOf(setting, base, head, allow) == RefusalOf(setting, base', head', allow)
  {
    assert GuardLegs(base, head) == GuardLegs(base', head');
  }

  lemma SameLegsOf(base: Leg, head: Leg, base': Leg, head': Leg)
    requires SameRun(base, base') && SameRun(head, head')
    ensures LegsOf(base, head) == LegsOf(base', head')
  {
    GroupingIgnoresOrderAndPriming(base.records, base'.records);
    GroupingIgnoresOrderAndPriming(head.records, head'.records);
  }

  // ---- where a row comes from ----

  /** The leg's record of this replicate holds this metric. */
  ghost predicate Recorded(leg: Leg, id: CaseId, m: string, k: nat, metric: Metric) {
    exists r :: Measured(leg, r, id, k) && m in r.metrics && r.metrics[m] == metric
  }

  /** A sample: what is recorded at each replicate of `ks`, all of one shape. */
  ghost predicate IsSample(leg: Leg, id: CaseId, m: string, ks: seq<nat>, values: seq<Value>, shape: Shape) {
    |values| == |ks| &&
    forall i | 0 <= i < |ks| :: Recorded(leg, id, m, ks[i], Metric(values[i], shape.unit, shape.higherIsBetter))
  }

  ghost predicate MarkedErratic(leg: Leg, id: CaseId, k: nat) {
    exists r :: Measured(leg, r, id, k) && r.erratic
  }

  ghost predicate TakenOnBoth(base: Leg, head: Leg, id: CaseId, k: nat) {
    && (exists r :: Measured(base, r, id, k))
    && (exists r :: Measured(head, r, id, k))
  }

  ghost predicate Increasing(ks: seq<nat>) {
    forall i, j | 0 <= i < j < |ks| :: ks[i] < ks[j]
  }

  lemma HeldIffMeasured(leg: Leg, id: CaseId, k: nat)
    requires UniqueKeys(leg.records)
    ensures k in Held(GroupOf(leg.records), id) <==> exists r :: Measured(leg, r, id, k)
  {
    var reps := Held(GroupOf(leg.records), id);
    if k in reps {
      GroupedIffMeasured(leg, reps[k], id, k);
    }
    if exists r :: Measured(leg, r, id, k) {
      var r :| Measured(leg, r, id, k);
      GroupedIffMeasured(leg, r, id, k);
    }
  }

  lemma ValuesAreASample(leg: Leg, id: CaseId, m: string, ks: seq<nat>, shape: Shape)
    requires UniqueKeys(leg.records)
    requires forall k | k in ks :: k in Held(GroupOf(leg.records), id)
    requires CarriedBy(Held(GroupOf(leg.records), id), ks, m, shape)
    ensures IsSample(leg, id, m, ks, Values(Held(GroupOf(leg.records), id), ks, m), shape)
  {
    var reps := Held(GroupOf(leg.records), id);
    forall i | 0 <= i < |ks|
      ensures Recorded(leg, id, m, ks[i], Metric(Values(reps, ks, m)[i], shape.unit, shape.higherIsBetter))
    {
      assert ks[i] in ks;
      GroupedIffMeasured(leg, reps[ks[i]], id, ks[i]);
    }
  }

  lemma ErraticIffMarked(leg: Leg, id: CaseId, k: nat)
    requires UniqueKeys(leg.records) && k in Held(GroupOf(leg.records), id)
    ensures Held(GroupOf(leg.records), id)[k].erratic <==> MarkedErratic(leg, id, k)
  {
    var reps := Held(GroupOf(leg.records), id);
    GroupedIffMeasured(leg, reps[k], id, k);
    if r :| Measured(leg, r, id, k) && r.erratic {
      GroupedIffMeasured(leg, r, id, k);
    }
  }

  /** The row's own numbers, the verdict aside. */
  ghost predicate SameNumbers(a: Analysis, b: Analysis) {
    a == b.(verdict := a.verdict, needed := a.needed)
  }

  /** A row's numbers are the rule's on the paired values, its shape the one
      every paired record carries. */
  lemma RowIsJudgedOnPairedValues(setting: Setting, id: CaseId, b: Replicas, h: Replicas, m: string)
    requires m in CaseRows(setting, id, b, h)
    ensures b.Keys * h.Keys != {} && Whole(b, h, m)
    ensures var row, ks := CaseRows(setting, id, b, h)[m], Paired(b, h);
      var judged := setting.judge(m, row.higherIsBetter, Values(b, ks, m), Values(h, ks, m), setting.seed(id, m));
      && SeedShape(b, h, m) == Some(Shape(row.unit, row.higherIsBetter)) && row.erratic == Erratic(b, h)
      && judged.Ok? && SameNumbers(row.analysis, judged.value) && (!row.inherited ==> row.analysis == judged.value)
  {
  }

  lemma PairedIffTakenOnBoth(base: Leg, head: Leg, id: CaseId, k: nat)
    requires UniqueKeys(base.records) && UniqueKeys(head.records)
    ensures k in Paired(Held(GroupOf(base.records), id), Held(GroupOf(head.records), id))
       <==> TakenOnBoth(base, head, id, k)
  {
    HeldIffMeasured(base, id, k);
    HeldIffMeasured(head, id, k);
  }

  /** Every row's sample is its case's records at exactly the replicates measured
      on both legs, in order and all of the row's unit and direction; its numbers
      are the rule's on that sample, and it is erratic exactly when either leg's
      first of those records says so. */
  lemma RowSampleIsTheCommonReplicates(setting: Setting, base: Leg, head: Leg, out: Report, row: Row)
    returns (ks: seq<nat>, bs: seq<Value>, hs: seq<Value>)
    requires UniqueKeys(base.records) && UniqueKeys(head.records)
    requires Holds(out, Outcome(setting, base, head)) && row in out.rows
    ensures Increasing(ks) && ks != [] && forall k :: k in ks <==> TakenOnBoth(base, head, row.id, k)
    ensures var shape := Shape(row.unit, row.higherIsBetter);
      && IsSample(base, row.id, row.metric, ks, bs, shape) && IsSample(head, row.id, row.metric, ks, hs, shape)
      && (row.erratic <==> MarkedErratic(base, row.id, ks[0]) || MarkedErratic(head, row.id, ks[0]))
    ensures var judged := setting.judge(row.metric, row.higherIsBetter, bs, hs, setting.seed(row.id, row.metric));
      judged.Ok? && SameNumbers(row.analysis, judged.value) && (!row.inherited ==> row.analysis == judged.value)
  {
    var id, m := row.id, row.metric;
    assert InTable(Outcome(setting, base, head).rows, row);
    var b, h := Held(GroupOf(base.records), id), Held(GroupOf(head.records), id);
    RowIsJudgedOnPairedValues(setting, id, b, h, m);
    ks := Paired(b, h);
    bs, hs := Values(b, ks, m), Values(h, ks, m);
    PairedIncreases(b, h);
    forall k
      ensures k in ks <==> TakenOnBoth(base, head, id, k)
    {
      PairedIffTakenOnBoth(base, head, id, k);
    }
    var shape := SeedShape(b, h, m).value;
    ValuesAreASample(base, id, m, ks, shape);
    ValuesAreASample(head, id, m, ks, shape);
    assert ks[0] in ks;
    ErraticIffMarked(base, id, ks[0]);
    ErraticIffMarked(head, id, ks[0]);
  }

  lemma PairedIncreases(b: Replicas, h: Replicas)
    ensures Increasing(Paired(b, h))
    ensures b.Keys * h.Keys != {} ==> Paired(b, h) != []
  {
  }

  /** Every row's case fits: constant corpus, build and count within each leg,
      and between the legs what the axis asks or what was waived. */
  lemma RowsComeFromFitCases(
    setting: Setting, base: Leg, head: Leg, out: Report, row: Row, x: Record, y: Record)
    requires UniqueKeys(base.records) && UniqueKeys(head.records)
    requires Holds(out, Outcome(setting, base, head)) && row in out.rows
    requires Measured(base, x, row.id, x.replicate) && Measured(head, y, row.id, y.replicate)
    ensures forall r: Record | Measured(base, r, row.id, r.replicate) ::
      r.corpusDigest == x.corpusDigest && r.buildDigest == x.buildDigest && r.iters == x.iters
    ensures forall r: Record | Measured(head, r, row.id, r.replicate) ::
      r.corpusDigest == y.corpusDigest && r.buildDigest == y.buildDigest && r.iters == x.iters
    ensures setting.allowDigest || x.corpusDigest == y.corpusDigest
    ensures setting.allowBuild || RightBuilds(setting.axis, x.buildDigest, y.buildDigest)
  {
    var id := row.id;
    assert InTable(Outcome(setting, base, head).rows, row);
    var legs := LegsOf(base, head);
    var b, h := Held(legs.base, id), Held(legs.head, id);
    GroupedIffMeasured(base, x, id, x.replicate);
    GroupedIffMeasured(head, y, id, y.replicate);
    ReachedIffFit(setting, id, b, h, x.replicate, y.replicate);
    forall r: Record | Measured(base, r, id, r.replicate)
      ensures r.replicate in b && b[r.replicate] == r
    {
      GroupedIffMeasured(base, r, id, r.replicate);
    }
    forall r: Record | Measured(head, r, id, r.replicate)
      ensures r.replicate in h && h[r.replicate] == r
    {
      GroupedIffMeasured(head, r, id, r.replicate);
    }
  }
}
