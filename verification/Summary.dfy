/** What a report says of its rows: the classification, the sentence, the
    shortfall and the replicate count it advises. */
module Summary {
  import opened Cases
  import opened Wrappers
  import opened LittleEndian
  import opened Sets
  import opened TQuantile
  import opened Replicates
  import opened Decision
  import opened Inheritance
  import opened Records
  import opened CaseCompare
  import opened Compare
  import Schedule

  /** The places of the rows that are findings. */
  function Significant(rows: seq<Row>): set<nat> {
    set i | 0 <= i < |rows| && rows[i].IsFinding()
  }

  function Unjudged(rows: seq<Row>): set<nat> {
    set i | 0 <= i < |rows| && !rows[i].analysis.verdict.IsJudged()
  }

  /** The unjudged rows a count could settle. */
  function Settleable(rows: seq<Row>): set<nat> {
    set i | 0 <= i < |rows| && !rows[i].analysis.verdict.IsJudged() && !rows[i].erratic
  }

  predicate NamesACount(rows: seq<Row>, i: nat) {
    i < |rows| && rows[i].analysis.needed.Some?
  }

  predicate NamesNone(rows: seq<Row>, i: nat) {
    i < |rows| && rows[i].analysis.needed.None?
  }

  function CountsNamed(rows: seq<Row>): set<nat> {
    set i | i in Settleable(rows) && NamesACount(rows, i) :: rows[i].analysis.needed.value
  }

  function Largest(s: set<nat>): (r: Option<nat>)
    ensures r.None? <==> s == {}
    ensures r.Some? ==> r.value in s && forall x | x in s :: x <= r.value
  {
    if s == {} then None
    else
      var ks := Ascending(s);
      LastIsLargest(s);
      Some(ks[|ks| - 1])
  }

  lemma LastIsLargest(s: set<nat>)
    requires s != {}
    ensures var ks := Ascending(s); ks != [] && ks[|ks| - 1] in s && forall x | x in s :: x <= ks[|ks| - 1]
  {
    var ks := Ascending(s);
    var y :| y in s;
    assert y in ks;
    assert ks[|ks| - 1] in ks;
    forall x | x in s
      ensures x <= ks[|ks| - 1]
    {
      LastIsAtLeast(ks, x);
    }
  }

  lemma LastIsAtLeast(ks: seq<nat>, x: nat)
    requires x in ks && forall i, j | 0 <= i < j < |ks| :: ks[i] < ks[j]
    ensures x <= ks[|ks| - 1]
  {
    var i :| 0 <= i < |ks| && ks[i] == x;
    assert i == |ks| - 1 || ks[i] < ks[|ks| - 1];
  }

  type Needed = (Option<nat>, bool)

  /** The largest count asked for, and whether any row asks for more than a
      count can give. */
  function ReplicatesNeeded(rows: seq<Row>): Needed {
    (Largest(CountsNamed(rows)), exists i :: i in Settleable(rows) && NamesNone(rows, i))
  }

  datatype Summary =
    | NothingComparable
    | NothingJudged(unjudged: nat, total: nat, needed: Needed)
    | NoneCleared
    | Findings

  function SummaryOf(rows: seq<Row>): Summary {
    if rows == [] then NothingComparable
    else if !exists i :: 0 <= i < |rows| && !rows[i].erratic && rows[i].analysis.verdict.IsJudged() then
      NothingJudged(|Unjudged(rows)|, |rows|, ReplicatesNeeded(rows))
    else if Significant(rows) == {} then NoneCleared
    else Findings
  }

  datatype Advice = Rerun(replicates: nat, pastTheRest: bool) | OutOfReach | Silent

  function AdviceFor(needed: Needed): Advice {
    if needed.0.Some? then Rerun(needed.0.value, needed.1) else if needed.1 then OutOfReach else Silent
  }

  datatype Sentence =
    | NoMetricComparable
    | EveryCaseErratic
    | RuleNotApplied(total: nat, advice: Advice)
    | RuleNotAppliedToSome(unjudged: nat, total: nat, advice: Advice)
    | NothingCleared

  function SentenceOf(summary: Summary): Option<Sentence> {
    match summary
    case NothingComparable => Some(NoMetricComparable)
    case NothingJudged(unjudged, total, needed) =>
      if unjudged == 0 then Some(EveryCaseErratic)
      else if unjudged == total then Some(RuleNotApplied(total, AdviceFor(needed)))
      else Some(RuleNotAppliedToSome(unjudged, total, AdviceFor(needed)))
    case NoneCleared => Some(NothingCleared)
    case Findings => None
  }

  datatype Shortfall = Shortfall(unjudged: nat, total: nat, advice: Advice)

  function ShortfallOf(rows: seq<Row>, summary: Summary): Option<Shortfall> {
    if !summary.NoneCleared? && !summary.Findings? then None
    else if |Unjudged(rows)| > 0 then Some(Shortfall(|Unjudged(rows)|, |rows|, AdviceFor(ReplicatesNeeded(rows))))
    else None
  }

  // ---- what the words say ----

  /** The sentence admits rows the rule was not applied to. */
  predicate Admits(s: Option<Sentence>, unjudged: nat, total: nat, advice: Advice) {
    && s.Some?
    && (|| s.value == RuleNotAppliedToSome(unjudged, total, advice)
        || (unjudged == total && s.value == RuleNotApplied(total, advice)))
  }

  /** Rows the rule was not applied to are stated once: by the sentence or by the
      shortfall, with their number and one advice, and by neither when there are
      none. */
  lemma ShortfallIsStatedOnce(rows: seq<Row>)
    ensures var summary, unjudged, total := SummaryOf(rows), |Unjudged(rows)|, |rows|;
      var advice := AdviceFor(ReplicatesNeeded(rows));
      var said, added := SentenceOf(summary), ShortfallOf(rows, summary);
      && (unjudged > 0 ==>
            if Admits(said, unjudged, total, advice) then added.None?
            else added == Some(Shortfall(unjudged, total, advice)))
      && (unjudged == 0 ==>
            added.None? && (said.Some? ==> !said.value.RuleNotApplied? && !said.value.RuleNotAppliedToSome?))
  {
    WhatASummaryHolds(rows);
  }

  lemma WhatASummaryHolds(rows: seq<Row>)
    ensures SummaryOf(rows).NothingComparable? ==> |Unjudged(rows)| == 0
    ensures SummaryOf(rows).NothingJudged? ==>
      SummaryOf(rows) == NothingJudged(|Unjudged(rows)|, |rows|, ReplicatesNeeded(rows))
  {
    if rows == [] {
      assert Unjudged(rows) == {};
    }
  }

  /** No advice is given exactly when every unjudged row is erratic. */
  lemma SilentIffNothingToSettle(rows: seq<Row>)
    ensures AdviceFor(ReplicatesNeeded(rows)).Silent? <==> Settleable(rows) == {}
  {
    if Settleable(rows) != {} {
      var i :| i in Settleable(rows);
      if rows[i].analysis.needed.Some? {
        assert rows[i].analysis.needed.value in CountsNamed(rows);
      }
    }
  }

  // ---- what each sentence means for the rows ----

  /** The rule reached no conclusion about this row. */
  predicate Declined(rows: seq<Row>, i: nat) {
    i < |rows| && rows[i].analysis.verdict == NoVerdict
  }

  /** A row the rule was applied to, of a case not marked erratic. */
  predicate RuledOn(rows: seq<Row>, i: nat) {
    i < |rows| && !rows[i].erratic && rows[i].analysis.verdict != NoVerdict
  }

  predicate Flagged(rows: seq<Row>, i: nat) {
    i < |rows| && !rows[i].erratic && !rows[i].inherited && rows[i].analysis.verdict in {Improved, Regressed}
  }

  lemma UnjudgedAreDeclined(rows: seq<Row>)
    ensures forall i: nat :: i in Unjudged(rows) <==> Declined(rows, i)
    ensures |Unjudged(rows)| <= |rows|
    ensures |Unjudged(rows)| == 0 <==> forall i: nat :: !Declined(rows, i)
    ensures |Unjudged(rows)| == |rows| <==> forall i: nat | i < |rows| :: Declined(rows, i)
  {
    var all := Below(|rows|);
    forall i: nat
      ensures i in Unjudged(rows) <==> Declined(rows, i)
    {
    }
    SubsetSize(Unjudged(rows), all);
    if |Unjudged(rows)| == |rows| {
      SubsetOfSameSize(Unjudged(rows), all);
      assert forall i: nat | i < |rows| :: i in all;
    }
    if forall i: nat | i < |rows| :: Declined(rows, i) {
      assert Unjudged(rows) == all;
    }
    if |Unjudged(rows)| == 0 {
      assert Unjudged(rows) == {};
    }
    if forall i: nat :: !Declined(rows, i) {
      assert Unjudged(rows) == {};
    }
  }

  lemma SummaryIsTrue(rows: seq<Row>)
    ensures var s := SummaryOf(rows);
      && (s.NothingComparable? <==> rows == [])
      && (s.NothingJudged? <==> rows != [] && forall i: nat :: !RuledOn(rows, i))
      && (s.Findings? <==> exists i: nat :: Flagged(rows, i))
  {
    if i: nat :| Flagged(rows, i) {
      assert i in Significant(rows) && RuledOn(rows, i);
    }
    if Significant(rows) != {} {
      var i :| i in Significant(rows);
      assert Flagged(rows, i);
    }
    if i: nat :| RuledOn(rows, i) {
      assert !rows[i].erratic && rows[i].analysis.verdict.IsJudged();
    }
    if i :| 0 <= i < |rows| && !rows[i].erratic && rows[i].analysis.verdict.IsJudged() {
      assert RuledOn(rows, i);
    }
  }

  /** Each sentence is printed exactly when it is true of the rows: nothing
      compared; every row from an erratic case and judged; the rule applied to no
      row, or to none but erratic ones; nothing flagged; and no sentence where
      something is. */
  lemma SentenceIsTrue(rows: seq<Row>)
    ensures var said := SentenceOf(SummaryOf(rows));
      var unruled := rows != [] && forall i: nat :: !RuledOn(rows, i);
      && (said == Some(NoMetricComparable) <==> rows == [])
      && (said == Some(EveryCaseErratic) <==> unruled && forall i: nat :: !Declined(rows, i))
      && (said.Some? && said.value.RuleNotApplied? <==> rows != [] && forall i: nat | i < |rows| :: Declined(rows, i))
      && (said.Some? && said.value.RuleNotAppliedToSome? <==>
            && unruled && (exists i: nat :: Declined(rows, i)) && exists i: nat | i < |rows| :: !Declined(rows, i))
      && (said.None? <==> exists i: nat :: Flagged(rows, i))
  {
    SummaryIsTrue(rows);
    UnjudgedAreDeclined(rows);
    WhatASummaryHolds(rows);
    assert forall i: nat :: RuledOn(rows, i) ==> !Declined(rows, i);
  }

  /** A row of a case not marked erratic, declined, that names this count. */
  predicate Names(rows: seq<Row>, i: nat, count: Option<nat>) {
    Declined(rows, i) && !rows[i].erratic && rows[i].analysis.needed == count
  }

  ghost predicate LargestNamed(rows: seq<Row>, count: nat) {
    && (exists i: nat :: Names(rows, i, Some(count)))
    && forall i: nat, n: nat | Names(rows, i, Some(n)) :: n <= count
  }

  /** The advice names the largest count a declined row of a case not marked
      erratic asks for, says whether another such row is past any count, and that
      all are where none names one. */
  lemma AdviceIsTrue(rows: seq<Row>, count: nat, past: bool)
    ensures var advice := AdviceFor(ReplicatesNeeded(rows));
      && (advice == Rerun(count, past) <==>
            LargestNamed(rows, count) && (past <==> exists i: nat :: Names(rows, i, None)))
      && (advice == OutOfReach <==>
            (exists i: nat :: Names(rows, i, None)) && forall i: nat, n: nat :: !Names(rows, i, Some(n)))
      && (advice == Silent <==> forall i: nat, c :: !Names(rows, i, c))
  {
    NamedCounts(rows);
    SettleableNamingNone(rows);
    SilentIffNothingToSettle(rows);
    SettleableNames(rows);
  }

  lemma SettleableNames(rows: seq<Row>)
    ensures Settleable(rows) == {} <==> forall i: nat, c :: !Names(rows, i, c)
  {
    if i :| i in Settleable(rows) {
      assert Names(rows, i, rows[i].analysis.needed);
    }
    if i: nat, c :| Names(rows, i, c) {
      assert i in Settleable(rows);
    }
  }

  lemma SettleableNamingNone(rows: seq<Row>)
    ensures (exists i :: i in Settleable(rows) && NamesNone(rows, i)) <==> exists i: nat :: Names(rows, i, None)
  {
    if i :| i in Settleable(rows) && NamesNone(rows, i) {
      assert Names(rows, i, None);
    }
    if i: nat :| Names(rows, i, None) {
      assert i in Settleable(rows) && NamesNone(rows, i);
    }
  }

  lemma NamedCounts(rows: seq<Row>)
    ensures forall n: nat :: n in CountsNamed(rows) <==> exists i: nat :: Names(rows, i, Some(n))
    ensures forall n: nat :: Largest(CountsNamed(rows)) == Some(n) <==> LargestNamed(rows, n)
    ensures Largest(CountsNamed(rows)).None? <==> forall i: nat, n: nat :: !Names(rows, i, Some(n))
  {
    forall n: nat
      ensures n in CountsNamed(rows) <==> exists i: nat :: Names(rows, i, Some(n))
    {
      if n in CountsNamed(rows) {
        var i :| i in Settleable(rows) && NamesACount(rows, i) && rows[i].analysis.needed.value == n;
        assert Names(rows, i, Some(n));
      }
      if i: nat :| Names(rows, i, Some(n)) {
        assert i in Settleable(rows) && NamesACount(rows, i);
      }
    }
  }

  // ---- rows after inheritance ----

  /** One case's rows with its derived rows settled: a derived row beside a wall
      time is marked, and carries that row's verdict and count. */
  ghost predicate Reconciled(rows: map<string, Row>) {
    forall m | m in rows ::
      && (rows[m].inherited <==> DerivedFrom(m).Some? && WALL_NS_PER_ITER in rows)
      && (WALL_NS_PER_ITER in rows ==> SharesTheVerdict(rows[m], rows[WALL_NS_PER_ITER]))
  }

  /** A row beside its case's wall time. */
  ghost predicate SharesTheVerdict(row: Row, wall: Row) {
    && row.erratic == wall.erratic
    && (row.inherited ==> row.analysis.verdict == wall.analysis.verdict && row.analysis.needed == wall.analysis.needed)
  }

  lemma SettledRowsAreReconciled(raw: map<string, Row>, erratic: bool)
    requires forall m | m in raw :: raw[m].erratic == erratic && !raw[m].inherited
    ensures Reconciled(SettledRows(raw))
  {
    WallIsMeasured();
  }

  lemma RawRowsAreUniform(setting: Setting, id: CaseId, b: Replicas, h: Replicas)
    requires b.Keys * h.Keys != {}
    ensures forall m | m in RawRows(setting, id, b, h) ::
      RawRows(setting, id, b, h)[m].erratic == Erratic(b, h) && !RawRows(setting, id, b, h)[m].inherited
  {
  }

  lemma CaseIsReconciled(setting: Setting, id: CaseId, b: Replicas, h: Replicas)
    ensures Reconciled(CaseRows(setting, id, b, h))
  {
    if Reached(setting, id, b, h) {
      RawRowsAreUniform(setting, id, b, h);
      SettledRowsAreReconciled(RawRows(setting, id, b, h), Erratic(b, h));
    }
  }

  /** A list of rows, one per cell, in which a derived row is marked exactly when
      its case has a wall time, and then carries its verdict and count. */
  ghost predicate ReconciledRows(rows: seq<Row>) {
    && OneRowPerCell(rows)
    && (forall i | 0 <= i < |rows| ::
          rows[i].inherited <==> DerivedFrom(rows[i].metric).Some? && HasRow(rows, rows[i].id, WALL_NS_PER_ITER))
    && (forall i, j | 0 <= i < |rows| && 0 <= j < |rows| && CellOf(rows[j]) == (rows[i].id, WALL_NS_PER_ITER) ::
          SharesTheVerdict(rows[i], rows[j]))
  }

  /** The rows of a comparison, in any order. */
  ghost predicate RowsOf(rows: seq<Row>, setting: Setting, legs: Legs) {
    RowsListed(rows, Compared(setting, legs).rows)
  }

  lemma TableMakesRowsReconciled(rows: seq<Row>, table: map<CaseId, map<string, Row>>)
    requires RowsListed(rows, table) && forall id | id in table :: Reconciled(table[id])
    ensures ReconciledRows(rows)
  {
    forall i | 0 <= i < |rows|
      ensures rows[i].inherited <==> DerivedFrom(rows[i].metric).Some? && HasRow(rows, rows[i].id, WALL_NS_PER_ITER)
    {
      assert InTable(table, rows[i]);
      WallIsListed(rows, table, rows[i].id);
    }
    forall i, j | 0 <= i < |rows| && 0 <= j < |rows| && CellOf(rows[j]) == (rows[i].id, WALL_NS_PER_ITER)
      ensures SharesTheVerdict(rows[i], rows[j])
    {
      assert InTable(table, rows[i]) && InTable(table, rows[j]);
    }
  }

  lemma WallIsListed(rows: seq<Row>, table: map<CaseId, map<string, Row>>, id: CaseId)
    requires RowsListed(rows, table) && id in table
    ensures HasRow(rows, id, WALL_NS_PER_ITER) <==> WALL_NS_PER_ITER in table[id]
  {
    if i :| 0 <= i < |rows| && CellOf(rows[i]) == (id, WALL_NS_PER_ITER) {
      assert InTable(table, rows[i]);
    }
  }

  lemma EveryReportIsReconciled(rows: seq<Row>, setting: Setting, legs: Legs)
    requires RowsOf(rows, setting, legs)
    ensures ReconciledRows(rows)
  {
    forall id | id in legs.All() * legs.Shared()
      ensures Reconciled(RowsAt(setting, legs, id))
    {
      CaseIsReconciled(setting, id, Held(legs.base, id), Held(legs.head, id));
    }
    TableMakesRowsReconciled(rows, Compared(setting, legs).rows);
  }

  ghost predicate SignificantRow(rows: seq<Row>, i: nat) {
    i < |rows| && !rows[i].erratic && rows[i].analysis.verdict in {Improved, Regressed}
  }

  lemma SignificantRowIsCounted(rows: seq<Row>, i: nat)
    requires ReconciledRows(rows) && SignificantRow(rows, i)
    ensures Significant(rows) != {}
  {
    if rows[i].inherited {
      WallIsMeasured();
      var j :| 0 <= j < |rows| && CellOf(rows[j]) == (rows[i].id, WALL_NS_PER_ITER);
      assert SharesTheVerdict(rows[i], rows[j]);
      assert j in Significant(rows);
    } else {
      assert i in Significant(rows);
    }
  }

  /** There are findings exactly when some row of a case not marked erratic is
      significant, inherited or not. */
  lemma FindingsIffSomethingSignificant(rows: seq<Row>, setting: Setting, legs: Legs)
    requires RowsOf(rows, setting, legs)
    ensures SummaryOf(rows).Findings? <==> exists i: nat :: SignificantRow(rows, i)
  {
    EveryReportIsReconciled(rows, setting, legs);
    FindingsIffSignificantRow(rows);
  }

  lemma FindingsIffSignificantRow(rows: seq<Row>)
    requires ReconciledRows(rows)
    ensures SummaryOf(rows).Findings? <==> exists i: nat :: SignificantRow(rows, i)
  {
    if i: nat :| SignificantRow(rows, i) {
      SignificantRowIsCounted(rows, i);
    }
    if SummaryOf(rows).Findings? {
      var f :| f in Significant(rows);
      assert SignificantRow(rows, f);
    }
  }

  // ---- one timing event, one finding ----

  predicate Timing(m: string) {
    m == WALL_NS_PER_ITER || DerivedFrom(m).Some?
  }

  /** Where a case has a wall time, it is the one finding for its timing rows: it
      is counted exactly when any of them is significant, and no row derived from
      it is counted beside it. */
  lemma EachTimingEventIsCountedOnce(rows: seq<Row>, i: nat, wall: nat)
    requires ReconciledRows(rows) && i < |rows| && wall < |rows|
    requires CellOf(rows[wall]) == (rows[i].id, WALL_NS_PER_ITER) && Timing(rows[i].metric)
    ensures wall in Significant(rows) <==> SignificantRow(rows, i)
    ensures i != wall ==> i !in Significant(rows)
  {
    WallIsMeasured();
    assert SharesTheVerdict(rows[i], rows[wall]);
    assert HasRow(rows, rows[i].id, WALL_NS_PER_ITER);
    assert i != wall ==> rows[i].metric != WALL_NS_PER_ITER;
  }

  ghost predicate SignificantAt(rows: seq<Row>, id: CaseId, m: string) {
    exists i: nat :: SignificantRow(rows, i) && CellOf(rows[i]) == (id, m)
  }

  ghost predicate TimingFinding(rows: seq<Row>, id: CaseId, i: nat) {
    i in Significant(rows) && rows[i].id == id && Timing(rows[i].metric)
  }

  /** Two findings for one case's timing. */
  ghost predicate CountedTwice(rows: seq<Row>, id: CaseId) {
    exists i: nat, j: nat :: i != j && TimingFinding(rows, id, i) && TimingFinding(rows, id, j)
  }

  /** One case's timing is counted twice if and only if both its throughputs are
      significant and it has no wall time for them to take their verdict from. */
  lemma CountedTwiceIff(rows: seq<Row>, setting: Setting, legs: Legs, id: CaseId)
    requires RowsOf(rows, setting, legs)
    ensures CountedTwice(rows, id) <==>
      && SignificantAt(rows, id, RECORDS_PER_S) && SignificantAt(rows, id, BYTES_PER_S)
      && !HasRow(rows, id, WALL_NS_PER_ITER)
  {
    EveryReportIsReconciled(rows, setting, legs);
    if CountedTwice(rows, id) {
      TwiceMeansBothRates(rows, id);
    }
    if SignificantAt(rows, id, RECORDS_PER_S) && SignificantAt(rows, id, BYTES_PER_S)
       && !HasRow(rows, id, WALL_NS_PER_ITER) {
      BothRatesCountTwice(rows, id);
    }
  }

  lemma TwiceMeansBothRates(rows: seq<Row>, id: CaseId)
    requires ReconciledRows(rows) && CountedTwice(rows, id)
    ensures SignificantAt(rows, id, RECORDS_PER_S) && SignificantAt(rows, id, BYTES_PER_S)
    ensures !HasRow(rows, id, WALL_NS_PER_ITER)
  {
    var i: nat, j: nat :| i != j && TimingFinding(rows, id, i) && TimingFinding(rows, id, j);
    assert CellOf(rows[i]) != CellOf(rows[j]);
    if w: nat :| w < |rows| && CellOf(rows[w]) == (id, WALL_NS_PER_ITER) {
      EachTimingEventIsCountedOnce(rows, i, w);
      EachTimingEventIsCountedOnce(rows, j, w);
    }
    assert SignificantRow(rows, i) && SignificantRow(rows, j);
  }

  lemma BothRatesCountTwice(rows: seq<Row>, id: CaseId)
    requires ReconciledRows(rows) && !HasRow(rows, id, WALL_NS_PER_ITER)
    requires SignificantAt(rows, id, RECORDS_PER_S) && SignificantAt(rows, id, BYTES_PER_S)
    ensures CountedTwice(rows, id)
  {
    var i: nat :| SignificantRow(rows, i) && CellOf(rows[i]) == (id, RECORDS_PER_S);
    var j: nat :| SignificantRow(rows, j) && CellOf(rows[j]) == (id, BYTES_PER_S);
    assert |RECORDS_PER_S| != |BYTES_PER_S|;
    assert TimingFinding(rows, id, i) && TimingFinding(rows, id, j);
  }

  // ---- the count a report advises ----

  /** The run is judged by the rule of `Analyse`, over samples of machine size. */
  ghost predicate Ruled(setting: Setting, num: Numerics, b: Replicas, h: Replicas) {
    DecisionRule(setting.judge, num) && |b.Keys * h.Keys| < TWO64
  }

  /** The analysis behind a row before inheritance. */
  lemma RawRowIsAnalysed(setting: Setting, num: Numerics, id: CaseId, b: Replicas, h: Replicas, m: string)
    requires b.Keys * h.Keys != {} && Ruled(setting, num, b, h) && m in RawRows(setting, id, b, h)
    ensures var ks := Paired(b, h);
      && Whole(b, h, m) && Comparable(Values(b, ks, m), Values(h, ks, m)) && 0 < |ks| < TWO64
      && RawRows(setting, id, b, h)[m].analysis
         == AnalysisOf(num, m, SeedShape(b, h, m).value.higherIsBetter,
                       Values(b, ks, m), Values(h, ks, m), setting.seed(id, m))
  {
  }

  /** A count is named only by a row the rule declined; it is even, from 6 to
      200, and for a row judged on its own numbers it and every larger count
      would settle the row. */
  ghost predicate NamesAGoodCount(num: Numerics, row: Row) {
    && num.Valid() && CountOnlyWhenDeclined(row)
    && num.t(Freedom(row.analysis.replicates)) > 0.0
    && (row.analysis.needed.Some? ==>
          var n := row.analysis.needed.value; n % 2 == 0 && 6 <= n <= 200)
    && (!row.inherited && row.analysis.needed.Some? ==>
          && row.analysis.needed.value > row.analysis.replicates
          && forall m | m >= row.analysis.needed.value :: SettledBy(num, row, m))
  }

  /** This many replicates would narrow the row's interval under its floor. */
  ghost predicate SettledBy(num: Numerics, row: Row, m: nat) {
    FitsTheFloor(num, HalfWidth(row.analysis.ci), row.analysis.replicates, row.analysis.floor, m)
  }

  lemma AnalysisNamesAGoodCount(
    num: Numerics, row: Row, metric: string, higher: bool, base: seq<Value>, head: seq<Value>, seed: Word)
    requires num.Valid() && Comparable(base, head) && 0 < |base| < TWO64
    requires row.analysis == AnalysisOf(num, metric, higher, base, head, seed)
    ensures NamesAGoodCount(num, row)
  {
    AnalysisNamesTheSmallestCount(num, metric, higher, base, head, seed);
    CriticalAboveNormal(num, Freedom(|base|));
  }

  lemma RawRowNamesAGoodCount(setting: Setting, num: Numerics, id: CaseId, b: Replicas, h: Replicas, m: string)
    requires b.Keys * h.Keys != {} && Ruled(setting, num, b, h) && m in RawRows(setting, id, b, h)
    ensures NamesAGoodCount(num, RawRows(setting, id, b, h)[m])
  {
    RawRowIsAnalysed(setting, num, id, b, h, m);
    var ks := Paired(b, h);
    AnalysisNamesAGoodCount(num, RawRows(setting, id, b, h)[m], m, SeedShape(b, h, m).value.higherIsBetter,
                            Values(b, ks, m), Values(h, ks, m), setting.seed(id, m));
  }

  lemma SettledRowNamesAGoodCount(num: Numerics, raw: map<string, Row>, m: string)
    requires m in raw && forall n | n in raw :: NamesAGoodCount(num, raw[n])
    ensures NamesAGoodCount(num, SettledRow(raw, m))
  {
    assert NamesAGoodCount(num, raw[m]);
    var measured := DerivedFrom(m);
    if measured.Some? && measured.value in raw {
      assert NamesAGoodCount(num, raw[measured.value]);
    }
  }

  lemma CaseNamesGoodCounts(setting: Setting, num: Numerics, id: CaseId, b: Replicas, h: Replicas)
    requires Ruled(setting, num, b, h)
    ensures forall m | m in CaseRows(setting, id, b, h) :: NamesAGoodCount(num, CaseRows(setting, id, b, h)[m])
  {
    if Reached(setting, id, b, h) {
      var raw := RawRows(setting, id, b, h);
      forall m | m in raw
        ensures NamesAGoodCount(num, raw[m])
      {
        RawRowNamesAGoodCount(setting, num, id, b, h, m);
      }
      forall m | m in raw
        ensures NamesAGoodCount(num, SettledRow(raw, m))
      {
        SettledRowNamesAGoodCount(num, raw, m);
      }
    }
  }

  ghost predicate RuledRun(setting: Setting, num: Numerics, legs: Legs) {
    forall id | id in legs.All() :: Ruled(setting, num, Held(legs.base, id), Held(legs.head, id))
  }

  ghost predicate NamesGoodCounts(num: Numerics, rows: seq<Row>) {
    forall i | 0 <= i < |rows| :: NamesAGoodCount(num, rows[i])
  }

  /** No judged row of a report carries a count. */
  lemma EveryReportNamesGoodCounts(rows: seq<Row>, setting: Setting, num: Numerics, legs: Legs)
    requires RowsOf(rows, setting, legs) && RuledRun(setting, num, legs)
    ensures NamesGoodCounts(num, rows)
  {
    forall i | 0 <= i < |rows|
      ensures NamesAGoodCount(num, rows[i])
    {
      var id := rows[i].id;
      assert InTable(Compared(setting, legs).rows, rows[i]);
      CaseNamesGoodCounts(setting, num, id, Held(legs.base, id), Held(legs.head, id));
    }
  }

  /** The row names a count of its own, one the rule projected from its own
      interval. */
  ghost predicate AsksForACount(rows: seq<Row>, i: nat) {
    i in Settleable(rows) && NamesACount(rows, i) && !rows[i].inherited
  }

  /** The count a report advises is one a comparison accepts, and it settles
      every row naming one; the flag is raised exactly when some row names
      none. */
  lemma AdvisedCountSettlesEveryRow(rows: seq<Row>, setting: Setting, num: Numerics, legs: Legs)
    requires RowsOf(rows, setting, legs) && RuledRun(setting, num, legs)
    ensures var (count, past) := ReplicatesNeeded(rows);
      && NamesGoodCounts(num, rows)
      && (count.Some? <==> exists i :: i in Settleable(rows) && NamesACount(rows, i))
      && (past <==> exists i :: i in Settleable(rows) && NamesNone(rows, i))
      && (count.Some? ==>
            && 6 <= count.value <= 200 && Schedule.ParityAccepted(count.value)
            && forall i: nat | AsksForACount(rows, i) :: SettledBy(num, rows[i], count.value))
  {
    EveryReportNamesGoodCounts(rows, setting, num, legs);
    LargestCountSettles(num, rows);
  }

  lemma LargestCountSettles(num: Numerics, rows: seq<Row>)
    requires NamesGoodCounts(num, rows)
    ensures var count := Largest(CountsNamed(rows));
      && (count.Some? <==> exists i :: i in Settleable(rows) && NamesACount(rows, i))
      && (count.Some? ==>
            && 6 <= count.value <= 200 && Schedule.ParityAccepted(count.value)
            && forall i: nat | AsksForACount(rows, i) :: SettledBy(num, rows[i], count.value))
  {
    var count := Largest(CountsNamed(rows));
    if i :| i in Settleable(rows) && NamesACount(rows, i) {
      assert rows[i].analysis.needed.value in CountsNamed(rows);
    }
    if count.Some? {
      var y :| y in Settleable(rows) && NamesACount(rows, y) && rows[y].analysis.needed == count;
      assert NamesAGoodCount(num, rows[y]);
      forall i: nat | AsksForACount(rows, i)
        ensures SettledBy(num, rows[i], count.value)
      {
        assert NamesAGoodCount(num, rows[i]);
        assert rows[i].analysis.needed.value in CountsNamed(rows);
      }
    }
  }

  // ---- a run against itself ----

  /** Both legs recorded the same metrics at the same replicates. */
  ghost predicate SameMetrics(b: Replicas, h: Replicas) {
    b.Keys == h.Keys && forall k | k in b :: b[k].metrics == h[k].metrics
  }

  lemma SameMetricsSameValues(b: Replicas, h: Replicas, ks: seq<nat>, m: string)
    requires SameMetrics(b, h) && forall k | k in ks :: k in b && m in b[k].metrics
    ensures Values(b, ks, m) == Values(h, ks, m)
  {
    forall i | 0 <= i < |ks|
      ensures Values(b, ks, m)[i] == Values(h, ks, m)[i]
    {
      assert ks[i] in ks;
    }
  }

  lemma ComparableWithItselfIsNotFlagged(num: Numerics, metric: string, higher: bool, values: seq<Value>, seed: Word)
    requires num.Valid() && 0 < |values| < TWO64 && Comparable(values, values)
    ensures !AnalysisOf(num, metric, higher, values, values, seed).verdict.IsSignificant()
  {
    forall i | 0 <= i < |values|
      ensures values[i].Finite?
    {
      assert PairRefusal(0, values[i], values[i]).None?;
    }
    IdenticalLegsAreNeverFlagged(num, metric, higher, values, seed);
  }

  lemma IdenticalCaseHasNoSignificantRow(
    setting: Setting, num: Numerics, id: CaseId, b: Replicas, h: Replicas, m: string)
    requires b.Keys * h.Keys != {} && Ruled(setting, num, b, h) && SameMetrics(b, h)
    requires m in RawRows(setting, id, b, h)
    ensures !RawRows(setting, id, b, h)[m].analysis.verdict.IsSignificant()
  {
    RawRowIsAnalysed(setting, num, id, b, h, m);
    var ks := Paired(b, h);
    SameMetricsSameValues(b, h, ks, m);
    var higher := SeedShape(b, h, m).value.higherIsBetter;
    ComparableWithItselfIsNotFlagged(num, m, higher, Values(b, ks, m), setting.seed(id, m));
  }

  /** Two legs that recorded the same numbers give a report without findings,
      whatever the seeds. */
  lemma IdenticalLegsFindNothing(rows: seq<Row>, setting: Setting, num: Numerics, legs: Legs)
    requires RowsOf(rows, setting, legs) && RuledRun(setting, num, legs)
    requires forall id | id in legs.Shared() :: SameMetrics(legs.base[id], legs.head[id])
    ensures !SummaryOf(rows).Findings?
  {
    forall i | 0 <= i < |rows|
      ensures !SignificantRow(rows, i)
    {
      var id := rows[i].id;
      assert InTable(Compared(setting, legs).rows, rows[i]);
      IdenticalCaseFindsNothing(setting, num, id, legs.base[id], legs.head[id], rows[i].metric);
    }
    FindingsIffSomethingSignificant(rows, setting, legs);
  }

  lemma IdenticalCaseFindsNothing(setting: Setting, num: Numerics, id: CaseId, b: Replicas, h: Replicas, m: string)
    requires Ruled(setting, num, b, h) && SameMetrics(b, h) && m in CaseRows(setting, id, b, h)
    ensures !CaseRows(setting, id, b, h)[m].analysis.verdict.IsSignificant()
  {
    var raw := RawRows(setting, id, b, h);
    IdenticalCaseHasNoSignificantRow(setting, num, id, b, h, m);
    var measured := DerivedFrom(m);
    if measured.Some? && measured.value in raw {
      IdenticalCaseHasNoSignificantRow(setting, num, id, b, h, measured.value);
    }
  }
}
