/** Comparing two legs. What a comparison finds is said by case and metric; what
    it reports is two flat lists, pushed case by case in any order, then sorted
    and freed of repeats. */
module Compare {
  import opened Cases
  import opened Wrappers
  import opened LittleEndian
  import opened Sequences
  import opened Sets
  import opened Sorting
  import opened Inheritance
  import opened Records
  import opened CaseCompare

  const BASE_LEG := "base"
  const HEAD_LEG := "head"
  const FIELD_FEATURES := "features"
  const ALLOW_DIGEST := "digest"
  const ALLOW_BUILD := "build"

  datatype CompareError =
    | SameDirectory | WrongWayRound | SameLeg | AxesDisagree
    | NotTheSameBuild(fields: set<string>)
    | EveryDigestDiffers | EveryBuildOneSided | EveryBuildDiffers | EveryBuildSame
    | NoSharedCase

  /** What is found, by case and metric. */
  datatype Comparison = Comparison(rows: map<CaseId, map<string, Row>>, entries: map<CaseId, set<NotComparable>>)

  // ---- guards on the legs ----

  function GuardLegs(base: Leg, head: Leg): Option<CompareError> {
    if base.dir == head.dir then Some(SameDirectory)
    else if base.provenance.leg == HEAD_LEG && head.provenance.leg == BASE_LEG then Some(WrongWayRound)
    else if base.provenance.leg == head.provenance.leg then Some(SameLeg)
    else if base.provenance.axis != head.provenance.axis then Some(AxesDisagree)
    else None
  }

  /** A field as the other leg reads: empty where it is not recorded. */
  function Reads(fields: map<string, string>, f: string): string {
    if f in fields then fields[f] else ""
  }

  /** The guarded fields the base leg records and the legs disagree about. */
  function Divergences(fields: map<string, string>, theirs: map<string, string>): set<string> {
    set f | f in fields && fields[f] != Reads(theirs, f)
  }

  function GuardFields(
    fields: map<string, string>, theirs: map<string, string>, waived: set<string>, axis: Axis): Option<CompareError>
  {
    var refused := set f | f in Divergences(fields, theirs) && !(axis == Arm && f == FIELD_FEATURES) && f !in waived;
    if refused == {} then None else Some(NotTheSameBuild(refused))
  }

  // ---- counting cases ----

  /** How many of these cases have a property. */
  ghost function Count(p: CaseId -> bool, ids: set<CaseId>): nat {
    |set id | id in ids && p(id)|
  }

  lemma CountOneMore(p: CaseId -> bool, ids: set<CaseId>, id: CaseId)
    requires id !in ids
    ensures Count(p, ids + {id}) == Count(p, ids) + if p(id) then 1 else 0
  {
    var was, now := set i | i in ids && p(i), set i | i in ids + {id} && p(i);
    assert now == if p(id) then was + {id} else was;
  }

  predicate DigestMismatch(b: Replicas, h: Replicas) {
    !DigestsWithin(b, h) && Digests(b) != Digests(h)
  }

  /** The case reached the declared-build question and could be judged on it. */
  predicate BuildAsked(setting: Setting, id: CaseId, b: Replicas, h: Replicas) {
    DigestGate(setting, id, b, h).passes && !BuildsWithin(b, h)
  }

  datatype BuildAnswer = Right | OneSided | Same | Mismatched

  function AnswerOf(axis: Axis, b: Replicas, h: Replicas): BuildAnswer {
    if !BuildsWrong(axis, b, h) then Right
    else if BuildsOneSided(b, h) then OneSided
    else if BuildsAgree(b, h) then Same
    else Mismatched
  }

  datatype Tally = Tally(
    shared: nat, digestMismatches: nat, buildJudged: nat, buildOneSided: nat, buildMismatches: nat, buildSame: nat)

  /** One shared case added to the counters. */
  function TallyCase(t: Tally, setting: Setting, id: CaseId, b: Replicas, h: Replicas): Tally {
    var asked, answer := BuildAsked(setting, id, b, h), AnswerOf(setting.axis, b, h);
    Tally(t.shared + 1,
          if DigestMismatch(b, h) then t.digestMismatches + 1 else t.digestMismatches,
          if asked then t.buildJudged + 1 else t.buildJudged,
          if asked && answer.OneSided? then t.buildOneSided + 1 else t.buildOneSided,
          if asked && answer.Mismatched? then t.buildMismatches + 1 else t.buildMismatches,
          if asked && answer.Same? then t.buildSame + 1 else t.buildSame)
  }

  /** The two legs' groups, as one value. */
  datatype Legs = Legs(base: Groups, head: Groups) {
    function All(): set<CaseId> {
      base.Keys + head.Keys
    }

    function Shared(): set<CaseId> {
      base.Keys * head.Keys
    }
  }

  ghost function Mismatches(legs: Legs): CaseId -> bool {
    id => DigestMismatch(Held(legs.base, id), Held(legs.head, id))
  }

  ghost function Asked(setting: Setting, legs: Legs): CaseId -> bool {
    id => BuildAsked(setting, id, Held(legs.base, id), Held(legs.head, id))
  }

  ghost function Answered(setting: Setting, legs: Legs, answer: BuildAnswer): CaseId -> bool {
    id =>
      && BuildAsked(setting, id, Held(legs.base, id), Held(legs.head, id))
      && AnswerOf(setting.axis, Held(legs.base, id), Held(legs.head, id)) == answer
  }

  /** What the counters hold after these shared cases. */
  ghost function TallyOf(setting: Setting, legs: Legs, ids: set<CaseId>): Tally {
    Tally(|ids|, Count(Mismatches(legs), ids), Count(Asked(setting, legs), ids),
          Count(Answered(setting, legs, OneSided), ids),
          Count(Answered(setting, legs, Mismatched), ids),
          Count(Answered(setting, legs, Same), ids))
  }

  lemma TallyOneMore(setting: Setting, legs: Legs, ids: set<CaseId>, id: CaseId)
    requires id !in ids
    ensures TallyOf(setting, legs, ids + {id})
         == TallyCase(TallyOf(setting, legs, ids), setting, id, Held(legs.base, id), Held(legs.head, id))
  {
    CountOneMore(Mismatches(legs), ids, id);
    CountOneMore(Asked(setting, legs), ids, id);
    CountOneMore(Answered(setting, legs, OneSided), ids, id);
    CountOneMore(Answered(setting, legs, Mismatched), ids, id);
    CountOneMore(Answered(setting, legs, Same), ids, id);
  }

  /** A statement about the run as a whole, where one applies. */
  function Systemic(t: Tally, setting: Setting): Option<CompareError> {
    if t.shared > 1 && t.digestMismatches == t.shared && !setting.allowDigest then Some(EveryDigestDiffers)
    else if t.buildJudged > 1 && !setting.allowBuild && t.buildOneSided == t.buildJudged then Some(EveryBuildOneSided)
    else if t.buildJudged > 1 && !setting.allowBuild && t.buildMismatches == t.buildJudged then Some(EveryBuildDiffers)
    else if t.buildJudged > 1 && !setting.allowBuild && t.buildSame == t.buildJudged then Some(EveryBuildSame)
    else if t.shared == 0 then Some(NoSharedCase)
    else None
  }

  // ---- the comparison ----

  ghost function RowsAt(setting: Setting, legs: Legs, id: CaseId): map<string, Row> {
    CaseRows(setting, id, Held(legs.base, id), Held(legs.head, id))
  }

  ghost function EntriesOf(setting: Setting, legs: Legs, id: CaseId): set<NotComparable> {
    if id in legs.Shared() then CaseEntries(setting, id, Held(legs.base, id), Held(legs.head, id))
    else {NotComparable(WholeCase(id), PresentOnOneLeg, Other)}
  }

  ghost function RowsOver(setting: Setting, legs: Legs, ids: set<CaseId>): map<CaseId, map<string, Row>> {
    map id | id in ids :: RowsAt(setting, legs, id)
  }

  ghost function EntriesOver(setting: Setting, legs: Legs, ids: set<CaseId>): map<CaseId, set<NotComparable>> {
    map id | id in ids :: EntriesOf(setting, legs, id)
  }

  /** The comparison so far, once these cases have been visited. */
  ghost function ComparedOver(setting: Setting, legs: Legs, visited: set<CaseId>): Comparison {
    Comparison(RowsOver(setting, legs, visited * legs.Shared()), EntriesOver(setting, legs, visited))
  }

  ghost function TalliedOver(setting: Setting, legs: Legs, visited: set<CaseId>): Tally {
    TallyOf(setting, legs, visited * legs.Shared())
  }

  ghost function Compared(setting: Setting, legs: Legs): Comparison {
    ComparedOver(setting, legs, legs.All())
  }

  lemma OneMoreCase(setting: Setting, legs: Legs, ids: set<CaseId>, id: CaseId)
    ensures RowsOver(setting, legs, ids + {id}) == RowsOver(setting, legs, ids)[id := RowsAt(setting, legs, id)]
    ensures EntriesOver(setting, legs, ids + {id})
         == EntriesOver(setting, legs, ids)[id := EntriesOf(setting, legs, id)]
  {
  }

  // ---- the flat lists ----

  datatype Report = Report(rows: seq<Row>, notComparable: seq<NotComparable>)

  type Cell = (CaseId, string)

  function CellOf(row: Row): Cell {
    (row.id, row.metric)
  }

  ghost predicate OneRowPerCell(rows: seq<Row>) {
    forall i, j | 0 <= i < j < |rows| :: CellOf(rows[i]) != CellOf(rows[j])
  }

  ghost predicate InTable(table: map<CaseId, map<string, Row>>, row: Row) {
    row.id in table && row.metric in table[row.id] && table[row.id][row.metric] == row
  }

  ghost predicate HasRow(rows: seq<Row>, id: CaseId, m: string) {
    exists i :: 0 <= i < |rows| && CellOf(rows[i]) == (id, m)
  }

  /** `rows` lists every row of the table, each once. */
  ghost predicate RowsListed(rows: seq<Row>, table: map<CaseId, map<string, Row>>) {
    && OneRowPerCell(rows)
    && (forall i | 0 <= i < |rows| :: InTable(table, rows[i]))
    && (forall id, m | id in table && m in table[id] :: HasRow(rows, id, m))
  }

  ghost function AllEntries(entries: map<CaseId, set<NotComparable>>): set<NotComparable> {
    set id, e | id in entries && e in entries[id] :: e
  }

  /** The two lists hold exactly what was found. */
  ghost predicate Holds(r: Report, c: Comparison) {
    RowsListed(r.rows, c.rows) && Elements(r.notComparable) == AllEntries(c.entries)
  }

  lemma AddRows(rows: seq<Row>, table: map<CaseId, map<string, Row>>, id: CaseId, mine: seq<Row>, all: map<string, Row>)
    requires RowsListed(rows, table) && id !in table && ListsAll(mine, all)
    requires forall m | m in all :: all[m].id == id
    ensures RowsListed(rows + mine, table[id := all])
  {
    var more, wider := rows + mine, table[id := all];
    forall i | 0 <= i < |more|
      ensures InTable(wider, more[i])
      ensures i < |rows| <==> more[i].id != id
    {
      assert i < |rows| ==> InTable(table, more[i]);
    }
    forall k, m | k in wider && m in wider[k]
      ensures HasRow(more, k, m)
    {
      if k == id {
        var i :| 0 <= i < |mine| && mine[i].metric == m;
        assert CellOf(more[|rows| + i]) == (k, m);
      } else {
        assert HasRow(rows, k, m);
        var i :| 0 <= i < |rows| && CellOf(rows[i]) == (k, m);
        assert CellOf(more[i]) == (k, m);
      }
    }
  }

  lemma GrowRows(
    rows: seq<Row>, more: seq<Row>, table: map<CaseId, map<string, Row>>, id: CaseId, all: map<string, Row>)
    requires RowsListed(rows, table) && id !in table && rows <= more && ListsAll(more[|rows|..], all)
    requires forall m | m in all :: all[m].id == id
    ensures RowsListed(more, table[id := all])
  {
    assert more == rows + more[|rows|..];
    AddRows(rows, table, id, more[|rows|..], all);
  }

  lemma AddEntries(entries: map<CaseId, set<NotComparable>>, id: CaseId, es: set<NotComparable>)
    requires id !in entries
    ensures AllEntries(entries[id := es]) == AllEntries(entries) + es
  {
    var wider := entries[id := es];
    forall e | e in AllEntries(entries) + es
      ensures e in AllEntries(wider)
    {
      if e in es {
        assert wider[id] == es;
      } else {
        var k :| k in entries && e in entries[k];
        assert wider[k] == entries[k];
      }
    }
  }

  /** Every row of a case names it. */
  lemma CaseRowsNameTheCase(setting: Setting, id: CaseId, b: Replicas, h: Replicas)
    ensures forall m | m in CaseRows(setting, id, b, h) :: CaseRows(setting, id, b, h)[m].id == id
  {
  }

  /** One case added to the lists and the counters. */
  method AddCase(setting: Setting, legs: Legs, id: CaseId, before: Report, tallied: Tally, ghost visited: set<CaseId>)
    returns (out: Report, tally: Tally)
    requires id in legs.All() && id !in visited
    requires Holds(before, ComparedOver(setting, legs, visited)) && tallied == TalliedOver(setting, legs, visited)
    ensures Holds(out, ComparedOver(setting, legs, visited + {id}))
    ensures tally == TalliedOver(setting, legs, visited + {id})
  {
    ghost var paired := visited * legs.Shared();
    VisitOne(legs, visited, id);
    OneMoreCase(setting, legs, visited, id);
    AddEntries(EntriesOver(setting, legs, visited), id, EntriesOf(setting, legs, id));
    out, tally := before, tallied;
    if id !in legs.base || id !in legs.head {
      var alone := NotComparable(WholeCase(id), PresentOnOneLeg, Other);
      PushOne([], out.notComparable, alone);
      out := out.(notComparable := out.notComparable + [alone]);
    } else {
      OneMoreCase(setting, legs, paired, id);
      TallyOneMore(setting, legs, paired, id);
      CaseRowsNameTheCase(setting, id, legs.base[id], legs.head[id]);
      tally := TallyCase(tally, setting, id, legs.base[id], legs.head[id]);
      var rows, entries := CompareCase(setting, id, legs.base[id], legs.head[id], out.rows, out.notComparable);
      GrowRows(out.rows, rows, RowsOver(setting, legs, paired), id, RowsAt(setting, legs, id));
      ElementsOfTail(out.notComparable, entries);
      out := Report(rows, entries);
    }
  }

  lemma VisitOne(legs: Legs, visited: set<CaseId>, id: CaseId)
    ensures (visited + {id}) * legs.Shared()
         == if id in legs.Shared() then visited * legs.Shared() + {id} else visited * legs.Shared()
  {
  }

  /** Every case of either leg, visited once in some order. */
  method CompareCases(setting: Setting, legs: Legs) returns (out: Report, tally: Tally)
    ensures Holds(out, Compared(setting, legs))
    ensures tally == TalliedOver(setting, legs, legs.All())
  {
    out, tally := Report([], []), Tally(0, 0, 0, 0, 0, 0);
    NothingVisited(setting, legs);
    var all := legs.All();
    var left := all;
    Ends(all);
    while left != {}
      invariant left <= all
      invariant Holds(out, ComparedOver(setting, legs, all - left))
      invariant tally == TalliedOver(setting, legs, all - left)
    {
      var id :| id in left;
      Remaining(all, left, id);
      out, tally := AddCase(setting, legs, id, out, tally, all - left);
      left := left - {id};
    }
  }

  lemma NothingVisited(setting: Setting, legs: Legs)
    ensures Holds(Report([], []), ComparedOver(setting, legs, {}))
    ensures TalliedOver(setting, legs, {}) == Tally(0, 0, 0, 0, 0, 0)
  {
    assert {} * legs.Shared() == {};
  }

  // ---- sorted, without repeats ----

  /** How rows and disclosures are ordered: any total orders in which no two
      different cells, and no two different disclosures, tie. */
  datatype Orders = Orders(cells: (Cell, Cell) -> bool, entries: (NotComparable, NotComparable) -> bool) {
    ghost predicate Valid() {
      && TotalPreorder(cells) && (forall x, y :: cells(x, y) && cells(y, x) ==> x == y)
      && TotalPreorder(entries) && (forall x, y :: entries(x, y) && entries(y, x) ==> x == y)
    }

    function Rows(): (Row, Row) -> bool {
      (a, b) => cells(CellOf(a), CellOf(b))
    }
  }

  /** The report of a comparison: every row once, sorted by case and metric, and
      every disclosure once, sorted. */
  ghost predicate LaysOut(order: Orders, r: Report, c: Comparison) {
    && Holds(r, c)
    && SortedBy(order.Rows(), r.rows)
    && SortedBy(order.entries, r.notComparable) && Distinct(r.notComparable)
  }

  lemma ListedRowsAreDistinct(rows: seq<Row>, table: map<CaseId, map<string, Row>>)
    requires RowsListed(rows, table)
    ensures Distinct(rows)
  {
  }

  /** A permutation of the rows lists the same table. */
  lemma PermutedStaysListed(rows: seq<Row>, sorted: seq<Row>, table: map<CaseId, map<string, Row>>)
    requires RowsListed(rows, table) && multiset(rows) == multiset(sorted)
    ensures RowsListed(sorted, table)
  {
    ListedRowsAreDistinct(rows, table);
    PermutedStaysDistinct(rows, sorted);
    SameMembers(rows, sorted);
    forall i | 0 <= i < |sorted|
      ensures InTable(table, sorted[i])
    {
      assert sorted[i] in rows;
    }
    forall id, m | id in table && m in table[id]
      ensures HasRow(sorted, id, m)
    {
      assert HasRow(rows, id, m);
      var i :| 0 <= i < |rows| && CellOf(rows[i]) == (id, m);
      assert rows[i] in sorted;
    }
  }

  method Arrange(order: Orders, found: Report, ghost c: Comparison) returns (out: Report)
    requires order.Valid() && Holds(found, c)
    ensures LaysOut(order, out, c)
  {
    RowsSort(order, found.rows, c.rows);
    EntriesSort(order, found.notComparable);
    out := Report(SortBy(order.Rows(), found.rows), Dedup(SortBy(order.entries, found.notComparable)));
  }

  lemma RowsSort(order: Orders, rows: seq<Row>, table: map<CaseId, map<string, Row>>)
    requires order.Valid() && RowsListed(rows, table)
    ensures RowsListed(SortBy(order.Rows(), rows), table) && SortedBy(order.Rows(), SortBy(order.Rows(), rows))
  {
    RowOrderIsTotal(order);
    SortSorts(order.Rows(), rows);
    SortKeepsElements(order.Rows(), rows);
    PermutedStaysListed(rows, SortBy(order.Rows(), rows), table);
  }

  lemma RowOrderIsTotal(order: Orders)
    requires order.Valid()
    ensures TotalPreorder(order.Rows())
  {
    var leq, cells := order.Rows(), order.cells;
    forall a, b
      ensures leq(a, b) || leq(b, a)
    {
      assert cells(CellOf(a), CellOf(b)) || cells(CellOf(b), CellOf(a));
    }
    forall a, b, c | leq(a, b) && leq(b, c)
      ensures leq(a, c)
    {
      assert cells(CellOf(a), CellOf(b)) && cells(CellOf(b), CellOf(c));
    }
  }

  lemma EntriesSort(order: Orders, entries: seq<NotComparable>)
    requires order.Valid()
    ensures var r := Dedup(SortBy(order.entries, entries));
      Elements(r) == Elements(entries) && SortedBy(order.entries, r) && Distinct(r)
  {
    var sorted := SortBy(order.entries, entries);
    SortSorts(order.entries, entries);
    SortKeepsElements(order.entries, entries);
    SameMembers(sorted, entries);
    DedupKeepsMembers(sorted);
    DedupOfSorted(order.entries, sorted);
  }

  /** A comparison has one report. */
  lemma OneReportPerComparison(order: Orders, c: Comparison, x: Report, y: Report)
    requires order.Valid() && LaysOut(order, x, c) && LaysOut(order, y, c)
    ensures x == y
  {
    RowOrderIsTotal(order);
    SameRowsListed(c.rows, x.rows, y.rows);
    SortedIsUnique(order.Rows(), x.rows, y.rows);
    assert forall e :: e in x.notComparable <==> e in Elements(x.notComparable);
    assert forall e :: e in y.notComparable <==> e in Elements(y.notComparable);
    SortedIsUnique(order.entries, x.notComparable, y.notComparable);
  }

  lemma SameRowsListed(table: map<CaseId, map<string, Row>>, x: seq<Row>, y: seq<Row>)
    requires RowsListed(x, table) && RowsListed(y, table)
    ensures Distinct(x) && Distinct(y) && forall row :: row in x <==> row in y
  {
    ListedRowsAreDistinct(x, table);
    ListedRowsAreDistinct(y, table);
    forall row
      ensures row in x <==> row in y
    {
      ListedIffInTable(table, x, row);
      ListedIffInTable(table, y, row);
    }
  }

  lemma ListedIffInTable(table: map<CaseId, map<string, Row>>, rows: seq<Row>, row: Row)
    requires RowsListed(rows, table)
    ensures row in rows <==> InTable(table, row)
  {
    if InTable(table, row) {
      assert HasRow(rows, row.id, row.metric);
      var i :| 0 <= i < |rows| && CellOf(rows[i]) == (row.id, row.metric);
      assert InTable(table, rows[i]);
    }
  }

  ghost function LegsOf(base: Leg, head: Leg): Legs {
    Legs(GroupOf(base.records), GroupOf(head.records))
  }

  /** Why two legs are not compared at all, if they are not. */
  ghost function RefusalOf(setting: Setting, base: Leg, head: Leg, allow: set<string>): Option<CompareError> {
    First(
      GuardLegs(base, head),
      GuardFields(base.provenance.guarded, head.provenance.guarded, allow, setting.axis),
      Systemic(TalliedOver(setting, LegsOf(base, head), LegsOf(base, head).All()), setting))
  }

  function First(a: Option<CompareError>, b: Option<CompareError>, c: Option<CompareError>): Option<CompareError> {
    if a.Some? then a else if b.Some? then b else c
  }

  /** The second argument was produced as the base and the first as the head. */
  predicate Reversed(base: Leg, head: Leg) {
    base.provenance.leg == "head" && head.provenance.leg == "base"
  }

  /** The legs disagree about this field, which is neither waived nor, where the
      arms are the subject, the feature set. */
  ghost predicate Refuses(base: Leg, head: Leg, allow: set<string>, f: string) {
    var mine, theirs := base.provenance.guarded, head.provenance.guarded;
    && f in mine && mine[f] != (if f in theirs then theirs[f] else "")
    && f !in allow && !(base.provenance.axis == Arm && f == "features")
  }

  /** What the refusal of two legs says about the legs themselves, which are
      asked in this order: one directory, the arguments the wrong way round, one
      name, two axes, and the fields they disagree about. */
  ghost predicate LegsRefusedFor(refusal: Option<CompareError>, base: Leg, head: Leg, allow: set<string>) {
    && (refusal == Some(SameDirectory) <==> base.dir == head.dir)
    && (refusal == Some(WrongWayRound) <==> base.dir != head.dir && Reversed(base, head))
    && (refusal == Some(SameLeg) <==> base.dir != head.dir && base.provenance.leg == head.provenance.leg)
    && (refusal == Some(AxesDisagree) <==>
          && base.dir != head.dir && !Reversed(base, head) && base.provenance.leg != head.provenance.leg
          && base.provenance.axis != head.provenance.axis)
    && (refusal.Some? && refusal.value.NotTheSameBuild? <==>
          && base.dir != head.dir && !Reversed(base, head) && base.provenance.leg != head.provenance.leg
          && base.provenance.axis == head.provenance.axis && exists f :: Refuses(base, head, allow, f))
    && (refusal.Some? && refusal.value.NotTheSameBuild? ==>
          forall f :: f in refusal.value.fields <==> Refuses(base, head, allow, f))
  }

  lemma FieldsRefused(base: Leg, head: Leg, allow: set<string>)
    ensures var guard := GuardFields(base.provenance.guarded, head.provenance.guarded, allow, base.provenance.axis);
      && (guard.Some? <==> exists f :: Refuses(base, head, allow, f))
      && (guard.Some? ==>
            guard.value.NotTheSameBuild? && forall f :: f in guard.value.fields <==> Refuses(base, head, allow, f))
  {
    var mine, theirs, axis := base.provenance.guarded, head.provenance.guarded, base.provenance.axis;
    var refused := set f | f in Divergences(mine, theirs) && !(axis == Arm && f == FIELD_FEATURES) && f !in allow;
    forall f
      ensures f in refused <==> Refuses(base, head, allow, f)
    {
    }
    assert refused == {} <==> forall f :: f !in refused;
  }

  predicate SaidOfTheCases(e: Option<CompareError>) {
    e.Some? ==>
      || e.value.EveryDigestDiffers? || e.value.EveryBuildOneSided? || e.value.EveryBuildDiffers?
      || e.value.EveryBuildSame? || e.value.NoSharedCase?
  }

  lemma SystemicIsSaidOfTheCases(t: Tally, setting: Setting)
    ensures SaidOfTheCases(Systemic(t, setting))
  {
  }

  lemma FirstRefusal(base: Leg, head: Leg, allow: set<string>, later: Option<CompareError>)
    requires SaidOfTheCases(later)
    ensures var fields := GuardFields(base.provenance.guarded, head.provenance.guarded, allow, base.provenance.axis);
      LegsRefusedFor(First(GuardLegs(base, head), fields, later), base, head, allow)
  {
    FieldsRefused(base, head, allow);
    assert "head"[0] != "base"[0];
  }

  lemma RefusalIsOfTheLegs(setting: Setting, base: Leg, head: Leg, allow: set<string>)
    requires setting.axis == base.provenance.axis
    ensures LegsRefusedFor(RefusalOf(setting, base, head, allow), base, head, allow)
  {
    var legs := LegsOf(base, head);
    var tally := TalliedOver(setting, legs, legs.All());
    SystemicIsSaidOfTheCases(tally, setting);
    FirstRefusal(base, head, allow, Systemic(tally, setting));
  }

  /** Compares two legs. The legs themselves are refused for one directory, for
      the arguments the wrong way round, for one name, and for two axes, asked in
      that order; then for the fields they disagree about; then for what holds of
      every case. */
  method CompareLegs(judge: Judge, seed: (CaseId, string) -> Word, order: Orders,
                     base: Leg, head: Leg, allow: set<string>)
    returns (r: Result<Report, CompareError>)
    requires order.Valid()
    ensures LegsRefusedFor(if r.Err? then Some(r.error) else None, base, head, allow)
    ensures var setting := Setting(judge, seed, base.provenance.axis, "digest" in allow, "build" in allow);
      var refusal := RefusalOf(setting, base, head, allow);
      if refusal.Some? then r == Err(refusal.value)
      else r.Ok? && LaysOut(order, r.value, Compared(setting, LegsOf(base, head)))
  {
    var setting := Setting(judge, seed, base.provenance.axis, ALLOW_DIGEST in allow, ALLOW_BUILD in allow);
    RefusalIsOfTheLegs(setting, base, head, allow);
    var wrongLegs := GuardLegs(base, head);
    if wrongLegs.Some? {
      return Err(wrongLegs.value);
    }
    var wrongBuild := GuardFields(base.provenance.guarded, head.provenance.guarded, allow, setting.axis);
    if wrongBuild.Some? {
      return Err(wrongBuild.value);
    }
    var baseCases := Group(base);
    var headCases := Group(head);
    var found, tally := CompareCases(setting, Legs(baseCases, headCases));
    var systemic := Systemic(tally, setting);
    if systemic.Some? {
      return Err(systemic.value);
    }
    var out := Arrange(order, found, Compared(setting, LegsOf(base, head)));
    r := Ok(out);
  }
}
