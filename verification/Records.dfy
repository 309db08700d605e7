/** The records of a leg, loaded and grouped by case and replicate. */
module Records {
  import opened Cases
  import opened Wrappers
  import opened Decision

  datatype Axis = Commit | Arm

  /** What produced a record: which leg, what the comparison varies, and the
      guarded fields of its build and machine. `other` stands for the rest. */
  datatype Provenance = Provenance(leg: string, axis: Axis, guarded: map<string, string>, other: string)

  datatype Metric = Metric(value: Value, unit: string, higherIsBetter: bool)

  datatype Record = Record(
    id: CaseId, replicate: nat, priming: bool, iters: nat, erratic: bool,
    corpusDigest: string, buildDigest: Option<string>, metrics: map<string, Metric>, provenance: Provenance)

  datatype Leg = Leg(dir: string, provenance: Provenance, records: seq<Record>)

  datatype LoadError = DuplicateKey(at: nat) | NoRecords | MixedProvenance(at: nat)

  datatype Key = Key(id: CaseId, replicate: nat, priming: bool)

  function KeyOf(r: Record): Key {
    Key(r.id, r.replicate, r.priming)
  }

  ghost predicate UniqueKeys(records: seq<Record>) {
    forall i, j | 0 <= i < j < |records| :: KeyOf(records[i]) != KeyOf(records[j])
  }

  ghost predicate OneProvenance(records: seq<Record>) {
    forall i | 0 <= i < |records| :: records[i].provenance == records[0].provenance
  }

  /** The first record whose key an earlier one has. */
  ghost predicate FirstRepeat(records: seq<Record>, at: nat) {
    && at < |records| && UniqueKeys(records[..at])
    && exists j :: 0 <= j < at && KeyOf(records[j]) == KeyOf(records[at])
  }

  /** The first record that is of another run than the first one. */
  ghost predicate FirstStranger(records: seq<Record>, at: nat) {
    && at < |records| && records[at].provenance != records[0].provenance
    && forall j | 0 <= j < at :: records[j].provenance == records[0].provenance
  }

  /** Accepts exactly the record lists that are one run: at least one record, no
      key twice, one provenance. */
  method LoadLeg(dir: string, records: seq<Record>) returns (r: Result<Leg, LoadError>)
    ensures r.Ok? <==> records != [] && UniqueKeys(records) && OneProvenance(records)
    ensures r.Ok? ==> r.value == Leg(dir, records[0].provenance, records)
    ensures r.Err? && r.error.NoRecords? <==> records == []
    ensures r.Err? && r.error.DuplicateKey? <==> !UniqueKeys(records)
    ensures r.Err? && r.error.DuplicateKey? ==> FirstRepeat(records, r.error.at)
    ensures r.Err? && r.error.MixedProvenance? ==> FirstStranger(records, r.error.at)
  {
    var seen: set<Key> := {};
    for i := 0 to |records|
      invariant forall k :: k in seen <==> exists j :: 0 <= j < i && KeyOf(records[j]) == k
      invariant UniqueKeys(records[..i])
    {
      if KeyOf(records[i]) in seen {
        return Err(DuplicateKey(i));
      }
      seen := seen + {KeyOf(records[i])};
    }
    assert records[..|records|] == records;
    if records == [] {
      return Err(NoRecords);
    }
    for i := 0 to |records|
      invariant forall j | 0 <= j < i :: records[j].provenance == records[0].provenance
    {
      if records[i].provenance != records[0].provenance {
        return Err(MixedProvenance(i));
      }
    }
    r := Ok(Leg(dir, records[0].provenance, records));
  }

  // ---- grouping ----

  type Replicas = map<nat, Record>
  type Groups = map<CaseId, Replicas>

  function Held(groups: Groups, id: CaseId): Replicas {
    if id in groups then groups[id] else map[]
  }

  /** Adds one record, unless it is a priming pass. */
  function AddRecord(groups: Groups, r: Record): Groups {
    if r.priming then groups
    else groups[r.id := Held(groups, r.id)[r.replicate := r]]
  }

  /** Non-priming records by case and replicate, a later one replacing an
      earlier one of the same key. */
  function GroupOf(records: seq<Record>): Groups {
    if records == [] then map[]
    else AddRecord(GroupOf(records[..|records| - 1]), records[|records| - 1])
  }

  method Group(leg: Leg) returns (out: Groups)
    ensures out == GroupOf(leg.records)
  {
    out := map[];
    for i := 0 to |leg.records|
      invariant out == GroupOf(leg.records[..i])
    {
      assert leg.records[..i + 1][..i] == leg.records[..i];
      var record := leg.records[i];
      if !record.priming {
        var reps := Held(out, record.id);
        out := out[record.id := reps[record.replicate := record]];
      }
    }
    assert leg.records[..|leg.records|] == leg.records;
  }

  ghost predicate Grouped(groups: Groups, r: Record) {
    r.id in groups && r.replicate in groups[r.id] && groups[r.id][r.replicate] == r
  }

  /** No case without replicates, and every record under its own key. */
  ghost predicate WellGrouped(groups: Groups) {
    forall id | id in groups ::
      groups[id] != map[] &&
      forall k | k in groups[id] ::
        groups[id][k].id == id && groups[id][k].replicate == k && !groups[id][k].priming
  }

  lemma {:induction false} GroupIsWellGrouped(records: seq<Record>)
    ensures WellGrouped(GroupOf(records))
  {
    if records != [] {
      var r := records[|records| - 1];
      GroupIsWellGrouped(records[..|records| - 1]);
      assert !r.priming ==> r.replicate in GroupOf(records)[r.id];
    }
  }

  lemma {:induction false} GroupHoldsOnlyRecords(records: seq<Record>, r: Record)
    requires Grouped(GroupOf(records), r)
    ensures r in records && !r.priming
  {
    var n := |records| - 1;
    if records != [] && !(r == records[n] && !r.priming) {
      GroupHoldsOnlyRecords(records[..n], r);
    }
  }

  lemma {:induction false} GroupHoldsEveryRecord(records: seq<Record>, r: Record)
    requires UniqueKeys(records) && r in records && !r.priming
    ensures Grouped(GroupOf(records), r)
  {
    var n := |records| - 1;
    if r != records[n] {
      var i :| 0 <= i < n && records[i] == r;
      assert KeyOf(records[i]) != KeyOf(records[n]);
      assert r in records[..n];
      GroupHoldsEveryRecord(records[..n], r);
    }
  }

  ghost predicate SameMeasured(xs: seq<Record>, ys: seq<Record>) {
    forall r: Record | !r.priming :: r in xs <==> r in ys
  }

  /** Two legs holding the same measured records group alike, in whatever order
      they were written and whatever priming passes they hold. */
  lemma GroupingIgnoresOrderAndPriming(xs: seq<Record>, ys: seq<Record>)
    requires UniqueKeys(xs) && UniqueKeys(ys) && SameMeasured(xs, ys)
    ensures GroupOf(xs) == GroupOf(ys)
  {
    GroupIsWellGrouped(xs);
    GroupIsWellGrouped(ys);
    GroupedInBoth(xs, ys);
    GroupedInBoth(ys, xs);
    var g, h := GroupOf(xs), GroupOf(ys);
    forall id | id in g
      ensures id in h && g[id] == h[id]
    {
      SameReplicas(g, h, id);
    }
    forall id | id in h
      ensures id in g
    {
      SameReplicas(h, g, id);
    }
  }

  lemma GroupedInBoth(xs: seq<Record>, ys: seq<Record>)
    requires UniqueKeys(ys) && SameMeasured(xs, ys)
    ensures forall r: Record | Grouped(GroupOf(xs), r) :: Grouped(GroupOf(ys), r)
  {
    forall r: Record | Grouped(GroupOf(xs), r)
      ensures Grouped(GroupOf(ys), r)
    {
      GroupHoldsOnlyRecords(xs, r);
      GroupHoldsEveryRecord(ys, r);
    }
  }

  lemma SameReplicas(g: Groups, h: Groups, id: CaseId)
    requires WellGrouped(g) && WellGrouped(h) && id in g
    requires forall r: Record | Grouped(g, r) :: Grouped(h, r)
    requires forall r: Record | Grouped(h, r) :: Grouped(g, r)
    ensures id in h && g[id] == h[id]
  {
    var k :| k in g[id];
    assert Grouped(g, g[id][k]);
    forall k | k in g[id]
      ensures k in h[id] && h[id][k] == g[id][k]
    {
      assert Grouped(g, g[id][k]);
    }
    forall k | k in h[id]
      ensures k in g[id]
    {
      assert Grouped(h, h[id][k]);
    }
  }
}
