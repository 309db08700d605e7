/** A scheduled run handed to the comparison, cut after any number of
    measurements. */
module CutRuns {
  import opened Cases
  import opened Wrappers
  import opened Records
  import opened Arithmetic
  import opened CaseCompare
  import opened Compare
  import opened GuardLaws
  import Schedule

  /** A measurement filled in with what was measured; its case, replicate, kind
      and count are the ones scheduled. */
  type Fill = Schedule.Record -> Record

  ghost predicate Faithful(fill: Fill) {
    forall r: Schedule.Record ::
      var s := fill(r);
      s.id == r.id && s.replicate == r.replicate && s.priming == r.priming && s.iters == r.iters
  }

  /** What one leg's file holds after `done` measurements. */
  ghost function File(plan: Schedule.Plan, fill: Fill, leg: Schedule.LegName, done: nat): (f: seq<Record>)
    requires plan.Valid()
    ensures |f| == |plan.Written(leg, done)|
  {
    var w := plan.Written(leg, done);
    seq(|w|, i requires 0 <= i < |w| => fill(w[i]))
  }

  /** Both files of a run cut anywhere load: no key is written twice. */
  lemma CutRunLoads(plan: Schedule.Plan, fill: Fill, leg: Schedule.LegName, done: nat)
    requires plan.Valid() && Faithful(fill)
    ensures UniqueKeys(File(plan, fill, leg, done))
  {
    var w, f := plan.Written(leg, done), File(plan, fill, leg, done);
    forall i, k | 0 <= i < k < |f|
      ensures KeyOf(f[i]) != KeyOf(f[k])
    {
      Schedule.KeysAreUniquePerLeg(plan, leg, done, i, k);
      assert f[i] == fill(w[i]) && f[k] == fill(w[k]);
    }
  }

  ghost function Kept(plan: Schedule.Plan, fill: Fill, leg: Schedule.LegName, done: nat, id: CaseId): Replicas
    requires plan.Valid()
  {
    Held(GroupOf(File(plan, fill, leg, done)), id)
  }

  lemma RecordIsScheduled(plan: Schedule.Plan, fill: Fill, leg: Schedule.LegName, done: nat, r: Record)
    requires plan.Valid() && Faithful(fill) && r in File(plan, fill, leg, done)
    ensures Schedule.Measured(plan, leg, done, Schedule.Key(r.id, r.replicate, r.priming))
    ensures r.id in plan.iters && r.iters == plan.iters[r.id]
  {
    var w, f := plan.Written(leg, done), File(plan, fill, leg, done);
    var i :| 0 <= i < |f| && f[i] == r;
    assert r == fill(w[i]);
    assert Schedule.KeyOf(w[i]) == Schedule.Key(r.id, r.replicate, r.priming);
    var j := Schedule.Position(plan, leg, done, i);
  }

  /** The comparison finds a replicate in a file exactly when it was taken. */
  lemma HeldIffScheduled(plan: Schedule.Plan, fill: Fill, leg: Schedule.LegName, done: nat, id: CaseId, k: nat)
    requires plan.Valid() && Faithful(fill)
    ensures k in Kept(plan, fill, leg, done, id) <==> Schedule.Measured(plan, leg, done, Schedule.Key(id, k, false))
  {
    var w, f := plan.Written(leg, done), File(plan, fill, leg, done);
    CutRunLoads(plan, fill, leg, done);
    if k in Kept(plan, fill, leg, done, id) {
      HeldIsARecord(f, id, k);
      RecordIsScheduled(plan, fill, leg, done, Kept(plan, fill, leg, done, id)[k]);
    }
    if Schedule.Measured(plan, leg, done, Schedule.Key(id, k, false)) {
      var i: nat :| i < |w| && Schedule.KeyOf(w[i]) == Schedule.Key(id, k, false);
      assert f[i] == fill(w[i]);
      GroupHoldsEveryRecord(f, f[i]);
    }
  }

  lemma HeldIsARecord(records: seq<Record>, id: CaseId, k: nat)
    requires k in Held(GroupOf(records), id)
    ensures var r := Held(GroupOf(records), id)[k]; r in records && r.id == id && r.replicate == k && !r.priming
  {
    var r := Held(GroupOf(records), id)[k];
    GroupIsWellGrouped(records);
    assert Grouped(GroupOf(records), r);
    GroupHoldsOnlyRecords(records, r);
  }

  /** In the whole of a run cut anywhere at most one replicate of one case is
      left without its partner: the last one taken, when the count is odd. */
  lemma CutRunLeavesOneUnpaired(plan: Schedule.Plan, fill: Fill, done: nat, id: CaseId, k: nat)
    requires plan.Valid() && Faithful(fill)
    ensures (k in Kept(plan, fill, Schedule.Base, done, id)) != (k in Kept(plan, fill, Schedule.Head, done, id))
       <==> done % 2 == 1 && Schedule.KeyOf(plan.At(done - 1)) == Schedule.Key(id, k, false)
  {
    HeldIffScheduled(plan, fill, Schedule.Base, done, id, k);
    HeldIffScheduled(plan, fill, Schedule.Head, done, id, k);
    Schedule.AtMostOneKeyIsUnpaired(plan, done, Schedule.Key(id, k, false));
  }

  ghost predicate EndsInside(plan: Schedule.Plan, done: nat, id: CaseId)
    requires plan.Valid()
  {
    done % 2 == 1 && plan.At(done - 1).id == id && !plan.At(done - 1).priming
  }

  lemma OddOneOut(plan: Schedule.Plan, fill: Fill, done: nat, id: CaseId)
    requires plan.Valid() && Faithful(fill)
    ensures var b, h := Kept(plan, fill, Schedule.Base, done, id), Kept(plan, fill, Schedule.Head, done, id);
      b.Keys + h.Keys - b.Keys * h.Keys == if EndsInside(plan, done, id) then {plan.At(done - 1).replicate} else {}
  {
    var b, h := Kept(plan, fill, Schedule.Base, done, id), Kept(plan, fill, Schedule.Head, done, id);
    forall k: nat
      ensures k in b.Keys + h.Keys - b.Keys * h.Keys <==> EndsInside(plan, done, id) && k == plan.At(done - 1).replicate
    {
      CutRunLeavesOneUnpaired(plan, fill, done, id, k);
    }
  }

  lemma OneCountOnBothLegs(plan: Schedule.Plan, fill: Fill, done: nat, id: CaseId, i: nat, j: nat)
    requires plan.Valid() && Faithful(fill)
    requires i in Kept(plan, fill, Schedule.Base, done, id) && j in Kept(plan, fill, Schedule.Head, done, id)
    ensures ItersGate(id, Kept(plan, fill, Schedule.Base, done, id), Kept(plan, fill, Schedule.Head, done, id)).passes
  {
    var b, h := Kept(plan, fill, Schedule.Base, done, id), Kept(plan, fill, Schedule.Head, done, id);
    HeldAtThePinnedCount(plan, fill, Schedule.Base, done, id);
    HeldAtThePinnedCount(plan, fill, Schedule.Head, done, id);
    ItersConstant(b, i);
    ItersConstant(h, j);
    ItersGatePasses(id, b, h, i, j);
  }

  lemma HeldAtThePinnedCount(plan: Schedule.Plan, fill: Fill, leg: Schedule.LegName, done: nat, id: CaseId)
    requires plan.Valid() && Faithful(fill)
    ensures forall k | k in Kept(plan, fill, leg, done, id) ::
      id in plan.iters && Kept(plan, fill, leg, done, id)[k].iters == plan.iters[id]
  {
    forall k | k in Kept(plan, fill, leg, done, id)
      ensures id in plan.iters && Kept(plan, fill, leg, done, id)[k].iters == plan.iters[id]
    {
      HeldIsARecord(File(plan, fill, leg, done), id, k);
      RecordIsScheduled(plan, fill, leg, done, Kept(plan, fill, leg, done, id)[k]);
    }
  }

  ghost function UnpairedEntry(plan: Schedule.Plan, done: nat, id: CaseId): NotComparable
    requires plan.Valid() && done > 0
  {
    NotComparable(WholeCase(id), Unpaired({plan.At(done - 1).replicate}), Other)
  }

  /** What the last two guards say of a case of a cut run. */
  lemma CutRunPairs(plan: Schedule.Plan, fill: Fill, done: nat, id: CaseId)
    requires plan.Valid() && Faithful(fill)
    ensures var b, h := Kept(plan, fill, Schedule.Base, done, id), Kept(plan, fill, Schedule.Head, done, id);
      && (b != map[] && h != map[] ==> ItersGate(id, b, h) == Gate(None, true))
      && PairingGate(id, b, h).entry
         == if EndsInside(plan, done, id) then Some(UnpairedEntry(plan, done, id)) else None
  {
    var b, h := Kept(plan, fill, Schedule.Base, done, id), Kept(plan, fill, Schedule.Head, done, id);
    OddOneOut(plan, fill, done, id);
    if b != map[] && h != map[] {
      var i, j :| i in b && j in h;
      OneCountOnBothLegs(plan, fill, done, id, i, j);
    }
  }

  ghost function LegsAt(plan: Schedule.Plan, fill: Fill, done: nat): Legs
    requires plan.Valid()
  {
    Legs(GroupOf(File(plan, fill, Schedule.Base, done)), GroupOf(File(plan, fill, Schedule.Head, done)))
  }

  /** The run was cut inside the first measured pair of this case. */
  ghost predicate EndsInFirstPair(plan: Schedule.Plan, done: nat, id: CaseId)
    requires plan.Valid()
  {
    EndsInside(plan, done, id) && plan.At(done - 1).replicate == 0
  }

  /** A case whose later replicate was begun has its first on some leg. */
  lemma FirstReplicateCameBefore(plan: Schedule.Plan, done: nat, id: CaseId) returns (leg: Schedule.LegName)
    requires plan.Valid() && done > 0 && plan.At(done - 1).id == id
    requires !plan.At(done - 1).priming && plan.At(done - 1).replicate > 0
    ensures Schedule.Measured(plan, leg, done, Schedule.Key(id, 0, false))
  {
    var m, p := |plan.cases|, (done - 1) / 2;
    var i := p % m;
    DivMod(p, m);
    MulStep(m, 1, plan.Round(p));
    Schedule.RoundRecords(plan, 1, i);
    var j := 2 * (m * 1 + i);
    leg := plan.At(j).leg;
    Schedule.MeasuredIffTaken(plan, leg, done, Schedule.Key(id, 0, false));
  }

  lemma KeptIffGrouped(plan: Schedule.Plan, fill: Fill, leg: Schedule.LegName, done: nat, id: CaseId)
    requires plan.Valid()
    ensures id in GroupOf(File(plan, fill, leg, done)) <==> Kept(plan, fill, leg, done, id) != map[]
  {
    GroupIsWellGrouped(File(plan, fill, leg, done));
  }

  lemma NoLaterReplicate(plan: Schedule.Plan, fill: Fill, leg: Schedule.LegName, done: nat, id: CaseId, k: nat)
    requires plan.Valid() && Faithful(fill) && EndsInFirstPair(plan, done, id)
    requires k in Kept(plan, fill, leg, done, id)
    ensures k == 0
  {
    HeldIffScheduled(plan, fill, leg, done, id, k);
    Schedule.MeasuredIffTaken(plan, leg, done, Schedule.Key(id, k, false));
    var j: nat :| j < done && plan.At(j).leg == leg && Schedule.KeyOf(plan.At(j)) == Schedule.Key(id, k, false);
    Schedule.RoundsInOrder(plan, j / 2, (done - 1) / 2);
  }

  lemma OnlyOneLegHolds(plan: Schedule.Plan, fill: Fill, done: nat, id: CaseId)
    requires plan.Valid() && Faithful(fill) && EndsInFirstPair(plan, done, id)
    ensures Kept(plan, fill, Schedule.Base, done, id) == map[] || Kept(plan, fill, Schedule.Head, done, id) == map[]
  {
    var b, h := Kept(plan, fill, Schedule.Base, done, id), Kept(plan, fill, Schedule.Head, done, id);
    CutRunLeavesOneUnpaired(plan, fill, done, id, 0);
    forall k | k in b
      ensures k == 0
    {
      NoLaterReplicate(plan, fill, Schedule.Base, done, id, k);
    }
    forall k | k in h
      ensures k == 0
    {
      NoLaterReplicate(plan, fill, Schedule.Head, done, id, k);
    }
  }

  /** Which cases of a cut run both legs hold. */
  lemma SharedUnlessCutInFirstPair(plan: Schedule.Plan, fill: Fill, done: nat, id: CaseId)
    requires plan.Valid() && Faithful(fill) && id in LegsAt(plan, fill, done).All()
    ensures id in LegsAt(plan, fill, done).Shared() <==> !EndsInFirstPair(plan, done, id)
  {
    var b, h := Kept(plan, fill, Schedule.Base, done, id), Kept(plan, fill, Schedule.Head, done, id);
    KeptIffGrouped(plan, fill, Schedule.Base, done, id);
    KeptIffGrouped(plan, fill, Schedule.Head, done, id);
    OddOneOut(plan, fill, done, id);
    if EndsInFirstPair(plan, done, id) {
      OnlyOneLegHolds(plan, fill, done, id);
    } else if EndsInside(plan, done, id) {
      var leg := FirstReplicateCameBefore(plan, done, id);
      HeldIffScheduled(plan, fill, leg, done, id, 0);
      CutRunLeavesOneUnpaired(plan, fill, done, id, 0);
      assert 0 in b && 0 in h;
    } else {
      var k :| k in b || k in h;
      CutRunLeavesOneUnpaired(plan, fill, done, id, k);
      assert k in b && k in h;
    }
  }

  /** What the guards disclose of a shared case of a cut run: what its corpora and
      builds give, and the one replicate cut from its partner if it is this
      case's; never its iteration counts. */
  lemma SharedCaseOfACutRun(setting: Setting, plan: Schedule.Plan, fill: Fill, done: nat, id: CaseId)
    requires plan.Valid() && Faithful(fill) && id in LegsAt(plan, fill, done).Shared()
    ensures var b, h := Kept(plan, fill, Schedule.Base, done, id), Kept(plan, fill, Schedule.Head, done, id);
      var digest, build := DigestGate(setting, id, b, h), BuildGate(setting, id, b, h);
      var unpaired := if EndsInside(plan, done, id) then {UnpairedEntry(plan, done, id)} else {};
      GuardEntries(setting, id, b, h)
      == if !digest.passes then Disclosed(digest)
         else if !build.passes then Disclosed(digest) + Disclosed(build)
         else Disclosed(digest) + Disclosed(build) + unpaired
  {
    KeptIffGrouped(plan, fill, Schedule.Base, done, id);
    KeptIffGrouped(plan, fill, Schedule.Head, done, id);
    CutRunPairs(plan, fill, done, id);
  }

  /** Comparing a run cut anywhere: a case cut inside its first measured pair is
      on one leg only and says exactly that; every other case of the run is on
      both legs, and is disclosed, beside what its corpora, builds and metrics
      give, exactly for the one replicate the cut left without its partner. */
  lemma CutRunDiscloses(setting: Setting, plan: Schedule.Plan, fill: Fill, done: nat, id: CaseId, e: NotComparable)
    requires plan.Valid() && Faithful(fill) && id in LegsAt(plan, fill, done).All()
    ensures var legs := LegsAt(plan, fill, done);
      var entries := Compared(setting, legs).entries[id];
      if EndsInFirstPair(plan, done, id) then
        id !in legs.Shared() && entries == {NotComparable(WholeCase(id), PresentOnOneLeg, Other)}
      else
        && id in legs.Shared()
        && (e in entries ==> !e.why.PresentOnOneLeg? && !e.why.ItersDiffer?)
        && (e in entries && e.why.Unpaired? ==> EndsInside(plan, done, id) && e == UnpairedEntry(plan, done, id))
        && (EndsInside(plan, done, id) && DigestGate(setting, id, legs.base[id], legs.head[id]).passes
              && BuildGate(setting, id, legs.base[id], legs.head[id]).passes
            ==> UnpairedEntry(plan, done, id) in entries)
  {
    var legs := LegsAt(plan, fill, done);
    SharedUnlessCutInFirstPair(plan, fill, done, id);
    if !EndsInFirstPair(plan, done, id) {
      SharedCaseOfACutRun(setting, plan, fill, done, id);
      EntryIsAGuardsOrAMetrics(setting, id, legs.base[id], legs.head[id], e);
      GatesSayTheirOwn(setting, id, legs.base[id], legs.head[id], e);
    }
  }

  lemma EntryIsAGuardsOrAMetrics(setting: Setting, id: CaseId, b: Replicas, h: Replicas, e: NotComparable)
    ensures GuardEntries(setting, id, b, h) <= CaseEntries(setting, id, b, h)
    ensures e in CaseEntries(setting, id, b, h) ==>
      e in GuardEntries(setting, id, b, h) || e.why == RefusedByTheRule || e.why == MetricMissing
  {
  }

  lemma GatesSayTheirOwn(setting: Setting, id: CaseId, b: Replicas, h: Replicas, e: NotComparable)
    ensures DigestGate(setting, id, b, h).entry == Some(e) ==> e.why == DigestWithinLeg || e.why == DigestDiffers
    ensures BuildGate(setting, id, b, h).entry == Some(e) ==>
      e.why == BuildWithinLeg || e.why == BuildOneSided || e.why == BuildSame || e.why == BuildDiffers
  {
  }
}
