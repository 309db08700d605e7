/** What the guards let through: the cases that reach their metrics, the fields
    two builds may differ in, and what the counters behind a refusal mean. */
module GuardLaws {
  import opened Cases
  import opened Wrappers
  import opened Sets
  import opened Records
  import opened CaseCompare
  import opened Compare
  import opened Fingerprints

  // ---- one case ----

  /** What the axis wants of the two declared builds. */
  predicate RightBuilds(axis: Axis, base: Option<string>, head: Option<string>) {
    match axis
    case Commit => base == head
    case Arm => (base.None? && head.None?) || (base.Some? && head.Some? && base != head)
  }

  /** Every replicate of a leg measured the same bytes, the same build and the
      same number of iterations as this one. */
  ghost predicate Constant(reps: Replicas, x: Record) {
    forall k | k in reps ::
      && reps[k].corpusDigest == x.corpusDigest
      && reps[k].buildDigest == x.buildDigest
      && reps[k].iters == x.iters
  }

  /** A case is compared when each leg is constant, the legs agree as the axis
      asks or as waived, and some replicate was taken on both. */
  ghost predicate Fit(setting: Setting, b: Replicas, h: Replicas, x: Record, y: Record) {
    && Constant(b, x) && Constant(h, y)
    && (setting.allowDigest || x.corpusDigest == y.corpusDigest)
    && (setting.allowBuild || RightBuilds(setting.axis, x.buildDigest, y.buildDigest))
    && x.iters == y.iters
    && exists k :: k in b && k in h
  }

  lemma SingletonIff<T>(s: set<T>, x: T)
    requires x in s
    ensures |s| == 1 <==> s == {x}
  {
    if |s| == 1 {
      assert |s - {x}| == 0;
      assert s == s - {x} + {x};
    }
  }

  lemma DigestsConstant(reps: Replicas, k: nat)
    requires k in reps
    ensures |Digests(reps)| == 1 <==> Digests(reps) == {reps[k].corpusDigest}
    ensures |Digests(reps)| == 1 <==> forall j | j in reps :: reps[j].corpusDigest == reps[k].corpusDigest
  {
    assert reps[k].corpusDigest in Digests(reps);
    SingletonIff(Digests(reps), reps[k].corpusDigest);
    if Digests(reps) == {reps[k].corpusDigest} {
      forall j | j in reps
        ensures reps[j].corpusDigest == reps[k].corpusDigest
      {
        assert reps[j].corpusDigest in Digests(reps);
      }
    }
  }

  lemma BuildsConstant(reps: Replicas, k: nat)
    requires k in reps
    ensures |Builds(reps)| == 1 <==> Builds(reps) == {reps[k].buildDigest}
    ensures |Builds(reps)| == 1 <==> forall j | j in reps :: reps[j].buildDigest == reps[k].buildDigest
  {
    assert reps[k].buildDigest in Builds(reps);
    SingletonIff(Builds(reps), reps[k].buildDigest);
    if Builds(reps) == {reps[k].buildDigest} {
      forall j | j in reps
        ensures reps[j].buildDigest == reps[k].buildDigest
      {
        assert reps[j].buildDigest in Builds(reps);
      }
    }
  }

  lemma ItersConstant(reps: Replicas, k: nat)
    requires k in reps
    ensures |IterCounts(reps)| == 1 <==> IterCounts(reps) == {reps[k].iters}
    ensures |IterCounts(reps)| == 1 <==> forall j | j in reps :: reps[j].iters == reps[k].iters
  {
    assert reps[k].iters in IterCounts(reps);
    SingletonIff(IterCounts(reps), reps[k].iters);
    if IterCounts(reps) == {reps[k].iters} {
      forall j | j in reps
        ensures reps[j].iters == reps[k].iters
      {
        assert reps[j].iters in IterCounts(reps);
      }
    }
  }

  lemma SingletonsAgree<T>(x: T, y: T)
    ensures {x} == {y} <==> x == y
  {
    if {x} == {y} {
      assert x in {y};
    }
  }

  lemma DigestGatePasses(setting: Setting, id: CaseId, b: Replicas, h: Replicas, i: nat, j: nat)
    requires i in b && j in h
    ensures DigestGate(setting, id, b, h).passes <==>
      && |Digests(b)| == 1 && |Digests(h)| == 1
      && (setting.allowDigest || b[i].corpusDigest == h[j].corpusDigest)
  {
    DigestsConstant(b, i);
    DigestsConstant(h, j);
    SingletonsAgree(b[i].corpusDigest, h[j].corpusDigest);
  }

  /** Which builds are wrong, where each leg declares one thing. */
  lemma WrongIffNotRight(axis: Axis, b: Replicas, h: Replicas, i: nat, j: nat)
    requires i in b && j in h && !BuildsWithin(b, h)
    ensures BuildsWrong(axis, b, h) <==> !RightBuilds(axis, b[i].buildDigest, h[j].buildDigest)
  {
    OneSidedIff(b, h, i, j);
  }

  lemma BuildGatePasses(setting: Setting, id: CaseId, b: Replicas, h: Replicas, i: nat, j: nat)
    requires i in b && j in h
    ensures BuildGate(setting, id, b, h).passes <==>
      && |Builds(b)| == 1 && |Builds(h)| == 1
      && (setting.allowBuild || RightBuilds(setting.axis, b[i].buildDigest, h[j].buildDigest))
  {
    if !BuildsWithin(b, h) {
      WrongIffNotRight(setting.axis, b, h, i, j);
    }
  }

  lemma ItersGatePasses(id: CaseId, b: Replicas, h: Replicas, i: nat, j: nat)
    requires i in b && j in h
    ensures ItersGate(id, b, h).passes <==>
      |IterCounts(b)| == 1 && |IterCounts(h)| == 1 && b[i].iters == h[j].iters
  {
    ItersConstant(b, i);
    ItersConstant(h, j);
    SingletonsAgree(b[i].iters, h[j].iters);
  }

  lemma ConstantIff(reps: Replicas, k: nat)
    requires k in reps
    ensures Constant(reps, reps[k]) <==> |Digests(reps)| == 1 && |Builds(reps)| == 1 && |IterCounts(reps)| == 1
  {
    DigestsConstant(reps, k);
    BuildsConstant(reps, k);
    ItersConstant(reps, k);
  }

  /** A case both legs hold reaches its metrics exactly when it fits, whichever
      replicates are looked at to say so. */
  lemma ReachedIffFit(setting: Setting, id: CaseId, b: Replicas, h: Replicas, i: nat, j: nat)
    requires i in b && j in h
    ensures Reached(setting, id, b, h) <==> Fit(setting, b, h, b[i], h[j])
  {
    DigestGatePasses(setting, id, b, h, i, j);
    BuildGatePasses(setting, id, b, h, i, j);
    ItersGatePasses(id, b, h, i, j);
    ConstantIff(b, i);
    ConstantIff(h, j);
    CommonReplicate(b, h);
  }

  lemma CommonReplicate(b: Replicas, h: Replicas)
    ensures b.Keys * h.Keys != {} <==> exists k :: k in b && k in h
  {
    assert forall k | k in b && k in h :: k in b.Keys * h.Keys;
    if b.Keys * h.Keys != {} {
      var k :| k in b.Keys * h.Keys;
      assert k in b && k in h;
    }
  }

  // ---- what a guard discloses ----

  ghost predicate OneDigest(reps: Replicas, x: Record) {
    forall k | k in reps :: reps[k].corpusDigest == x.corpusDigest
  }

  ghost predicate OneBuild(reps: Replicas, x: Record) {
    forall k | k in reps :: reps[k].buildDigest == x.buildDigest
  }

  ghost predicate OneIters(reps: Replicas, x: Record) {
    forall k | k in reps :: reps[k].iters == x.iters
  }

  /** The entry is true of the records, and its cause says what became of the
      case; `x` and `y` are any record of either leg. */
  ghost predicate TrueOf(
    e: NotComparable, setting: Setting, id: CaseId, b: Replicas, h: Replicas, x: Record, y: Record)
  {
    && e.what == WholeCase(id)
    && match e.why {
      case DigestWithinLeg => !(OneDigest(b, x) && OneDigest(h, y)) && e.cause == DigestLeftOut
      case DigestDiffers =>
        && OneDigest(b, x) && OneDigest(h, y) && x.corpusDigest != y.corpusDigest
        && e.cause == if setting.allowDigest then DigestCompared else DigestLeftOut
      case BuildWithinLeg => !(OneBuild(b, x) && OneBuild(h, y)) && e.cause == BuildLeftOut
      case BuildOneSided =>
        && OneBuild(b, x) && OneBuild(h, y) && x.buildDigest.Some? != y.buildDigest.Some?
        && e.cause == if setting.allowBuild then BuildCompared else BuildLeftOut
      case BuildSame =>
        && OneBuild(b, x) && OneBuild(h, y) && setting.axis == Arm
        && x.buildDigest.Some? && x.buildDigest == y.buildDigest
        && e.cause == if setting.allowBuild then BuildSameCompared else BuildSameLeftOut
      case BuildDiffers =>
        && OneBuild(b, x) && OneBuild(h, y) && setting.axis == Commit
        && x.buildDigest.Some? && y.buildDigest.Some? && x.buildDigest != y.buildDigest
        && e.cause == if setting.allowBuild then BuildCompared else BuildLeftOut
      case ItersDiffer => !(OneIters(b, x) && OneIters(h, y) && x.iters == y.iters) && e.cause == Other
      case Unpaired(ks) => ks != {} && (forall k :: k in ks <==> (k in b) != (k in h)) && e.cause == Other
      case _ => false
    }
  }

  lemma DigestEntryIsTrue(setting: Setting, id: CaseId, b: Replicas, h: Replicas, i: nat, j: nat)
    requires i in b && j in h
    ensures var entry := DigestGate(setting, id, b, h).entry;
      && (entry.None? <==> OneDigest(b, b[i]) && OneDigest(h, h[j]) && b[i].corpusDigest == h[j].corpusDigest)
      && (entry.Some? ==> TrueOf(entry.value, setting, id, b, h, b[i], h[j]))
  {
    DigestsConstant(b, i);
    DigestsConstant(h, j);
    SingletonsAgree(b[i].corpusDigest, h[j].corpusDigest);
  }

  lemma BuildEntryIsTrue(setting: Setting, id: CaseId, b: Replicas, h: Replicas, i: nat, j: nat)
    requires i in b && j in h
    ensures var entry := BuildGate(setting, id, b, h).entry;
      && (entry.None? <==>
            OneBuild(b, b[i]) && OneBuild(h, h[j]) && RightBuilds(setting.axis, b[i].buildDigest, h[j].buildDigest))
      && (entry.Some? ==> TrueOf(entry.value, setting, id, b, h, b[i], h[j]))
  {
    BuildsConstant(b, i);
    BuildsConstant(h, j);
    if !BuildsWithin(b, h) {
      WrongIffNotRight(setting.axis, b, h, i, j);
      OneSidedIff(b, h, i, j);
    }
  }

  lemma OneSidedIff(b: Replicas, h: Replicas, i: nat, j: nat)
    requires i in b && j in h && !BuildsWithin(b, h)
    ensures BuildsOneSided(b, h) <==> b[i].buildDigest.Some? != h[j].buildDigest.Some?
    ensures BuildsAgree(b, h) <==> b[i].buildDigest == h[j].buildDigest
    ensures DeclaredAnything(b, h) <==> b[i].buildDigest.Some? || h[j].buildDigest.Some?
  {
    BuildsConstant(b, i);
    BuildsConstant(h, j);
    var u, v := b[i].buildDigest, h[j].buildDigest;
    SingletonsAgree(u, v);
    SingletonsAgree(u, None);
    SingletonsAgree(v, None);
    assert u in Builds(b) + Builds(h) && v in Builds(b) + Builds(h);
  }

  lemma ItersEntryIsTrue(setting: Setting, id: CaseId, b: Replicas, h: Replicas, i: nat, j: nat)
    requires i in b && j in h
    ensures var entry := ItersGate(id, b, h).entry;
      && (entry.None? <==> OneIters(b, b[i]) && OneIters(h, h[j]) && b[i].iters == h[j].iters)
      && (entry.Some? ==> TrueOf(entry.value, setting, id, b, h, b[i], h[j]))
  {
    ItersConstant(b, i);
    ItersConstant(h, j);
    SingletonsAgree(b[i].iters, h[j].iters);
  }

  lemma PairingEntryIsTrue(setting: Setting, id: CaseId, b: Replicas, h: Replicas, x: Record, y: Record)
    ensures var entry := PairingGate(id, b, h).entry;
      && (entry.None? <==> b.Keys == h.Keys)
      && (entry.Some? ==> TrueOf(entry.value, setting, id, b, h, x, y))
  {
    var unpaired := b.Keys + h.Keys - b.Keys * h.Keys;
    assert forall k :: k in unpaired <==> (k in b) != (k in h);
    if unpaired == {} {
      assert forall k | k in b.Keys + h.Keys :: k !in unpaired;
    }
  }

  ghost predicate CorporaPass(setting: Setting, b: Replicas, h: Replicas, x: Record, y: Record) {
    OneDigest(b, x) && OneDigest(h, y) && (setting.allowDigest || x.corpusDigest == y.corpusDigest)
  }

  ghost predicate BuildsPass(setting: Setting, b: Replicas, h: Replicas, x: Record, y: Record) {
    && OneBuild(b, x) && OneBuild(h, y)
    && (setting.allowBuild || RightBuilds(setting.axis, x.buildDigest, y.buildDigest))
  }

  ghost predicate ItersPass(b: Replicas, h: Replicas, x: Record, y: Record) {
    OneIters(b, x) && OneIters(h, y) && x.iters == y.iters
  }

  /** The guard this reason belongs to is asked: the corpus always, the builds of
      a case whose corpora pass, the counts of one whose builds pass too, the
      pairing of one that passes all three. */
  ghost predicate GuardAsked(why: Why, setting: Setting, b: Replicas, h: Replicas, x: Record, y: Record) {
    match why
    case DigestWithinLeg => true
    case DigestDiffers => true
    case BuildWithinLeg => CorporaPass(setting, b, h, x, y)
    case BuildOneSided => CorporaPass(setting, b, h, x, y)
    case BuildSame => CorporaPass(setting, b, h, x, y)
    case BuildDiffers => CorporaPass(setting, b, h, x, y)
    case ItersDiffer => CorporaPass(setting, b, h, x, y) && BuildsPass(setting, b, h, x, y)
    case Unpaired(_) => CorporaPass(setting, b, h, x, y) && BuildsPass(setting, b, h, x, y) && ItersPass(b, h, x, y)
    case _ => false
  }

  lemma DigestSaysExactly(setting: Setting, id: CaseId, b: Replicas, h: Replicas, i: nat, j: nat, e: NotComparable)
    requires i in b && j in h
    ensures DigestGate(setting, id, b, h).passes == CorporaPass(setting, b, h, b[i], h[j])
    ensures DigestGate(setting, id, b, h).entry == Some(e) <==>
      (e.why.DigestWithinLeg? || e.why.DigestDiffers?) && TrueOf(e, setting, id, b, h, b[i], h[j])
  {
    DigestGatePasses(setting, id, b, h, i, j);
    DigestEntryIsTrue(setting, id, b, h, i, j);
    DigestsConstant(b, i);
    DigestsConstant(h, j);
  }

  lemma BuildSaysExactly(setting: Setting, id: CaseId, b: Replicas, h: Replicas, i: nat, j: nat, e: NotComparable)
    requires i in b && j in h
    ensures BuildGate(setting, id, b, h).passes == BuildsPass(setting, b, h, b[i], h[j])
    ensures BuildGate(setting, id, b, h).entry == Some(e) <==>
      && (e.why.BuildWithinLeg? || e.why.BuildOneSided? || e.why.BuildSame? || e.why.BuildDiffers?)
      && TrueOf(e, setting, id, b, h, b[i], h[j])
  {
    BuildGatePasses(setting, id, b, h, i, j);
    BuildEntryIsTrue(setting, id, b, h, i, j);
    BuildsConstant(b, i);
    BuildsConstant(h, j);
  }

  lemma ItersSayExactly(setting: Setting, id: CaseId, b: Replicas, h: Replicas, i: nat, j: nat, e: NotComparable)
    requires i in b && j in h
    ensures ItersGate(id, b, h).passes == ItersPass(b, h, b[i], h[j])
    ensures ItersGate(id, b, h).entry == Some(e) <==> e.why.ItersDiffer? && TrueOf(e, setting, id, b, h, b[i], h[j])
  {
    ItersGatePasses(id, b, h, i, j);
    ItersEntryIsTrue(setting, id, b, h, i, j);
    ItersConstant(b, i);
    ItersConstant(h, j);
  }

  lemma PairingSaysExactly(
    setting: Setting, id: CaseId, b: Replicas, h: Replicas, x: Record, y: Record, e: NotComparable)
    ensures PairingGate(id, b, h).entry == Some(e) <==> e.why.Unpaired? && TrueOf(e, setting, id, b, h, x, y)
  {
    PairingEntryIsTrue(setting, id, b, h, x, y);
    var entry := PairingGate(id, b, h).entry;
    if e.why.Unpaired? && TrueOf(e, setting, id, b, h, x, y) {
      var k :| k in e.why.replicates;
      assert (k in b) != (k in h);
      assert entry.Some? && e.why.replicates == entry.value.why.replicates;
    }
  }

  /** What the guards disclose about a shared case is exactly what is true of its
      records, for each guard that is asked. */
  lemma DisclosuresAreTrue(setting: Setting, id: CaseId, b: Replicas, h: Replicas, i: nat, j: nat, e: NotComparable)
    requires i in b && j in h
    ensures e in GuardEntries(setting, id, b, h) <==>
      TrueOf(e, setting, id, b, h, b[i], h[j]) && GuardAsked(e.why, setting, b, h, b[i], h[j])
  {
    DigestSaysExactly(setting, id, b, h, i, j, e);
    BuildSaysExactly(setting, id, b, h, i, j, e);
    ItersSayExactly(setting, id, b, h, i, j, e);
    PairingSaysExactly(setting, id, b, h, b[i], h[j], e);
    DisclosedInTurn(
      DigestGate(setting, id, b, h), BuildGate(setting, id, b, h), ItersGate(id, b, h), PairingGate(id, b, h), e);
  }

  lemma DisclosedInTurn(digest: Gate, build: Gate, iters: Gate, pairing: Gate, e: NotComparable)
    ensures e in DisclosedThrough(digest, build, iters, pairing) <==>
      || digest.entry == Some(e)
      || (digest.passes && build.entry == Some(e))
      || (digest.passes && build.passes && iters.entry == Some(e))
      || (digest.passes && build.passes && iters.passes && pairing.entry == Some(e))
  {
  }

  lemma EntryComesFromAGate(digest: Gate, build: Gate, iters: Gate, pairing: Gate, e: NotComparable)
    requires e in DisclosedThrough(digest, build, iters, pairing)
    ensures digest.entry == Some(e) || build.entry == Some(e) || iters.entry == Some(e) || pairing.entry == Some(e)
  {
  }

  /** Nothing is disclosed exactly when the legs are constant, agree as the axis
      asks without any waiver, and pair completely. */
  lemma NothingDisclosedIffClean(setting: Setting, id: CaseId, b: Replicas, h: Replicas, i: nat, j: nat)
    requires i in b && j in h
    ensures GuardEntries(setting, id, b, h) == {} <==>
      b.Keys == h.Keys && Fit(setting.(allowDigest := false, allowBuild := false), b, h, b[i], h[j])
  {
    DigestEntryIsTrue(setting, id, b, h, i, j);
    BuildEntryIsTrue(setting, id, b, h, i, j);
    ItersEntryIsTrue(setting, id, b, h, i, j);
    PairingEntryIsTrue(setting, id, b, h, b[i], h[j]);
    EmptyIffNothingDisclosed(setting, id, b, h);
    assert b.Keys == h.Keys ==> i in h;
  }

  lemma EmptyIffNothingDisclosed(setting: Setting, id: CaseId, b: Replicas, h: Replicas)
    ensures GuardEntries(setting, id, b, h) == {} <==>
      && DigestGate(setting, id, b, h).entry.None? && BuildGate(setting, id, b, h).entry.None?
      && ItersGate(id, b, h).entry.None? && PairingGate(id, b, h).entry.None?
  {
    var gates :=
      [DigestGate(setting, id, b, h), BuildGate(setting, id, b, h), ItersGate(id, b, h), PairingGate(id, b, h)];
    assert forall g | g in gates && g.entry.Some? :: g.entry.value in Disclosed(g);
  }

  // ---- the guarded fields ----

  /** The axis makes the feature set the subject, or the field was waived. */
  predicate Excused(f: string, waived: set<string>, axis: Axis) {
    f in waived || (axis == Arm && f == "features")
  }

  /** Two builds pass exactly when every field the base records reads alike on
      the other leg or is excused; a refusal names exactly the others. */
  lemma FieldsPassIff(fields: map<string, string>, theirs: map<string, string>, waived: set<string>, axis: Axis)
    ensures GuardFields(fields, theirs, waived, axis).None? <==>
      forall f | f in fields :: fields[f] == Reads(theirs, f) || Excused(f, waived, axis)
    ensures GuardFields(fields, theirs, waived, axis).Some? ==>
      forall f :: f in GuardFields(fields, theirs, waived, axis).value.fields <==>
        f in fields && fields[f] != Reads(theirs, f) && !Excused(f, waived, axis)
  {
    var refused := set f |
      f in Divergences(fields, theirs) && !(axis == Arm && f == FIELD_FEATURES) && f !in waived;
    forall f | f in fields
      ensures f in refused <==> fields[f] != Reads(theirs, f) && !Excused(f, waived, axis)
    {
    }
    if refused == {} {
      forall f | f in fields
        ensures f !in refused
      {
      }
    }
  }

  /** The maps of two legs hold the same names, a name nothing was recorded for
      standing for the empty string. On such maps the guard is symmetric, and a
      field one leg left empty reads as a difference exactly when the other did
      not, whichever leg it is. */
  lemma LegsDivergeEitherWay(x: Fingerprint, xHost: Host, y: Fingerprint, yHost: Host, waived: set<string>, axis: Axis)
    ensures var fields, theirs := GuardedFields(x, xHost), GuardedFields(y, yHost);
      && fields.Keys == theirs.Keys
      && GuardFields(fields, theirs, waived, axis) == GuardFields(theirs, fields, waived, axis)
      && forall f | f in fields && (fields[f] == "" || theirs[f] == "") ::
           f in Divergences(fields, theirs) <==> fields[f] != "" || theirs[f] != ""
  {
    var fields, theirs := GuardedFields(x, xHost), GuardedFields(y, yHost);
    SameNames(x, xHost, y, yHost);
    assert Divergences(fields, theirs) == Divergences(theirs, fields);
  }

  /** With nothing waived on the commit axis, two legs pass exactly when their
      guarded fields are equal, and exactly when there are no divergences. */
  lemma CommitPassesOnlyTheSameBuild(x: Fingerprint, xHost: Host, y: Fingerprint, yHost: Host)
    ensures var fields, theirs := GuardedFields(x, xHost), GuardedFields(y, yHost);
      && (GuardFields(fields, theirs, {}, Commit).None? <==> fields == theirs)
      && (GuardFields(fields, theirs, {}, Commit).None? <==> Divergences(fields, theirs) == {})
  {
    SameNames(x, xHost, y, yHost);
    CommitPassesIff(GuardedFields(x, xHost), GuardedFields(y, yHost));
  }

  /** On maps no leg produces, a name only one of them holds reads as a difference
      exactly when it is the first and the field is not empty. */
  lemma LostFieldDivergesIff(fields: map<string, string>, theirs: map<string, string>, f: string)
    requires (f in fields) != (f in theirs)
    ensures f in Divergences(fields, theirs) <==> f in fields && fields[f] != ""
  {
  }

  /** Fields only one map holds, all of which the guard does not see. */
  ghost predicate HidesItsLosses(fields: map<string, string>, theirs: map<string, string>) {
    && fields.Keys != theirs.Keys
    && (forall f | f in fields && f !in theirs :: fields[f] == "")
    && (forall f | f in fields && f in theirs :: fields[f] == theirs[f])
  }

  /** The guard on any two maps, including ones no leg produces: with nothing
      waived on the commit axis it passes equal maps, and unequal ones exactly
      when they differ only in names the second alone holds or empty fields the
      first alone holds. */
  lemma CommitPassesIff(fields: map<string, string>, theirs: map<string, string>)
    ensures GuardFields(fields, theirs, {}, Commit).None? <==> fields == theirs || HidesItsLosses(fields, theirs)
    ensures GuardFields(fields, theirs, {}, Commit).None? <==> Divergences(fields, theirs) == {}
  {
    FieldsPassIff(fields, theirs, {}, Commit);
    assert Divergences(fields, theirs) ==
      (set f | f in Divergences(fields, theirs) && !(Commit == Arm && f == FIELD_FEATURES) && f !in {});
  }

  // ---- the counters ----

  /** A counter reaches the one it is measured against exactly when every case
      counted by the second is counted by the first. */
  lemma CountsMeet(p: CaseId -> bool, q: CaseId -> bool, ids: set<CaseId>)
    requires forall id | id in ids && p(id) :: q(id)
    ensures Count(p, ids) == Count(q, ids) <==> forall id | id in ids && q(id) :: p(id)
  {
    var a, b := set id | id in ids && p(id), set id | id in ids && q(id);
    if |a| == |b| {
      SubsetOfSameSize(a, b);
      forall id | id in ids && q(id)
        ensures p(id)
      {
        assert id in a;
      }
    }
    if forall id | id in ids && q(id) :: p(id) {
      assert a == b;
    }
  }

  lemma CountsAddUp(p: CaseId -> bool, q: CaseId -> bool, r: CaseId -> bool, ids: set<CaseId>)
    requires forall id | id in ids :: !(p(id) && q(id)) && (p(id) || q(id) ==> r(id))
    ensures Count(p, ids) + Count(q, ids) <= Count(r, ids)
  {
    var a, b, c := set id | id in ids && p(id), set id | id in ids && q(id), set id | id in ids && r(id);
    assert a !! b;
    SubsetSize(a + b, c);
  }

  lemma CountOfNone(p: CaseId -> bool, ids: set<CaseId>)
    requires forall id | id in ids :: !p(id)
    ensures Count(p, ids) == 0
  {
    assert (set id | id in ids && p(id)) == {};
  }

  /** No case of a commit comparison is wrong for agreeing, and none of an arm
      comparison for differing. */
  lemma AxisRulesOutAnAnswer(setting: Setting, legs: Legs, ids: set<CaseId>)
    ensures setting.axis == Commit ==> TallyOf(setting, legs, ids).buildSame == 0
    ensures setting.axis == Arm ==> TallyOf(setting, legs, ids).buildMismatches == 0
  {
    if setting.axis == Commit {
      CountOfNone(Answered(setting, legs, Same), ids);
    } else {
      CountOfNone(Answered(setting, legs, Mismatched), ids);
    }
  }

  /** At most one of the three wholesale build refusals can apply. */
  lemma OneWholesaleAnswer(setting: Setting, legs: Legs, ids: set<CaseId>)
    ensures var t := TallyOf(setting, legs, ids);
      && t.buildOneSided + t.buildMismatches <= t.buildJudged
      && t.buildOneSided + t.buildSame <= t.buildJudged
      && t.buildMismatches + t.buildSame <= t.buildJudged
      && (t.buildJudged > 0 ==>
            && !(t.buildOneSided == t.buildJudged && t.buildMismatches == t.buildJudged)
            && !(t.buildOneSided == t.buildJudged && t.buildSame == t.buildJudged)
            && !(t.buildMismatches == t.buildJudged && t.buildSame == t.buildJudged))
  {
    var asked := Asked(setting, legs);
    var oneSided, same, mismatched :=
      Answered(setting, legs, OneSided), Answered(setting, legs, Same), Answered(setting, legs, Mismatched);
    CountsAddUp(oneSided, mismatched, asked, ids);
    CountsAddUp(oneSided, same, asked, ids);
    CountsAddUp(mismatched, same, asked, ids);
  }

  // ---- what a refusal of the whole run says ----

  /** Each leg measured one corpus, and they are not the same. */
  ghost predicate CorporaDiffer(b: Replicas, h: Replicas) {
    exists i, j :: i in b && j in h && OneDigest(b, b[i]) && OneDigest(h, h[j])
      && b[i].corpusDigest != h[j].corpusDigest
  }

  /** Each leg measured one corpus, the same or waived, and declared one build. */
  ghost predicate Askable(allowDigest: bool, b: Replicas, h: Replicas) {
    exists i, j :: i in b && j in h && OneDigest(b, b[i]) && OneDigest(h, h[j])
      && (allowDigest || b[i].corpusDigest == h[j].corpusDigest) && OneBuild(b, b[i]) && OneBuild(h, h[j])
  }

  /** What is wrong with the builds two legs declare. */
  ghost predicate Declare(axis: Axis, b: Replicas, h: Replicas, answer: BuildAnswer) {
    exists i, j :: i in b && j in h &&
      var x, y := b[i].buildDigest, h[j].buildDigest;
      match answer
      case Right => RightBuilds(axis, x, y)
      case OneSided => x.Some? != y.Some?
      case Mismatched => axis == Commit && x.Some? && y.Some? && x != y
      case Same => axis == Arm && x.Some? && x == y
  }

  lemma MismatchIff(b: Replicas, h: Replicas)
    ensures DigestMismatch(b, h) <==> CorporaDiffer(b, h)
  {
    forall i, j | i in b && j in h
      ensures DigestMismatch(b, h) <==>
        OneDigest(b, b[i]) && OneDigest(h, h[j]) && b[i].corpusDigest != h[j].corpusDigest
    {
      DigestsConstant(b, i);
      DigestsConstant(h, j);
      SingletonsAgree(b[i].corpusDigest, h[j].corpusDigest);
    }
    SomeReplicate(b);
    SomeReplicate(h);
  }

  /** A leg without replicates measured no corpus and declared no build. */
  lemma SomeReplicate(reps: Replicas)
    ensures |Digests(reps)| == 1 ==> exists i :: i in reps
    ensures |Builds(reps)| == 1 ==> exists i :: i in reps
  {
    if reps == map[] {
      assert Digests(reps) == {} && Builds(reps) == {};
    } else {
      assert exists i :: i in reps.Keys;
    }
  }

  lemma AskedIff(setting: Setting, id: CaseId, b: Replicas, h: Replicas)
    ensures BuildAsked(setting, id, b, h) <==> Askable(setting.allowDigest, b, h)
  {
    forall i, j | i in b && j in h
      ensures BuildAsked(setting, id, b, h) <==>
        && OneDigest(b, b[i]) && OneDigest(h, h[j])
        && (setting.allowDigest || b[i].corpusDigest == h[j].corpusDigest) && OneBuild(b, b[i]) && OneBuild(h, h[j])
    {
      DigestGatePasses(setting, id, b, h, i, j);
      DigestsConstant(b, i);
      DigestsConstant(h, j);
      BuildsConstant(b, i);
      BuildsConstant(h, j);
    }
    SomeReplicate(b);
    SomeReplicate(h);
  }

  lemma AnswerIff(axis: Axis, b: Replicas, h: Replicas, answer: BuildAnswer)
    requires !BuildsWithin(b, h)
    ensures AnswerOf(axis, b, h) == answer <==> Declare(axis, b, h, answer)
  {
    SomeReplicate(b);
    SomeReplicate(h);
    forall i, j | i in b && j in h
      ensures AnswerOf(axis, b, h) == answer <==>
        var x, y := b[i].buildDigest, h[j].buildDigest;
        match answer
        case Right => RightBuilds(axis, x, y)
        case OneSided => x.Some? != y.Some?
        case Mismatched => axis == Commit && x.Some? && y.Some? && x != y
        case Same => axis == Arm && x.Some? && x == y
    {
      WrongIffNotRight(axis, b, h, i, j);
      OneSidedIff(b, h, i, j);
    }
  }

  ghost predicate Several(p: CaseId -> bool, ids: set<CaseId>) {
    exists x, y :: x in ids && y in ids && x != y && p(x) && p(y)
  }

  lemma SeveralIff(p: CaseId -> bool, ids: set<CaseId>)
    ensures Count(p, ids) > 1 <==> Several(p, ids)
  {
    var counted := set id | id in ids && p(id);
    if |counted| > 1 {
      var x :| x in counted;
      assert |counted - {x}| > 0;
      var y :| y in counted - {x};
    }
    if x, y :| x in ids && y in ids && x != y && p(x) && p(y) {
      SubsetSize({x, y}, counted);
    }
  }

  /** Every shared case that could be asked about its builds declares this. */
  ghost predicate AllDeclare(setting: Setting, legs: Legs, answer: BuildAnswer) {
    forall id | id in legs.Shared() && Askable(setting.allowDigest, Held(legs.base, id), Held(legs.head, id)) ::
      Declare(setting.axis, Held(legs.base, id), Held(legs.head, id), answer)
  }

  ghost predicate SharesSeveral(legs: Legs) {
    exists x, y :: x in legs.Shared() && y in legs.Shared() && x != y
  }

  ghost predicate AllCorporaDiffer(legs: Legs) {
    forall id | id in legs.Shared() :: CorporaDiffer(Held(legs.base, id), Held(legs.head, id))
  }

  ghost function AskableCases(allowDigest: bool, legs: Legs): CaseId -> bool {
    id => Askable(allowDigest, Held(legs.base, id), Held(legs.head, id))
  }

  /** The refusal of a whole run, said about the records of its cases instead of
      its counters. */
  ghost function Wholesale(setting: Setting, legs: Legs): Option<CompareError> {
    var several := !setting.allowBuild && Several(AskableCases(setting.allowDigest, legs), legs.Shared());
    if !setting.allowDigest && SharesSeveral(legs) && AllCorporaDiffer(legs) then Some(EveryDigestDiffers)
    else if several && AllDeclare(setting, legs, OneSided) then Some(EveryBuildOneSided)
    else if several && AllDeclare(setting, legs, Mismatched) then Some(EveryBuildDiffers)
    else if several && AllDeclare(setting, legs, Same) then Some(EveryBuildSame)
    else if legs.Shared() == {} then Some(NoSharedCase)
    else None
  }

  lemma AnswersMeet(setting: Setting, legs: Legs, answer: BuildAnswer)
    ensures Count(Answered(setting, legs, answer), legs.Shared()) == Count(Asked(setting, legs), legs.Shared())
       <==> AllDeclare(setting, legs, answer)
  {
    CountsMeet(Answered(setting, legs, answer), Asked(setting, legs), legs.Shared());
    forall id | id in legs.Shared()
      ensures Asked(setting, legs)(id) <==> Askable(setting.allowDigest, Held(legs.base, id), Held(legs.head, id))
      ensures Asked(setting, legs)(id) ==>
        Answered(setting, legs, answer)(id) == Declare(setting.axis, Held(legs.base, id), Held(legs.head, id), answer)
    {
      var b, h := Held(legs.base, id), Held(legs.head, id);
      AskedIff(setting, id, b, h);
      if BuildAsked(setting, id, b, h) {
        AnswerIff(setting.axis, b, h, answer);
      }
    }
  }

  lemma MismatchesMeet(legs: Legs)
    ensures Count(Mismatches(legs), legs.Shared()) == |legs.Shared()|
       <==> AllCorporaDiffer(legs)
  {
    var all: CaseId -> bool := id => true;
    CountsMeet(Mismatches(legs), all, legs.Shared());
    assert (set id | id in legs.Shared() && all(id)) == legs.Shared();
    forall id | id in legs.Shared()
      ensures Mismatches(legs)(id) <==> CorporaDiffer(Held(legs.base, id), Held(legs.head, id))
    {
      MismatchIff(Held(legs.base, id), Held(legs.head, id));
    }
  }

  lemma SeveralShared(legs: Legs)
    ensures |legs.Shared()| > 1 <==> SharesSeveral(legs)
  {
    var all: CaseId -> bool := id => true;
    assert (set id | id in legs.Shared() && all(id)) == legs.Shared();
    SeveralIff(all, legs.Shared());
  }

  lemma SeveralAlike(p: CaseId -> bool, q: CaseId -> bool, ids: set<CaseId>)
    requires forall id | id in ids :: p(id) == q(id)
    ensures Several(p, ids) == Several(q, ids)
  {
  }

  lemma SeveralAsked(setting: Setting, legs: Legs)
    ensures Count(Asked(setting, legs), legs.Shared()) > 1
       <==> Several(AskableCases(setting.allowDigest, legs), legs.Shared())
  {
    var p, q := Asked(setting, legs), AskableCases(setting.allowDigest, legs);
    SeveralIff(p, legs.Shared());
    forall id | id in legs.Shared()
      ensures p(id) == q(id)
    {
      AskedIff(setting, id, Held(legs.base, id), Held(legs.head, id));
    }
    SeveralAlike(p, q, legs.Shared());
  }

  lemma EverySharedCaseIsVisited(setting: Setting, legs: Legs)
    ensures TalliedOver(setting, legs, legs.All()) == TallyOf(setting, legs, legs.Shared())
  {
    assert legs.All() * legs.Shared() == legs.Shared();
  }

  /** The counters refuse a run exactly when the refusal is true of its cases. */
  lemma CountersMeanWhatTheySay(setting: Setting, legs: Legs)
    ensures Systemic(TalliedOver(setting, legs, legs.All()), setting) == Wholesale(setting, legs)
  {
    EverySharedCaseIsVisited(setting, legs);
    SeveralShared(legs);
    SeveralAsked(setting, legs);
    MismatchesMeet(legs);
    AnswersMeet(setting, legs, OneSided);
    AnswersMeet(setting, legs, Mismatched);
    AnswersMeet(setting, legs, Same);
  }

  /** The legs pass: different directories and names, the right way round, on one
      axis, with no field refused. */
  ghost predicate LegsPass(base: Leg, head: Leg, allow: set<string>) {
    && base.dir != head.dir && !Reversed(base, head) && base.provenance.leg != head.provenance.leg
    && base.provenance.axis == head.provenance.axis && forall f :: !Refuses(base, head, allow, f)
  }

  /** Two legs are refused for themselves, or for what is true of all their cases,
      and for nothing else. */
  lemma RefusedForOneOrTheOther(setting: Setting, base: Leg, head: Leg, allow: set<string>)
    requires setting.axis == base.provenance.axis
    ensures LegsPass(base, head, allow) ==>
      RefusalOf(setting, base, head, allow) == Wholesale(setting, LegsOf(base, head))
    ensures !LegsPass(base, head, allow) ==> RefusalOf(setting, base, head, allow).Some?
  {
    var legs := LegsOf(base, head);
    var later := Systemic(TalliedOver(setting, legs, legs.All()), setting);
    FirstLetsThrough(base, head, allow, later);
    assert later == Wholesale(setting, legs) by {
      CountersMeanWhatTheySay(setting, legs);
    }
  }

  lemma FirstLetsThrough(base: Leg, head: Leg, allow: set<string>, later: Option<CompareError>)
    ensures var fields := GuardFields(base.provenance.guarded, head.provenance.guarded, allow, base.provenance.axis);
      var first := First(GuardLegs(base, head), fields, later);
      if LegsPass(base, head, allow) then first == later else first.Some?
  {
    FieldsRefused(base, head, allow);
  }
}
