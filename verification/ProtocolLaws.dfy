/** What a bench binary answers to any argument vector, said about its flags. */
module ProtocolLaws {
  import opened Wrappers
  import opened LittleEndian
  import opened Decimal
  import opened Protocol

  // ---- which vectors are accepted ----

  predicate Readable(g: Group) {
    IsNumber(g.flag) ==> ParseU64(g.value).Some?
  }

  /** At most one group names a mode, and every number is one. */
  ghost predicate Acceptable(gs: seq<Group>) {
    && (forall i, j | 0 <= i < j < |gs| :: !(IsMode(gs[i]) && IsMode(gs[j])))
    && (forall i | 0 <= i < |gs| :: Readable(gs[i]))
  }

  ghost predicate NamesAMode(gs: seq<Group>) {
    exists i :: 0 <= i < |gs| && IsMode(gs[i])
  }

  lemma AcceptableOneMore(gs: seq<Group>)
    requires gs != []
    ensures Acceptable(gs) <==> Acceptable(gs[1..]) && !(IsMode(gs[0]) && NamesAMode(gs[1..])) && Readable(gs[0])
    ensures NamesAMode(gs) <==> IsMode(gs[0]) || NamesAMode(gs[1..])
  {
    var rest := gs[1..];
    assert forall i | 0 <= i < |rest| :: rest[i] == gs[i + 1];
    assert forall i | 0 < i < |gs| :: gs[i] == rest[i - 1];
  }

  lemma ApplyAcceptsIff(out: Args, g: Group)
    ensures Apply(out, g).Ok? <==> !(IsMode(g) && out.mode.Some?) && Readable(g)
    ensures Apply(out, g).Ok? ==> (Apply(out, g).value.mode.Some? <==> IsMode(g) || out.mode.Some?)
  {
  }

  lemma {:induction false} FoldAcceptsIff(out: Args, gs: seq<Group>)
    ensures Fold(out, gs).Ok? <==> Acceptable(gs) && !(out.mode.Some? && NamesAMode(gs))
    decreases gs
  {
    if gs != [] {
      AcceptableOneMore(gs);
      ApplyAcceptsIff(out, gs[0]);
      if Apply(out, gs[0]).Ok? {
        FoldAcceptsIff(Apply(out, gs[0]).value, gs[1..]);
      }
    }
  }

  ghost predicate IsVector(args: seq<string>, gs: seq<Group>) {
    args == Render(gs) && forall g | g in gs :: WellShaped(g)
  }

  /** A vector is accepted exactly when it is the flags of an acceptable list of
      groups, each with its value. */
  lemma VectorsAcceptedIff(args: seq<string>)
    ensures ParseFrom(args, DEFAULT).Ok? <==> exists gs :: IsVector(args, gs) && Acceptable(gs)
  {
    if ParseFrom(args, DEFAULT).Ok? {
      var gs := AcceptedVectorHoldsOneMode(args, DEFAULT);
      assert IsVector(args, gs);
      ParseOfRender(DEFAULT, gs);
      FoldAcceptsIff(DEFAULT, gs);
    }
    if gs :| IsVector(args, gs) && Acceptable(gs) {
      ParseOfRender(DEFAULT, gs);
      FoldAcceptsIff(DEFAULT, gs);
    }
  }

  // ---- what a refusal says ----

  lemma {:induction false} ParseAfter(out: Args, gs: seq<Group>, rest: seq<string>)
    requires (forall g | g in gs :: WellShaped(g)) && Fold(out, gs).Ok?
    ensures ParseFrom(Render(gs) + rest, out) == ParseFrom(rest, Fold(out, gs).value)
    decreases gs
  {
    var args := Render(gs) + rest;
    if gs == [] {
      assert args == rest;
    } else {
      var g := gs[0];
      SpellingsAreDistinct(g.flag);
      assert args == RenderOne(g) + (Render(gs[1..]) + rest);
      assert args[0] == Spell(g.flag) && WellShaped(g);
      assert TakeGroup(args) == Ok(g);
      assert args[|RenderOne(g)|..] == Render(gs[1..]) + rest;
      ParseAfter(Apply(out, g).value, gs[1..], rest);
    }
  }

  /** What is wrong with the vector where `rest` begins, after groups that may
      have named a mode. */
  ghost predicate Fault(rest: seq<string>, f: Flag, moded: bool, e: Error)
    requires rest != []
  {
    match e
    case UnknownArgument(arg) => arg == rest[0] && forall h :: rest[0] != Spell(h)
    case NeedsValue(flag) => flag == f && rest == [Spell(f)] && TakesValue(f)
    case TwoModes =>
      moded && IsMode(Group(f, "")) && rest[0] == Spell(f) && (TakesValue(f) ==> |rest| > 1)
    case NotANumber(flag, raw) =>
      flag == f && IsNumber(f) && |rest| > 1 && rest[0] == Spell(f) && rest[1] == raw && ParseU64(raw).None?
    case _ => false
  }

  lemma FaultIsNamed(rest: seq<string>, f: Flag, out: Args, e: Error)
    requires rest != [] && Fault(rest, f, out.mode.Some?, e)
    ensures ParseFrom(rest, out) == Err(e)
  {
    SpellingsAreDistinct(f);
  }

  /** A vector is refused for the first thing wrong with it: an argument that is no
      flag, a last flag without its value, a second mode, a number that is none. */
  lemma FirstFaultIsNamed(gs: seq<Group>, rest: seq<string>, f: Flag, e: Error)
    requires (forall g | g in gs :: WellShaped(g)) && Acceptable(gs)
    requires rest != [] && Fault(rest, f, NamesAMode(gs), e)
    ensures ParseFrom(Render(gs) + rest, DEFAULT) == Err(e)
  {
    FoldAcceptsIff(DEFAULT, gs);
    ParseAfter(DEFAULT, gs, rest);
    ModeGivenIffNamed(DEFAULT, gs);
    FaultIsNamed(rest, f, Fold(DEFAULT, gs).value, e);
  }

  lemma {:induction false} ModeGivenIffNamed(out: Args, gs: seq<Group>)
    requires Fold(out, gs).Ok?
    ensures Fold(out, gs).value.mode.Some? <==> out.mode.Some? || NamesAMode(gs)
    decreases gs
  {
    if gs != [] {
      AcceptableOneMore(gs);
      ApplyAcceptsIff(out, gs[0]);
      ModeGivenIffNamed(Apply(out, gs[0]).value, gs[1..]);
    }
  }

  // ---- what is read ----

  predicate AsksFor(g: Group, mode: Mode) {
    match mode
    case Version => g.flag == ProtocolVersion
    case Listing => g.flag == ListCases
    case Calibrate(id) => g == Group(CalibrateFlag, id)
    case Run(id) => g == Group(RunFlag, id)
  }

  /** The settings that are read off a vector. */
  datatype Item = ModeItem(mode: Mode) | PrimingItem | SelectorItem

  predicate Holds(out: Args, item: Item) {
    match item
    case ModeItem(mode) => out.mode == Some(mode)
    case PrimingItem => out.priming
    case SelectorItem => out.cargoSelector
  }

  predicate Gives(g: Group, item: Item) {
    match item
    case ModeItem(mode) => AsksFor(g, mode)
    case PrimingItem => g.flag == Priming
    case SelectorItem => g.flag == Bench || g.flag == Test
  }

  ghost predicate Given(gs: seq<Group>, item: Item) {
    exists i :: 0 <= i < |gs| && Gives(gs[i], item)
  }

  lemma GivenOneMore(gs: seq<Group>, item: Item)
    requires gs != []
    ensures Given(gs, item) <==> Gives(gs[0], item) || Given(gs[1..], item)
  {
    var rest := gs[1..];
    assert forall i | 0 <= i < |rest| :: rest[i] == gs[i + 1];
    assert forall i | 0 < i < |gs| :: gs[i] == rest[i - 1];
  }

  lemma ApplyHolds(out: Args, g: Group, item: Item)
    requires Apply(out, g).Ok?
    ensures Holds(Apply(out, g).value, item) <==> Holds(out, item) || Gives(g, item)
  {
  }

  lemma {:induction false} GivenIsRead(out: Args, gs: seq<Group>, item: Item)
    requires Fold(out, gs).Ok?
    ensures Holds(Fold(out, gs).value, item) <==> Holds(out, item) || Given(gs, item)
    decreases gs
  {
    if gs != [] {
      GivenOneMore(gs, item);
      ApplyHolds(out, gs[0], item);
      GivenIsRead(Apply(out, gs[0]).value, gs[1..], item);
    }
  }

  function NumberIn(args: Args, f: Flag): Option<Word>
    requires IsNumber(f)
  {
    match f
    case Seed => args.seed
    case Iters => args.iters
    case Replicate => args.replicate
    case TargetMs => args.targetMs
    case WarmupMs => args.warmupMs
  }

  lemma ApplyNumber(out: Args, g: Group, f: Flag)
    requires Apply(out, g).Ok? && IsNumber(f)
    ensures NumberIn(Apply(out, g).value, f) == if g.flag == f then ParseU64(g.value) else NumberIn(out, f)
  {
  }

  ghost predicate Absent(gs: seq<Group>, f: Flag) {
    forall i | 0 <= i < |gs| :: gs[i].flag != f
  }

  ghost predicate IsLast(gs: seq<Group>, f: Flag, k: nat) {
    k < |gs| && gs[k].flag == f && Absent(gs[k + 1..], f)
  }

  /** A number repeated is read where it is given last. */
  lemma {:induction false} LastNumberIsRead(out: Args, gs: seq<Group>, f: Flag, k: nat)
    requires IsNumber(f) && Fold(out, gs).Ok?
    ensures IsLast(gs, f, k) ==> NumberIn(Fold(out, gs).value, f) == ParseU64(gs[k].value)
    ensures Absent(gs, f) ==> NumberIn(Fold(out, gs).value, f) == NumberIn(out, f)
    decreases gs
  {
    if gs != [] {
      ApplyNumber(out, gs[0], f);
      var next := Apply(out, gs[0]).value;
      var rest := gs[1..];
      assert Absent(gs, f) ==> gs[0].flag != f && Absent(rest, f);
      if k > 0 {
        LastNumberIsRead(next, rest, f, k - 1);
        assert k < |gs| ==> rest[k..] == gs[k + 1..];
      } else {
        LastNumberIsRead(next, rest, f, 0);
      }
    }
  }

  // ---- what is done ----

  /** The vector is accepted, and these settings are read off it. */
  lemma ReadOff(known: set<string>, gs: seq<Group>) returns (opts: Args)
    requires gs != [] && (forall g | g in gs :: WellShaped(g)) && Acceptable(gs)
    ensures Fold(DEFAULT, gs) == Ok(opts) && Dispatch(known, Render(gs)) == Perform(known, opts)
  {
    FoldAcceptsIff(DEFAULT, gs);
    ParseOfRender(DEFAULT, gs);
    opts := Fold(DEFAULT, gs).value;
    assert Render(gs) != [];
  }

  /** A version or a listing is answered whatever else is given, and a vector that
      names no mode is an error unless cargo sent it. */
  lemma DispatchWithoutACase(known: set<string>, gs: seq<Group>)
    requires gs != [] && (forall g | g in gs :: WellShaped(g)) && Acceptable(gs)
    ensures Given(gs, ModeItem(Version)) ==> Dispatch(known, Render(gs)) == Ok(AnswerVersion)
    ensures Given(gs, ModeItem(Listing)) ==> Dispatch(known, Render(gs)) == Ok(AnswerListing)
    ensures !NamesAMode(gs) ==>
      Dispatch(known, Render(gs)) == if Given(gs, SelectorItem) then Ok(Usage) else Err(NoMode)
  {
    var opts := ReadOff(known, gs);
    GivenIsRead(DEFAULT, gs, ModeItem(Version));
    GivenIsRead(DEFAULT, gs, ModeItem(Listing));
    GivenIsRead(DEFAULT, gs, SelectorItem);
    ModeGivenIffNamed(DEFAULT, gs);
  }

  /** The last value given for a number flag, if any. */
  ghost predicate GivenAs(gs: seq<Group>, f: Flag, n: Option<Word>) {
    if n.None? then Absent(gs, f) else exists k: nat :: IsLast(gs, f, k) && ParseU64(gs[k].value) == n
  }

  lemma NumberGivenIsRead(gs: seq<Group>, f: Flag, n: Option<Word>, opts: Args)
    requires IsNumber(f) && Fold(DEFAULT, gs) == Ok(opts) && GivenAs(gs, f, n)
    ensures NumberIn(opts, f) == n
  {
    var k: nat := 0;
    if n.Some? {
      k :| IsLast(gs, f, k) && ParseU64(gs[k].value) == n;
    }
    LastNumberIsRead(DEFAULT, gs, f, k);
  }

  /** A calibration needs a known case and a seed; its target is 50 ms unless
      given. */
  lemma DispatchOfCalibration(
    known: set<string>, gs: seq<Group>, id: string, seed: Option<Word>, target: Option<Word>)
    requires (forall g | g in gs :: WellShaped(g)) && Acceptable(gs) && Given(gs, ModeItem(Calibrate(id)))
    requires GivenAs(gs, Seed, seed) && GivenAs(gs, TargetMs, target)
    ensures Dispatch(known, Render(gs))
         == if id !in known then Err(NoSuchCase(id))
            else if seed.None? then Err(Required(Seed))
            else Ok(DoCalibrate(id, seed.value, if target.Some? then target.value else 50))
  {
    var opts := ReadOff(known, gs);
    assert opts.mode == Some(Calibrate(id)) by {
      GivenIsRead(DEFAULT, gs, ModeItem(Calibrate(id)));
    }
    assert opts.seed == seed by {
      NumberGivenIsRead(gs, Seed, seed, opts);
    }
    assert opts.targetMs == target by {
      NumberGivenIsRead(gs, TargetMs, target, opts);
    }
  }

  /** What a run does with what was given. */
  function RunAction(known: set<string>, id: string, seed: Option<Word>, iters: Option<Word>,
                     replicate: Option<Word>, warmup: Option<Word>, priming: bool): Result<Action, Error> {
    if id !in known then Err(NoSuchCase(id))
    else if seed.None? then Err(Required(Seed))
    else if iters.None? then Err(Required(Iters))
    else if replicate.None? then Err(Required(Replicate))
    else if replicate.value >= 0x1_0000_0000 then Err(ReplicateOutOfRange)
    else Ok(DoRun(id, seed.value, if iters.value == 0 then 1 else iters.value, replicate.value, priming,
                  if warmup.Some? then warmup.value else 50))
  }

  lemma PerformedRun(known: set<string>, opts: Args, id: string)
    requires opts.mode == Some(Run(id))
    ensures Perform(known, opts)
         == RunAction(known, id, opts.seed, opts.iters, opts.replicate, opts.warmupMs, opts.priming)
  {
  }

  /** A run needs a known case, a seed, a count and a replicate below 2^32, asked
      for in that order; it measures at least one iteration, and warms up for 50
      ms unless told otherwise. */
  lemma DispatchOfRun(known: set<string>, gs: seq<Group>, id: string, seed: Option<Word>, iters: Option<Word>,
                      replicate: Option<Word>, warmup: Option<Word>)
    requires (forall g | g in gs :: WellShaped(g)) && Acceptable(gs) && Given(gs, ModeItem(Run(id)))
    requires GivenAs(gs, Seed, seed) && GivenAs(gs, Iters, iters)
    requires GivenAs(gs, Replicate, replicate) && GivenAs(gs, WarmupMs, warmup)
    ensures Dispatch(known, Render(gs))
         == RunAction(known, id, seed, iters, replicate, warmup, Given(gs, PrimingItem))
  {
    var opts := ReadOff(known, gs);
    assert opts.mode == Some(Run(id)) by {
      GivenIsRead(DEFAULT, gs, ModeItem(Run(id)));
    }
    assert opts.priming == Given(gs, PrimingItem) by {
      GivenIsRead(DEFAULT, gs, PrimingItem);
    }
    assert opts.seed == seed by {
      NumberGivenIsRead(gs, Seed, seed, opts);
    }
    assert opts.iters == iters by {
      NumberGivenIsRead(gs, Iters, iters, opts);
    }
    assert opts.replicate == replicate by {
      NumberGivenIsRead(gs, Replicate, replicate, opts);
    }
    assert opts.warmupMs == warmup by {
      NumberGivenIsRead(gs, WarmupMs, warmup, opts);
    }
    PerformedRun(known, opts, id);
  }

  /** The flags that take no value, as they are typed. */
  lemma PlainVectors(known: set<string>)
    ensures Dispatch(known, []) == Ok(Usage)
    ensures Dispatch(known, ["--protocol-version"]) == Ok(AnswerVersion)
    ensures Dispatch(known, ["--list-cases"]) == Ok(AnswerListing)
    ensures Dispatch(known, ["--bench"]) == Ok(Usage)
    ensures Dispatch(known, ["--test"]) == Ok(Usage)
  {
    OneFlag(ProtocolVersion);
    OneFlag(ListCases);
    OneFlag(Bench);
    OneFlag(Test);
  }

  lemma OneFlag(f: Flag)
    requires !TakesValue(f)
    ensures ParseFrom([Spell(f)], DEFAULT) == Apply(DEFAULT, Group(f, ""))
  {
    SpellingsAreDistinct(f);
    var args := [Spell(f)];
    assert TakeGroup(args) == Ok(Group(f, ""));
    assert args[1..] == [];
  }
}
