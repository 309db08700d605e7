/** The runner protocol's arguments: the vectors the driver prints, and the
    parser a bench binary reads them with. */
module Protocol {
  import opened Wrappers
  import opened LittleEndian
  import opened Decimal

  datatype Error =
    | NeedsValue(flag: Flag)
    | NotANumber(flag: Flag, raw: string)
    | TwoModes
    | UnknownArgument(arg: string)
    | NoMode
    | Required(flag: Flag)
    | NoSuchCase(id: string)
    | ReplicateOutOfRange

  datatype Flag =
    | ProtocolVersion | ListCases | CalibrateFlag | RunFlag
    | Priming | Bench | Test
    | Seed | Iters | Replicate | TargetMs | WarmupMs

  datatype Mode = Version | Listing | Calibrate(id: string) | Run(id: string)

  datatype Args = Args(
    mode: Option<Mode>, cargoSelector: bool,
    seed: Option<Word>, iters: Option<Word>, replicate: Option<Word>,
    targetMs: Option<Word>, warmupMs: Option<Word>, priming: bool)

  const DEFAULT := Args(None, false, None, None, None, None, None, false)

  function Spell(f: Flag): string {
    match f
    case ProtocolVersion => "--protocol-version"
    case ListCases => "--list-cases"
    case CalibrateFlag => "--calibrate"
    case RunFlag => "--run"
    case Priming => "--priming"
    case Bench => "--bench"
    case Test => "--test"
    case Seed => "--seed"
    case Iters => "--iters"
    case Replicate => "--replicate"
    case TargetMs => "--target-ms"
    case WarmupMs => "--warmup-ms"
  }

  function Recognize(s: string): (f: Option<Flag>)
    ensures f.Some? ==> Spell(f.value) == s
  {
    if s == "--protocol-version" then Some(ProtocolVersion)
    else if s == "--list-cases" then Some(ListCases)
    else if s == "--calibrate" then Some(CalibrateFlag)
    else if s == "--run" then Some(RunFlag)
    else if s == "--priming" then Some(Priming)
    else if s == "--bench" then Some(Bench)
    else if s == "--test" then Some(Test)
    else if s == "--seed" then Some(Seed)
    else if s == "--iters" then Some(Iters)
    else if s == "--replicate" then Some(Replicate)
    else if s == "--target-ms" then Some(TargetMs)
    else if s == "--warmup-ms" then Some(WarmupMs)
    else None
  }

  lemma SpellingsAreDistinct(f: Flag)
    ensures Recognize(Spell(f)) == Some(f)
  {
    assert Spell(CalibrateFlag)[2] == 'c' && Spell(Replicate)[2] == 'r';
    assert Spell(TargetMs)[2] == 't' && Spell(WarmupMs)[2] == 'w';
    assert Spell(Bench)[2] == 'b' && Spell(Iters)[2] == 'i';
    assert Spell(Test)[2] == 't' && Spell(Seed)[2] == 's';
  }

  predicate TakesValue(f: Flag) {
    f.CalibrateFlag? || f.RunFlag? || IsNumber(f)
  }

  predicate IsNumber(f: Flag) {
    f.Seed? || f.Iters? || f.Replicate? || f.TargetMs? || f.WarmupMs?
  }

  /** A flag with the value that follows it; the empty string for a flag that
      takes none. */
  datatype Group = Group(flag: Flag, value: string)

  predicate WellShaped(g: Group) {
    TakesValue(g.flag) || g.value == ""
  }

  function RenderOne(g: Group): seq<string> {
    if TakesValue(g.flag) then [Spell(g.flag), g.value] else [Spell(g.flag)]
  }

  function Render(gs: seq<Group>): seq<string> {
    if gs == [] then [] else RenderOne(gs[0]) + Render(gs[1..])
  }

  // ---- the parser ----

  function SetMode(out: Args, mode: Mode): Result<Args, Error> {
    if out.mode.Some? then Err(TwoModes) else Ok(out.(mode := Some(mode)))
  }

  function SetNumber(out: Args, f: Flag, n: Word): Args
    requires IsNumber(f)
  {
    match f
    case Seed => out.(seed := Some(n))
    case Iters => out.(iters := Some(n))
    case Replicate => out.(replicate := Some(n))
    case TargetMs => out.(targetMs := Some(n))
    case WarmupMs => out.(warmupMs := Some(n))
  }

  function Apply(out: Args, g: Group): Result<Args, Error> {
    match g.flag
    case ProtocolVersion => SetMode(out, Version)
    case ListCases => SetMode(out, Listing)
    case CalibrateFlag => SetMode(out, Calibrate(g.value))
    case RunFlag => SetMode(out, Run(g.value))
    case Priming => Ok(out.(priming := true))
    case Bench => Ok(out.(cargoSelector := true))
    case Test => Ok(out.(cargoSelector := true))
    case _ =>
      var n := ParseU64(g.value);
      if n.None? then Err(NotANumber(g.flag, g.value)) else Ok(SetNumber(out, g.flag, n.value))
  }

  /** The first flag group of a vector. */
  function TakeGroup(args: seq<string>): (r: Result<Group, Error>)
    requires args != []
    ensures r.Ok? ==> WellShaped(r.value) && RenderOne(r.value) <= args
  {
    var f := Recognize(args[0]);
    if f.None? then Err(UnknownArgument(args[0]))
    else if !TakesValue(f.value) then Ok(Group(f.value, ""))
    else if |args| == 1 then Err(NeedsValue(f.value))
    else Ok(Group(f.value, args[1]))
  }

  /** What the parser answers with `out` already read. */
  function ParseFrom(args: seq<string>, out: Args): Result<Args, Error> {
    if args == [] then Ok(out)
    else
      match TakeGroup(args)
      case Err(e) => Err(e)
      case Ok(g) =>
        match Apply(out, g)
        case Err(e) => Err(e)
        case Ok(next) => ParseFrom(args[|RenderOne(g)|..], next)
  }

  /** The argument following `args[at]`. */
  function ValueAfter(args: seq<string>, at: nat, f: Flag): Result<string, Error> {
    if at + 1 < |args| then Ok(args[at + 1]) else Err(NeedsValue(f))
  }

  method Parse(args: seq<string>) returns (r: Result<Args, Error>)
    ensures r == ParseFrom(args, DEFAULT)
  {
    var out := DEFAULT;
    var i := 0;
    while i < |args|
      invariant i <= |args|
      invariant ParseFrom(args, DEFAULT) == ParseFrom(args[i..], out)
    {
      var f := Recognize(args[i]);
      if f.None? {
        return Err(UnknownArgument(args[i]));
      }
      var value := "";
      if TakesValue(f.value) {
        var after := ValueAfter(args, i, f.value);
        if after.Err? {
          return Err(after.error);
        }
        value := after.value;
      }
      assert TakeGroup(args[i..]) == Ok(Group(f.value, value));
      var next := Apply(out, Group(f.value, value));
      if next.Err? {
        return next;
      }
      var width := if TakesValue(f.value) then 2 else 1;
      assert args[i..][width..] == args[i + width..];
      out := next.value;
      i := i + width;
    }
    r := Ok(out);
  }

  // ---- parsing a rendered list of groups ----

  /** The groups applied in order. */
  function Fold(out: Args, gs: seq<Group>): Result<Args, Error>
    decreases gs
  {
    if gs == [] then Ok(out)
    else match Apply(out, gs[0])
      case Err(e) => Err(e)
      case Ok(next) => Fold(next, gs[1..])
  }

  lemma {:induction false} ParseOfRender(out: Args, gs: seq<Group>)
    requires forall g | g in gs :: WellShaped(g)
    ensures ParseFrom(Render(gs), out) == Fold(out, gs)
    decreases gs
  {
    if gs != [] {
      var args, g := Render(gs), gs[0];
      SpellingsAreDistinct(g.flag);
      assert args[0] == Spell(g.flag) && WellShaped(g);
      assert TakeGroup(args) == Ok(g);
      assert args[|RenderOne(g)|..] == Render(gs[1..]);
      if Apply(out, g).Ok? {
        ParseOfRender(Apply(out, g).value, gs[1..]);
      }
    }
  }

  // ---- every accepted vector is a rendered list of groups ----

  predicate IsMode(g: Group) {
    g.flag.ProtocolVersion? || g.flag.ListCases? || g.flag.CalibrateFlag? || g.flag.RunFlag?
  }

  function ModeCount(gs: seq<Group>): nat {
    if gs == [] then 0 else (if IsMode(gs[0]) then 1 else 0) + ModeCount(gs[1..])
  }

  lemma ApplyCountsModes(out: Args, g: Group)
    requires Apply(out, g).Ok?
    ensures (if IsMode(g) then 1 else 0) + (if out.mode.Some? then 1 else 0)
         == if Apply(out, g).value.mode.Some? then 1 else 0
  {
  }

  lemma ConsGroup(g: Group, gs: seq<Group>)
    ensures Render([g] + gs) == RenderOne(g) + Render(gs)
    ensures ModeCount([g] + gs) == (if IsMode(g) then 1 else 0) + ModeCount(gs)
  {
    assert ([g] + gs)[1..] == gs;
  }

  /** An accepted vector splits into flag groups, at most one of which names a
      mode: exactly one when the parser found a mode. */
  lemma {:induction false} AcceptedVectorHoldsOneMode(args: seq<string>, out: Args) returns (gs: seq<Group>)
    requires ParseFrom(args, out).Ok?
    ensures args == Render(gs) && forall g | g in gs :: WellShaped(g)
    ensures ModeCount(gs) + (if out.mode.Some? then 1 else 0)
         == if ParseFrom(args, out).value.mode.Some? then 1 else 0
    decreases |args|
  {
    gs := [];
    if args != [] {
      var g := TakeGroup(args).value;
      var rest := args[|RenderOne(g)|..];
      assert args == RenderOne(g) + rest;
      var next := Apply(out, g).value;
      assert ParseFrom(args, out) == ParseFrom(rest, next);
      var more := AcceptedVectorHoldsOneMode(rest, next);
      ApplyCountsModes(out, g);
      ConsGroup(g, more);
      gs := [g] + more;
    }
  }

  // ---- order does not matter ----

  function Then(r: Result<Args, Error>, g: Group): Result<Args, Error> {
    if r.Err? then r else Apply(r.value, g)
  }

  /** Two results carry the same arguments, or are both refusals. */
  predicate SameAnswer(a: Result<Args, Error>, b: Result<Args, Error>) {
    if a.Ok? then a == b else b.Err?
  }

  lemma DistinctFlagsCommute(out: Args, a: Group, b: Group)
    requires a.flag != b.flag
    ensures SameAnswer(Then(Apply(out, a), b), Then(Apply(out, b), a))
  {
  }

  ghost predicate DistinctFlags(gs: seq<Group>) {
    forall i, j | 0 <= i < j < |gs| :: gs[i].flag != gs[j].flag
  }

  lemma {:induction false} MoveToFront(out: Args, gs: seq<Group>, k: nat)
    requires k < |gs| && DistinctFlags(gs)
    ensures SameAnswer(Fold(out, gs), Fold(out, [gs[k]] + gs[..k] + gs[k + 1..]))
    decreases k
  {
    var moved := [gs[k]] + gs[..k] + gs[k + 1..];
    if k == 0 {
      assert moved == gs;
    } else {
      var tail := gs[1..];
      var swapped := [gs[0], gs[k]] + (gs[1..k] + gs[k + 1..]);
      assert [tail[k - 1]] + tail[..k - 1] + tail[k..] == [gs[k]] + (gs[1..k] + gs[k + 1..]);
      assert moved == [gs[k], gs[0]] + (gs[1..k] + gs[k + 1..]);
      if Apply(out, gs[0]).Ok? {
        MoveToFront(Apply(out, gs[0]).value, tail, k - 1);
        assert swapped[1..] == [gs[k]] + (gs[1..k] + gs[k + 1..]);
      }
      SwapFirstTwo(out, gs[0], gs[k], gs[1..k] + gs[k + 1..]);
    }
  }

  lemma SwapFirstTwo(out: Args, a: Group, b: Group, rest: seq<Group>)
    requires a.flag != b.flag
    ensures SameAnswer(Fold(out, [a, b] + rest), Fold(out, [b, a] + rest))
  {
    FoldTwo(out, a, b, rest);
    FoldTwo(out, b, a, rest);
    DistinctFlagsCommute(out, a, b);
  }

  lemma FoldTwo(out: Args, a: Group, b: Group, rest: seq<Group>)
    ensures var r := Then(Apply(out, a), b);
      Fold(out, [a, b] + rest) == if r.Err? then r else Fold(r.value, rest)
  {
    var gs := [a, b] + rest;
    assert gs[1..] == [b] + rest && gs[1..][1..] == rest;
  }

  function Without(gs: seq<Group>, k: nat): seq<Group>
    requires k < |gs|
  {
    gs[..k] + gs[k + 1..]
  }

  lemma FrontAndWithout(gs: seq<Group>, k: nat)
    requires k < |gs|
    ensures [gs[k]] + gs[..k] + gs[k + 1..] == [gs[k]] + Without(gs, k)
  {
  }

  lemma WithoutCounts(gs: seq<Group>, k: nat)
    requires k < |gs|
    ensures multiset(Without(gs, k)) == multiset(gs) - multiset{gs[k]}
  {
    assert gs == gs[..k] + [gs[k]] + gs[k + 1..];
  }

  lemma WithoutStaysDistinct(gs: seq<Group>, k: nat)
    requires k < |gs| && DistinctFlags(gs)
    ensures DistinctFlags(Without(gs, k))
  {
    var rest := Without(gs, k);
    forall i, j | 0 <= i < j < |rest|
      ensures rest[i].flag != rest[j].flag
    {
      assert rest[i] == gs[if i < k then i else i + 1] && rest[j] == gs[if j < k then j else j + 1];
    }
  }

  lemma SameRest(gs: seq<Group>, hs: seq<Group>, k: nat)
    requires multiset(gs) == multiset(hs) && gs != [] && k < |hs| && hs[k] == gs[0]
    ensures multiset(gs[1..]) == multiset(Without(hs, k))
  {
    WithoutCounts(gs, 0);
    WithoutCounts(hs, k);
    assert Without(gs, 0) == gs[1..];
  }

  lemma FirstIsThere(gs: seq<Group>, hs: seq<Group>) returns (k: nat)
    requires multiset(gs) == multiset(hs) && gs != []
    ensures k < |hs| && hs[k] == gs[0]
  {
    assert gs[0] in multiset(gs);
    k :| k < |hs| && hs[k] == gs[0];
  }

  lemma {:induction false} PermutedGroupsFoldAlike(out: Args, gs: seq<Group>, hs: seq<Group>)
    requires multiset(gs) == multiset(hs) && DistinctFlags(gs) && DistinctFlags(hs)
    ensures SameAnswer(Fold(out, gs), Fold(out, hs))
    decreases gs
  {
    if gs == [] {
      assert |multiset(hs)| == 0;
    } else {
      var k := FirstIsThere(gs, hs);
      var g, rest, others := gs[0], gs[1..], Without(hs, k);
      SameRest(gs, hs, k);
      WithoutStaysDistinct(hs, k);
      MoveToFront(out, hs, k);
      FrontAndWithout(hs, k);
      FoldAfterFirst(out, g, rest, others);
      assert gs == [g] + rest;
      if Apply(out, g).Ok? {
        PermutedGroupsFoldAlike(Apply(out, g).value, rest, others);
      }
    }
  }

  lemma FoldAfterFirst(out: Args, g: Group, gs: seq<Group>, hs: seq<Group>)
    ensures Apply(out, g).Ok? && SameAnswer(Fold(Apply(out, g).value, gs), Fold(Apply(out, g).value, hs)) ==>
              SameAnswer(Fold(out, [g] + gs), Fold(out, [g] + hs))
    ensures Apply(out, g).Err? ==> SameAnswer(Fold(out, [g] + gs), Fold(out, [g] + hs))
  {
    assert ([g] + gs)[1..] == gs && ([g] + hs)[1..] == hs;
  }

  /** Reordering groups of distinct flags does not change what is read. */
  lemma ReorderedVectorsParseAlike(gs: seq<Group>, hs: seq<Group>)
    requires multiset(gs) == multiset(hs) && DistinctFlags(gs) && DistinctFlags(hs)
    requires forall g | g in gs :: WellShaped(g)
    ensures SameAnswer(ParseFrom(Render(gs), DEFAULT), ParseFrom(Render(hs), DEFAULT))
  {
    forall h | h in hs ensures WellShaped(h) {
      assert h in multiset(gs);
    }
    ParseOfRender(DEFAULT, gs);
    ParseOfRender(DEFAULT, hs);
    PermutedGroupsFoldAlike(DEFAULT, gs, hs);
  }

  // ---- the driver's vectors ----

  datatype Measurement = Measurement(id: string, seed: Word, iters: Word, replicate: nat, priming: bool, warmupMs: Word)

  const TWO32: nat := 0x1_0000_0000

  function NumberGroup(f: Flag, n: nat): Group {
    Group(f, Print(n))
  }

  function MeasureGroups(q: Measurement): seq<Group> {
    [Group(RunFlag, q.id), NumberGroup(Seed, q.seed), NumberGroup(Iters, q.iters),
     NumberGroup(Replicate, q.replicate), NumberGroup(WarmupMs, q.warmupMs)]
    + (if q.priming then [Group(Priming, "")] else [])
  }

  method MeasureArgs(q: Measurement) returns (args: seq<string>)
    ensures args == Render(MeasureGroups(q))
  {
    args := ["--run", q.id, "--seed", Print(q.seed), "--iters", Print(q.iters),
             "--replicate", Print(q.replicate), "--warmup-ms", Print(q.warmupMs)];
    if q.priming {
      args := args + ["--priming"];
    }
    RenderOfMeasure(q);
  }

  lemma RenderNumber(f: Flag, n: nat, gs: seq<Group>)
    requires IsNumber(f)
    ensures Render([NumberGroup(f, n)] + gs) == [Spell(f), Print(n)] + Render(gs)
  {
    ConsGroup(NumberGroup(f, n), gs);
  }

  lemma RenderOfMeasure(q: Measurement)
    ensures Render(MeasureGroups(q))
         == ["--run", q.id, "--seed", Print(q.seed), "--iters", Print(q.iters),
             "--replicate", Print(q.replicate), "--warmup-ms", Print(q.warmupMs)]
            + (if q.priming then ["--priming"] else [])
  {
    var g5 := if q.priming then [Group(Priming, "")] else [];
    var g4 := [NumberGroup(WarmupMs, q.warmupMs)] + g5;
    var g3 := [NumberGroup(Replicate, q.replicate)] + g4;
    var g2 := [NumberGroup(Iters, q.iters)] + g3;
    var g1 := [NumberGroup(Seed, q.seed)] + g2;
    assert MeasureGroups(q) == [Group(RunFlag, q.id)] + g1;
    ConsGroup(Group(RunFlag, q.id), g1);
    RenderNumber(Seed, q.seed, g2);
    RenderNumber(Iters, q.iters, g3);
    RenderNumber(Replicate, q.replicate, g4);
    RenderNumber(WarmupMs, q.warmupMs, g5);
    ConsGroup(Group(Priming, ""), []);
    assert [Group(Priming, "")] + [] == [Group(Priming, "")];
  }

  function CalibrateGroups(id: string, seed: Word, targetMs: Word): seq<Group> {
    [Group(CalibrateFlag, id), NumberGroup(Seed, seed), NumberGroup(TargetMs, targetMs)]
  }

  method CalibrateArgs(id: string, seed: Word, targetMs: Word) returns (args: seq<string>)
    ensures args == Render(CalibrateGroups(id, seed, targetMs))
  {
    args := ["--calibrate", id, "--seed", Print(seed), "--target-ms", Print(targetMs)];
    var g2 := [NumberGroup(TargetMs, targetMs)];
    var g1 := [NumberGroup(Seed, seed)] + g2;
    assert CalibrateGroups(id, seed, targetMs) == [Group(CalibrateFlag, id)] + g1 && g2 == g2 + [];
    ConsGroup(Group(CalibrateFlag, id), g1);
    ConsGroup(NumberGroup(Seed, seed), g2);
    ConsGroup(NumberGroup(TargetMs, targetMs), []);
  }

  /** What a bench binary does with a vector it accepts: nothing but usage, one
      answer, a calibration, or one measured replicate. */
  datatype Action =
    | Usage
    | AnswerVersion
    | AnswerListing
    | DoCalibrate(id: string, seed: Word, targetMs: Word)
    | DoRun(id: string, seed: Word, iters: Word, replicate: nat, priming: bool, warmupMs: Word)

  function Default50(n: Option<Word>): Word {
    if n.Some? then n.value else 50
  }

  function Dispatch(known: set<string>, args: seq<string>): Result<Action, Error> {
    if args == [] then Ok(Usage)
    else match ParseFrom(args, DEFAULT)
      case Err(e) => Err(e)
      case Ok(opts) => Perform(known, opts)
  }

  function Perform(known: set<string>, opts: Args): Result<Action, Error> {
    if opts.mode.None? then (if opts.cargoSelector then Ok(Usage) else Err(NoMode))
    else match opts.mode.value
      case Version => Ok(AnswerVersion)
      case Listing => Ok(AnswerListing)
      case Calibrate(id) =>
        if id !in known then Err(NoSuchCase(id))
        else if opts.seed.None? then Err(Required(Seed))
        else Ok(DoCalibrate(id, opts.seed.value, Default50(opts.targetMs)))
      case Run(id) =>
        if id !in known then Err(NoSuchCase(id))
        else if opts.seed.None? then Err(Required(Seed))
        else if opts.iters.None? then Err(Required(Iters))
        else if opts.replicate.None? then Err(Required(Replicate))
        else if opts.replicate.value >= TWO32 then Err(ReplicateOutOfRange)
        else
          var iters := if opts.iters.value < 1 then 1 else opts.iters.value;
          Ok(DoRun(id, opts.seed.value, iters, opts.replicate.value, opts.priming, Default50(opts.warmupMs)))
  }

  lemma FoldCons(out: Args, g: Group, gs: seq<Group>)
    requires Apply(out, g).Ok?
    ensures Fold(out, [g] + gs) == Fold(Apply(out, g).value, gs)
  {
    assert ([g] + gs)[1..] == gs;
  }

  lemma FoldNumber(out: Args, f: Flag, n: Word, gs: seq<Group>)
    requires IsNumber(f)
    ensures Fold(out, [NumberGroup(f, n)] + gs) == Fold(SetNumber(out, f, n), gs)
  {
    PrintReadsBack(n);
    FoldCons(out, NumberGroup(f, n), gs);
  }

  lemma MeasureFolds(q: Measurement)
    requires q.replicate < TWO32
    ensures Fold(DEFAULT, MeasureGroups(q))
         == Ok(Args(Some(Run(q.id)), false, Some(q.seed), Some(q.iters), Some(q.replicate),
                    None, Some(q.warmupMs), q.priming))
  {
    var g5 := if q.priming then [Group(Priming, "")] else [];
    var g4 := [NumberGroup(WarmupMs, q.warmupMs)] + g5;
    var g3 := [NumberGroup(Replicate, q.replicate)] + g4;
    var g2 := [NumberGroup(Iters, q.iters)] + g3;
    var g1 := [NumberGroup(Seed, q.seed)] + g2;
    assert MeasureGroups(q) == [Group(RunFlag, q.id)] + g1;
    var a0 := DEFAULT.(mode := Some(Run(q.id)));
    FoldCons(DEFAULT, Group(RunFlag, q.id), g1);
    var a1 := a0.(seed := Some(q.seed));
    FoldNumber(a0, Seed, q.seed, g2);
    var a2 := a1.(iters := Some(q.iters));
    FoldNumber(a1, Iters, q.iters, g3);
    var a3 := a2.(replicate := Some(q.replicate));
    FoldNumber(a2, Replicate, q.replicate, g4);
    FoldNumber(a3, WarmupMs, q.warmupMs, g5);
  }

  /** A measurement survives the wire: the binary runs exactly what the driver
      asked for, whatever the case is called, with an iteration count of at
      least one. */
  lemma MeasurementSurvivesTheWire(known: set<string>, q: Measurement)
    requires q.replicate < TWO32
    ensures Dispatch(known, Render(MeasureGroups(q)))
         == if q.id !in known then Err(NoSuchCase(q.id))
            else Ok(DoRun(q.id, q.seed, if q.iters < 1 then 1 else q.iters, q.replicate, q.priming, q.warmupMs))
  {
    ParseOfRender(DEFAULT, MeasureGroups(q));
    MeasureFolds(q);
    RenderOfMeasure(q);
  }

  lemma CalibrationSurvivesTheWire(known: set<string>, id: string, seed: Word, targetMs: Word)
    ensures Dispatch(known, Render(CalibrateGroups(id, seed, targetMs)))
         == if id !in known then Err(NoSuchCase(id)) else Ok(DoCalibrate(id, seed, targetMs))
  {
    var gs := CalibrateGroups(id, seed, targetMs);
    var g2 := [NumberGroup(TargetMs, targetMs)];
    var g1 := [NumberGroup(Seed, seed)] + g2;
    assert gs == [Group(CalibrateFlag, id)] + g1 && g2 == g2 + [];
    ParseOfRender(DEFAULT, gs);
    var a0 := DEFAULT.(mode := Some(Calibrate(id)));
    FoldCons(DEFAULT, Group(CalibrateFlag, id), g1);
    FoldNumber(a0, Seed, seed, g2);
    FoldNumber(a0.(seed := Some(seed)), TargetMs, targetMs, []);
  }
}
