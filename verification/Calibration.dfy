/** Choosing an iteration count, and the empty-loop floor a case is judged
    against. The clock is an arbitrary function of the probe, so every claim
    holds for any machine and any routine. */
module Calibration {
  import opened Wrappers
  import opened Arithmetic
  import opened LittleEndian

  const MAX_ITERS: nat := 10_000_000

  datatype RegionError = NoRegion | ManyRegions(regions: nat) | NoMeasurement

  /** What probe number `i`, asked for `n` iterations, reads off the clock. */
  type Probe = (nat, nat) -> Result<Word, RegionError>

  function SatMul(a: nat, b: nat): Word {
    if a * b < TWO64 then a * b else TWO64 - 1
  }

  function Clamp(x: int, lo: int, hi: int): int
    requires lo <= hi
  {
    if x < lo then lo else if x > hi then hi else x
  }

  function TargetNs(targetMs: Word): (t: Word)
    ensures t >= 1_000_000
  {
    SatMul(if targetMs < 1 then 1 else targetMs, 1_000_000)
  }

  predicate LongEnough(target: Word, wall: Word) {
    SatMul(wall, 10) >= target
  }

  function Grow(target: Word, wall: Word, iters: nat): nat
    requires wall > 0 && iters <= MAX_ITERS
  {
    var factor := Clamp(target / wall, 2, 20);
    var next := SatMul(iters, factor);
    if next > MAX_ITERS then MAX_ITERS else next
  }

  /** Where the search ends: the last count probed and what it read, or the
      probe's refusal; and how many probes were made. */
  datatype Ending = Settled(iters: nat, wall: Word, probes: nat) | Refused(error: RegionError, probes: nat)

  function AtLeastOne(wall: Word): Word {
    if wall < 1 then 1 else wall
  }

  lemma StepsGrowTenfold(target: Word, wall: Word, iters: nat)
    requires wall > 0 && 1 <= iters < MAX_ITERS && !LongEnough(target, wall)
    ensures Grow(target, wall, iters) >= if 10 * iters < MAX_ITERS then 10 * iters else MAX_ITERS
    ensures Grow(target, wall, iters) <= 20 * iters
  {
    assert wall * 10 < target;
    DivMod(target, wall);
    if target / wall < 10 {
      MulMono(wall, target / wall, 9);
    }
    var factor := Clamp(target / wall, 2, 20);
    MulMono(iters, 10, factor);
    MulMono(iters, factor, 20);
  }

  function Settle(target: Word, probe: Probe, done: nat, iters: nat): Ending
    requires 1 <= iters <= MAX_ITERS
    decreases MAX_ITERS - iters
  {
    match probe(done, iters)
    case Err(e) => Refused(e, done + 1)
    case Ok(raw) =>
      var wall := AtLeastOne(raw);
      if LongEnough(target, wall) || iters >= MAX_ITERS then Settled(iters, wall, done + 1)
      else
        StepsGrowTenfold(target, wall, iters);
        Settle(target, probe, done + 1, Grow(target, wall, iters))
  }

  /** The count for the target, from the per-iteration cost the last probe
      showed. */
  function Scaled(target: Word, wall: Word, iters: nat): nat
    requires wall > 0 && iters > 0
  {
    var perIter := wall as real / iters as real;
    var wanted := target as real / perIter;
    var clamped := if wanted < 1.0 then 1.0 else if wanted > MAX_ITERS as real then MAX_ITERS as real else wanted;
    clamped.Floor
  }

  function Calibrated(pinned: Option<nat>, targetMs: Word, probe: Probe): Result<nat, RegionError> {
    if pinned.Some? then Ok(pinned.value)
    else
      match Settle(TargetNs(targetMs), probe, 0, 1)
      case Refused(e, _) => Err(e)
      case Settled(iters, wall, _) =>
        SettledIsPositive(TargetNs(targetMs), probe, 0, 1);
        Ok(Scaled(TargetNs(targetMs), wall, iters))
  }

  lemma {:induction false} SettledIsPositive(target: Word, probe: Probe, done: nat, iters: nat)
    requires 1 <= iters <= MAX_ITERS
    ensures var s := Settle(target, probe, done, iters);
      s.Settled? ==> s.wall > 0 && 1 <= s.iters <= MAX_ITERS
    decreases MAX_ITERS - iters
  {
    var raw := probe(done, iters);
    if raw.Ok? && !LongEnough(target, AtLeastOne(raw.value)) && iters < MAX_ITERS {
      StepsGrowTenfold(target, AtLeastOne(raw.value), iters);
      SettledIsPositive(target, probe, done + 1, Grow(target, AtLeastOne(raw.value), iters));
    }
  }

  /** The loop, with the number of probes it made. */
  method Calibrate(pinned: Option<nat>, targetMs: Word, probe: Probe)
    returns (r: Result<nat, RegionError>, probes: nat)
    ensures r == Calibrated(pinned, targetMs, probe)
    ensures probes == if pinned.Some? then 0 else Settle(TargetNs(targetMs), probe, 0, 1).probes
  {
    probes := 0;
    if pinned.Some? {
      return Ok(pinned.value), 0;
    }
    var target := TargetNs(targetMs);
    var iters, wall := 1, 1;
    while true
      invariant 1 <= iters <= MAX_ITERS
      invariant Settle(target, probe, 0, 1) == Settle(target, probe, probes, iters)
      decreases MAX_ITERS - iters
    {
      var raw := probe(probes, iters);
      probes := probes + 1;
      if raw.Err? {
        return Err(raw.error), probes;
      }
      wall := AtLeastOne(raw.value);
      if LongEnough(target, wall) || iters >= MAX_ITERS {
        break;
      }
      StepsGrowTenfold(target, wall, iters);
      iters := Grow(target, wall, iters);
    }
    r := Ok(Scaled(target, wall, iters));
  }

  // ---- how many probes ----

  function Pow10(k: nat): nat {
    if k == 0 then 1 else 10 * Pow10(k - 1)
  }

  lemma {:induction false} AtMostEightProbes(target: Word, probe: Probe, done: nat, iters: nat)
    requires 1 <= iters <= MAX_ITERS
    requires done <= 7 && (iters >= Pow10(done) || iters == MAX_ITERS)
    ensures Settle(target, probe, done, iters).probes <= 8
    decreases MAX_ITERS - iters
  {
    var raw := probe(done, iters);
    if raw.Ok? && !LongEnough(target, AtLeastOne(raw.value)) && iters < MAX_ITERS {
      var wall := AtLeastOne(raw.value);
      StepsGrowTenfold(target, wall, iters);
      assert Pow10(7) == MAX_ITERS;
      AtMostEightProbes(target, probe, done + 1, Grow(target, wall, iters));
    }
  }

  /** Every clock ends calibration within eight probes, whether or not one of
      them refuses, and where none does on a count between one and the ceiling. */
  lemma CalibrationSettles(targetMs: Word, probe: Probe)
    ensures Settle(TargetNs(targetMs), probe, 0, 1).probes <= 8
    ensures var r := Calibrated(None, targetMs, probe); r.Ok? ==> 1 <= r.value <= MAX_ITERS
  {
    var t := TargetNs(targetMs);
    AtMostEightProbes(t, probe, 0, 1);
    SettledIsPositive(t, probe, 0, 1);
    var s := Settle(t, probe, 0, 1);
    if s.Settled? {
      ScaledIsTheFlooredQuotient(t, s.wall, s.iters);
    }
  }

  /** Eight is reached: a clock that reads just under a tenth of a millisecond
      whatever it is asked takes all eight probes. */
  lemma EightProbesAreReached(probe: Probe)
    requires forall i, n :: probe(i, n) == Ok(99_999)
    ensures Settle(TargetNs(1), probe, 0, 1) == Settled(MAX_ITERS, 99_999, 8)
  {
    var t := TargetNs(1);
    assert Settle(t, probe, 0, 1) == Settle(t, probe, 1, 10);
    assert Settle(t, probe, 1, 10) == Settle(t, probe, 2, 100);
    assert Settle(t, probe, 2, 100) == Settle(t, probe, 3, 1_000);
    assert Settle(t, probe, 3, 1_000) == Settle(t, probe, 4, 10_000);
    assert Settle(t, probe, 4, 10_000) == Settle(t, probe, 5, 100_000);
    assert Settle(t, probe, 5, 100_000) == Settle(t, probe, 6, 1_000_000);
    assert Settle(t, probe, 6, 1_000_000) == Settle(t, probe, 7, 10_000_000);
  }

  // ---- which probes ----

  /** A probe of `n` iterations that took `wall` was too short for the target, and
      the next takes as many times more as the target is longer, 20 at most, and
      never more than ten million. */
  ghost predicate Follows(target: Word, wall: Word, n: nat, next: nat) {
    wall * 10 < target && n < 10_000_000 && exists factor: nat :: GrownBy(target, wall, n, next, factor)
  }

  predicate GrownBy(target: Word, wall: Word, n: nat, next: nat, factor: nat) {
    && wall * factor <= target && factor <= 20 && (factor < 20 ==> target < wall * (factor + 1))
    && next == if n * factor < 10_000_000 then n * factor else 10_000_000
  }

  lemma GrowFollows(target: Word, wall: Word, n: nat)
    requires wall > 0 && 1 <= n < MAX_ITERS && !LongEnough(target, wall)
    ensures Follows(target, wall, n, Grow(target, wall, n))
  {
    var q := target / wall;
    DivMod(target, wall);
    if q < 10 {
      MulMono(wall, q, 9);
    }
    if q > 20 {
      MulMono(wall, 20, q);
    }
    var factor := if q > 20 then 20 else q;
    assert wall * (q + 1) == wall * q + wall;
    assert GrownBy(target, wall, n, Grow(target, wall, n), factor);
  }

  /** Probe `i` read this time for this count, at least one nanosecond. */
  ghost predicate Reads(probe: Probe, i: nat, n: nat, wall: Word) {
    wall >= 1 && (probe(i, n) == Ok(wall) || (wall == 1 && probe(i, n) == Ok(0)))
  }

  /** The probes from number `done` on asked for these counts and read these
      times, each followed by the next, and the last one refused or was long
      enough or as long as allowed. */
  ghost predicate IsSearch(target: Word, probe: Probe, done: nat, counts: seq<nat>, walls: seq<Word>, end: Ending) {
    var last := |counts| - 1;
    && counts != [] && |walls| >= last && end.probes == done + |counts|
    && (forall i | 0 <= i < last ::
          Reads(probe, done + i, counts[i], walls[i]) && Follows(target, walls[i], counts[i], counts[i + 1]))
    && match end {
         case Refused(error, _) => probe(done + last, counts[last]) == Err(error)
         case Settled(iters, wall, _) =>
           iters == counts[last] && Reads(probe, done + last, iters, wall)
           && (wall * 10 >= target || iters == 10_000_000)
       }
  }

  lemma SearchOneEarlier(
    target: Word, probe: Probe, done: nat, counts: seq<nat>, walls: seq<Word>, end: Ending, n: nat, wall: Word)
    requires IsSearch(target, probe, done + 1, counts, walls, end)
    requires Reads(probe, done, n, wall) && Follows(target, wall, n, counts[0])
    ensures IsSearch(target, probe, done, [n] + counts, [wall] + walls, end)
  {
    var more, read := [n] + counts, [wall] + walls;
    forall i | 0 <= i < |more| - 1
      ensures Reads(probe, done + i, more[i], read[i]) && Follows(target, read[i], more[i], more[i + 1])
    {
      assert i > 0 ==> Reads(probe, done + 1 + (i - 1), counts[i - 1], walls[i - 1]);
      assert i > 0 ==> Follows(target, walls[i - 1], counts[i - 1], counts[i]);
    }
  }

  /** The search, told as its probes. */
  lemma {:induction false} SearchFollowsTheClock(target: Word, probe: Probe, done: nat, iters: nat)
    returns (counts: seq<nat>, walls: seq<Word>)
    requires 1 <= iters <= MAX_ITERS
    ensures IsSearch(target, probe, done, counts, walls, Settle(target, probe, done, iters)) && counts[0] == iters
    decreases MAX_ITERS - iters
  {
    counts, walls := [iters], [];
    var raw := probe(done, iters);
    if raw.Ok? {
      var wall := AtLeastOne(raw.value);
      if !LongEnough(target, wall) && iters < MAX_ITERS {
        StepsGrowTenfold(target, wall, iters);
        GrowFollows(target, wall, iters);
        counts, walls := SearchFollowsTheClock(target, probe, done + 1, Grow(target, wall, iters));
        SearchOneEarlier(target, probe, done, counts, walls, Settle(target, probe, done, iters), iters, wall);
        counts, walls := [iters] + counts, [wall] + walls;
      }
    }
  }

  /** Calibration from any clock: a pinned count is returned unprobed; otherwise
      the probes start at one iteration, a refusal is passed on, and the count is
      the target over the rate of the last probe, rounded down, from 1 to ten
      million. */
  lemma CalibratedFromTheLastProbe(targetMs: Word, t: Word, probe: Probe, pinned: nat)
    returns (counts: seq<nat>, walls: seq<Word>, end: Ending)
    requires IsTarget(targetMs, t)
    ensures Calibrated(Some(pinned), targetMs, probe) == Ok(pinned)
    ensures IsSearch(t, probe, 0, counts, walls, end) && counts[0] == 1
    ensures Calibrated(None, targetMs, probe) ==
      match end {
        case Refused(error, _) => Err(error)
        case Settled(iters, wall, _) => Ok(Clamp(t * iters / wall, 1, 10_000_000))
      }
  {
    TargetIsInNanoseconds(targetMs, t);
    end := Settle(t, probe, 0, 1);
    counts, walls := SearchFollowsTheClock(t, probe, 0, 1);
    SettledIsPositive(t, probe, 0, 1);
    if end.Settled? {
      ScaledIsTheFlooredQuotient(t, end.wall, end.iters);
    }
  }

  // ---- what count comes out ----

  lemma FloorOfQuotient(a: nat, b: nat)
    requires b > 0
    ensures (a as real / b as real).Floor == a / b
  {
    var q := a / b;
    DivMod(a, b);
    assert a as real == b as real * q as real + (a % b) as real;
    assert a as real / b as real == q as real + (a % b) as real / b as real;
    assert 0.0 <= (a % b) as real / b as real < 1.0;
  }

  lemma ScaledIsTheFlooredQuotient(target: Word, wall: Word, iters: nat)
    requires wall > 0 && iters > 0
    ensures Scaled(target, wall, iters) == Clamp(target * iters / wall, 1, MAX_ITERS)
  {
    var wanted := target as real / (wall as real / iters as real);
    assert wanted == (target * iters) as real / wall as real by {
      assert (target * iters) as real == target as real * iters as real;
    }
    FloorOfQuotient(target * iters, wall);
  }

  /** The count is the largest whose cost at the measured rate fits the target,
      wherever the bounds leave it alone. */
  lemma CountFillsTheTarget(target: Word, wall: Word, iters: nat)
    requires wall > 0 && iters > 0
    requires wall <= target * iters < wall * (MAX_ITERS + 1)
    ensures var k := Scaled(target, wall, iters);
      wall * k <= target * iters < wall * (k + 1)
  {
    ScaledIsTheFlooredQuotient(target, wall, iters);
    DivMod(target * iters, wall);
    var q := target * iters / wall;
    if q < 1 {
      MulMono(wall, q, 0);
    } else if q > MAX_ITERS {
      MulMono(wall, MAX_ITERS + 1, q);
    }
    assert wall * (q + 1) == wall * q + wall;
  }

  ghost predicate Linear(probe: Probe, c: nat) {
    forall i, n: nat | 1 <= n <= MAX_ITERS :: c * n < TWO64 && probe(i, n) == Ok(c * n)
  }

  lemma {:induction false} LinearSettles(target: Word, probe: Probe, c: nat, done: nat, iters: nat)
    requires c > 0 && Linear(probe, c) && 1 <= iters <= MAX_ITERS
    ensures var s := Settle(target, probe, done, iters);
      s.Settled? && s.wall == c * s.iters && 1 <= s.iters
    decreases MAX_ITERS - iters
  {
    assert probe(done, iters) == Ok(c * iters);
    MulMono(c, 1, iters);
    if !LongEnough(target, c * iters) && iters < MAX_ITERS {
      StepsGrowTenfold(target, c * iters, iters);
      LinearSettles(target, probe, c, done + 1, Grow(target, c * iters, iters));
    }
  }

  /** The target in nanoseconds: a million for each millisecond, at least one of
      them, and no more than a 64-bit word holds. */
  ghost predicate IsTarget(targetMs: Word, t: Word) {
    var ms := if targetMs == 0 then 1 else targetMs;
    if 1_000_000 * ms < TWO64 then t == 1_000_000 * ms else t == TWO64 - 1
  }

  lemma TargetIsInNanoseconds(targetMs: Word, t: Word)
    ensures IsTarget(targetMs, t) <==> t == TargetNs(targetMs)
  {
  }

  /** A routine costing exactly `c` nanoseconds an iteration calibrates to the
      largest count that fits the target, however the probes went. */
  lemma LinearRoutineFillsTheTarget(targetMs: Word, t: Word, probe: Probe, c: nat)
    requires c > 0 && Linear(probe, c) && IsTarget(targetMs, t)
    ensures Calibrated(None, targetMs, probe) == Ok(Clamp(t / c, 1, 10_000_000))
    ensures c <= t < c * 10_000_001 ==>
      var k := Calibrated(None, targetMs, probe).value; c * k <= t < c * (k + 1)
  {
    TargetIsInNanoseconds(targetMs, t);
    LinearCount(targetMs, probe, c);
    DivMod(t, c);
    assert probe(0, 1) == Ok(c * 1);
    if c <= t < c * (MAX_ITERS + 1) {
      assert t * 1 == t;
      ScaledIsTheFlooredQuotient(t, c, 1);
      CountFillsTheTarget(t, c, 1);
    }
  }

  lemma LinearCount(targetMs: Word, probe: Probe, c: nat)
    requires c > 0 && Linear(probe, c)
    ensures Calibrated(None, targetMs, probe) == Ok(Clamp(TargetNs(targetMs) / c, 1, MAX_ITERS))
  {
    var t := TargetNs(targetMs);
    LinearSettles(t, probe, c, 0, 1);
    var s := Settle(t, probe, 0, 1);
    MulMono(c, 1, s.iters);
    ScaledIsTheFlooredQuotient(t, s.wall, s.iters);
    CommonFactor(t, c, s.iters);
  }

  lemma CommonFactor(t: nat, c: nat, n: nat)
    requires c > 0 && n > 0
    ensures c * n > 0 && t * n / (c * n) == t / c
  {
    DivMod(t, c);
    var q, r := t / c, t % c;
    assert t * n == (c * n) * q + r * n by {
      assert (c * q + r) * n == (c * n) * q + r * n;
    }
    MulStep(n, r, c);
    MulMono(n, 0, r);
    DivUnique(t * n, c * n, q, r * n);
  }

  // ---- the empty-loop floor ----

  const PASSES: nat := 3
  const PROBE_GROWTH: nat := 8
  const PROBE_MAX: nat := 0x40_0000

  /** What pass `p` of round `j`, over `n` iterations, reads off the clock. */
  type LoopClock = (nat, nat, nat) -> Word

  /** The loop length of round `j`. */
  function RoundCount(iters: Word, j: nat): (n: Word)
    ensures n >= 1
    ensures j > 0 ==> n <= PROBE_MAX
  {
    if j == 0 then AtLeastOne(iters)
    else
      var grown := SatMul(RoundCount(iters, j - 1), PROBE_GROWTH);
      if grown > PROBE_MAX then PROBE_MAX else grown
  }

  /** The first loop is as long as the count measured, and each next one eight
      times as long, up to 2^22 iterations. */
  lemma RoundsGrowEightfold(iters: Word, j: nat)
    ensures RoundCount(iters, 0) == if iters == 0 then 1 else iters
    ensures var grown := 8 * RoundCount(iters, j);
      RoundCount(iters, j + 1) == if grown < 0x40_0000 then grown else 0x40_0000
  {
  }

  lemma LongerRound(iters: Word, j: nat)
    ensures var grown := SatMul(RoundCount(iters, j), PROBE_GROWTH);
      RoundCount(iters, j + 1) == if grown > PROBE_MAX then PROBE_MAX else grown
  {
  }

  ghost predicate Unresolved(clock: LoopClock, iters: Word, j: nat) {
    forall p: nat | p < 3 :: clock(j, p, RoundCount(iters, j)) == 0
  }

  /** `f` is the least per-iteration time among the passes of round `j` the
      clock resolved. */
  ghost predicate IsRoundFloor(clock: LoopClock, iters: Word, j: nat, f: real) {
    var n := RoundCount(iters, j);
    && (exists p: nat | p < 3 :: clock(j, p, n) > 0 && f == clock(j, p, n) as real / n as real)
    && (forall p: nat | p < 3 && clock(j, p, n) > 0 :: f <= clock(j, p, n) as real / n as real)
  }

  method RoundFloor(clock: LoopClock, iters: Word, j: nat, n: Word) returns (floor: Option<real>)
    requires n == RoundCount(iters, j)
    ensures floor.None? <==> Unresolved(clock, iters, j)
    ensures floor.Some? ==> IsRoundFloor(clock, iters, j, floor.value)
  {
    floor := None;
    for p := 0 to PASSES
      invariant floor.None? ==> forall q: nat | q < p :: clock(j, q, n) == 0
      invariant floor.Some? ==> exists q: nat | q < p ::
        clock(j, q, n) > 0 && floor.value == clock(j, q, n) as real / n as real
      invariant floor.Some? ==> forall q: nat | q < p && clock(j, q, n) > 0 ::
        floor.value <= clock(j, q, n) as real / n as real
    {
      var elapsed := clock(j, p, n);
      if elapsed > 0 {
        var perIter := elapsed as real / n as real;
        if floor.None? || perIter < floor.value {
          floor := Some(perIter);
        }
      }
    }
  }

  /** The floor comes from the first round the clock resolves, so a count it
      already resolves is never grown. The clock is given up on only when the
      longest loop allowed read zero too. */
  method EmptyLoopFloor(iters: Word, clock: LoopClock) returns (floor: Option<real>, last: nat)
    ensures forall j: nat | j < last :: Unresolved(clock, iters, j)
    ensures last <= 8 && (last == 0 || RoundCount(iters, last - 1) < 0x40_0000)
    ensures floor.Some? ==> IsRoundFloor(clock, iters, last, floor.value)
    ensures floor.None? ==> Unresolved(clock, iters, last) && RoundCount(iters, last) >= 0x40_0000
  {
    var count := AtLeastOne(iters);
    last := 0;
    while true
      invariant count == RoundCount(iters, last)
      invariant forall j: nat | j < last :: Unresolved(clock, iters, j)
      invariant last == 0 || RoundCount(iters, last - 1) < PROBE_MAX
      invariant last <= 8 && (count >= Pow8(last) || count == PROBE_MAX)
      decreases if count < PROBE_MAX then PROBE_MAX - count else 0
    {
      floor := RoundFloor(clock, iters, last, count);
      if floor.Some? {
        return;
      }
      if count >= PROBE_MAX {
        return;
      }
      LongerRound(iters, last);
      assert Pow8(7) == 0x20_0000;
      var grown := SatMul(count, PROBE_GROWTH);
      count := if grown > PROBE_MAX then PROBE_MAX else grown;
      last := last + 1;
    }
  }

  function Pow8(k: nat): nat {
    if k == 0 then 1 else 8 * Pow8(k - 1)
  }

  // ---- the measured region ----

  /** One call a routine makes to its bencher, with what the region cost. */
  datatype RegionCall = RegionCall(wall: Word, batched: bool)
  datatype Region = Region(wall: Word, batched: bool)

  class Bencher {
    const recording: bool
    var regions: nat
    var batched: bool
    var region: Option<Region>

    constructor (recording: bool)
      ensures this.recording == recording && regions == 0 && !batched && region == None
    {
      this.recording := recording;
      regions, batched, region := 0, false, None;
    }

    method Iter(call: RegionCall)
      modifies this
      ensures regions == old(regions) + 1
      ensures batched == (old(batched) || call.batched)
      ensures region == if recording then Some(Region(call.wall, batched)) else old(region)
    {
      regions := regions + 1;
      if call.batched {
        batched := true;
      }
      if recording {
        region := Some(Region(call.wall, batched));
      }
    }

    method FinishRecording() returns (r: Result<Region, RegionError>)
      ensures r == if regions == 0 then Err(NoRegion)
                   else if regions > 1 then Err(ManyRegions(regions))
                   else if region.None? then Err(NoMeasurement)
                   else Ok(region.value)
    {
      if regions != 1 {
        return Err(if regions == 0 then NoRegion else ManyRegions(regions));
      }
      r := if region.Some? then Ok(region.value) else Err(NoMeasurement);
    }
  }

  /** A routine is measured exactly when it marks one region, and then the
      record carries that region and how it was marked. */
  method MeasureRegion(calls: seq<RegionCall>) returns (r: Result<Region, RegionError>)
    ensures r.Ok? <==> |calls| == 1
    ensures r.Ok? ==> r.value == Region(calls[0].wall, calls[0].batched)
    ensures r.Err? ==> r.error == if calls == [] then NoRegion else ManyRegions(|calls|)
  {
    var bencher := new Bencher(true);
    for i := 0 to |calls|
      invariant bencher.recording && bencher.regions == i
      invariant i == 0 ==> !bencher.batched
      invariant i > 0 ==> bencher.region.Some?
      invariant i == 1 ==> bencher.region == Some(Region(calls[0].wall, calls[0].batched))
    {
      bencher.Iter(calls[i]);
    }
    r := bencher.FinishRecording();
  }
}
