/** The interleaved schedule of a two-leg run: a priming pair per case, then one
    pair per case and replicate, the leg that goes first alternating by
    replicate. A run may stop after any measurement. */
module Schedule {
  import opened Arithmetic
  import opened RealArithmetic
  import opened Sets
  import opened Cases

  datatype LegName = Base | Head

  datatype Record = Record(leg: LegName, id: CaseId, replicate: nat, priming: bool, iters: nat)

  /** The key records pair by. */
  datatype Key = Key(id: CaseId, replicate: nat, priming: bool)

  function KeyOf(r: Record): Key {
    Key(r.id, r.replicate, r.priming)
  }

  predicate BaseFirst(replicate: nat) {
    replicate % 2 == 0
  }

  predicate ParityAccepted(replicates: nat) {
    replicates % 2 == 0
  }

  function Other(leg: LegName): LegName {
    if leg.Base? then Head else Base
  }

  /** The shared cases in order, with the count calibrated on the base leg and
      pinned for both, and the replicates to take. */
  datatype Plan = Plan(cases: seq<CaseId>, iters: map<CaseId, nat>, replicates: nat) {
    ghost predicate Valid() {
      && |cases| > 0
      && (forall i, j | 0 <= i < j < |cases| :: cases[i] != cases[j])
      && (forall c | c in cases :: c in iters)
    }

    function Total(): nat {
      2 * (|cases| * (replicates + 1))
    }

    /** The `p`-th pair: which case, which round, and which leg leads. Round
        zero is the priming pass. */
    function PairCase(p: nat): CaseId
      requires Valid()
    {
      cases[p % |cases|]
    }

    function Round(p: nat): nat
      requires Valid()
    {
      DivShrinks(p, |cases|);
      p / |cases|
    }

    function Leader(p: nat): LegName
      requires Valid()
    {
      if Round(p) == 0 || BaseFirst(Round(p) - 1) then Base else Head
    }

    /** The `j`-th measurement of the run. */
    function At(j: nat): (r: Record)
      requires Valid()
      ensures KeyOf(r) == PairKey(j / 2)
      ensures r.iters == iters[r.id]
    {
      var p := j / 2;
      assert PairCase(p) in cases;
      Record(if j % 2 == 0 then Leader(p) else Other(Leader(p)), PairCase(p),
             if Round(p) == 0 then 0 else Round(p) - 1, Round(p) == 0, iters[PairCase(p)])
    }

    function PairKey(p: nat): Key
      requires Valid()
    {
      Key(PairCase(p), if Round(p) == 0 then 0 else Round(p) - 1, Round(p) == 0)
    }

    /** What one leg's file holds after `done` measurements. */
    function Written(leg: LegName, done: nat): seq<Record>
      requires Valid()
    {
      if done == 0 then []
      else Written(leg, done - 1) + if At(done - 1).leg == leg then [At(done - 1)] else []
    }
  }

  // ---- the run ----

  /** The two files after `done` measurements, all of which succeeded. */
  ghost predicate Progress(plan: Plan, ok: nat -> bool, base: seq<Record>, head: seq<Record>, done: nat)
    requires plan.Valid()
  {
    && base == plan.Written(Base, done)
    && head == plan.Written(Head, done)
    && forall j: nat | j < done :: ok(j)
  }

  /** Runs the plan, writing each record to its leg. `ok(j)` says whether
      measurement `j` succeeds; the first that does not ends the run. */
  method TwoLegs(plan: Plan, ok: nat -> bool)
    returns (base: seq<Record>, head: seq<Record>, done: nat, finished: bool)
    requires plan.Valid()
    ensures Progress(plan, ok, base, head, done)
    ensures done <= plan.Total() && (finished <==> done == plan.Total())
    ensures !finished ==> !ok(done)
    ensures finished ==> |base| == |head| == |plan.cases| * (plan.replicates + 1)
  {
    base, head, done, finished := MeasureRound(plan, ok, 0, [], []);
    if !finished {
      RoundsFit(plan, 0, done);
      return;
    }
    for replicate := 0 to plan.replicates
      invariant finished && done == 2 * (|plan.cases| * (replicate + 1))
      invariant Progress(plan, ok, base, head, done)
    {
      base, head, done, finished := MeasureRound(plan, ok, replicate + 1, base, head);
      if !finished {
        RoundsFit(plan, replicate + 1, done);
        return;
      }
    }
    PairsFillBothLegs(plan, Base, |plan.cases| * (plan.replicates + 1));
    PairsFillBothLegs(plan, Head, |plan.cases| * (plan.replicates + 1));
  }

  /** One pass over the cases: the priming pass, or one replicate. */
  method MeasureRound(plan: Plan, ok: nat -> bool, round: nat, base0: seq<Record>, head0: seq<Record>)
    returns (base: seq<Record>, head: seq<Record>, done: nat, finished: bool)
    requires plan.Valid() && Progress(plan, ok, base0, head0, 2 * (|plan.cases| * round))
    ensures Progress(plan, ok, base, head, done)
    ensures done <= 2 * (|plan.cases| * (round + 1)) && (finished <==> done == 2 * (|plan.cases| * (round + 1)))
    ensures !finished ==> !ok(done)
  {
    ghost var start := |plan.cases| * round;
    assert |plan.cases| * (round + 1) == start + |plan.cases|;
    base, head, done, finished := base0, head0, 2 * (|plan.cases| * round), false;
    for i := 0 to |plan.cases|
      invariant done == 2 * (start + i)
      invariant Progress(plan, ok, base, head, done)
    {
      RoundRecords(plan, round, i);
      var id := plan.cases[i];
      var replicate := if round == 0 then 0 else round - 1;
      var leader := if round == 0 || BaseFirst(replicate) then Base else Head;
      var first := Record(leader, id, replicate, round == 0, plan.iters[id]);
      base, head, done, finished := MeasurePair(plan, ok, done, first, first.(leg := Other(leader)), base, head);
      if !finished {
        return;
      }
    }
    finished := true;
  }

  /** Both measurements of one pair, each appended to its own leg. */
  method MeasurePair(plan: Plan, ok: nat -> bool, done0: nat, first: Record, second: Record,
                     base0: seq<Record>, head0: seq<Record>)
    returns (base: seq<Record>, head: seq<Record>, done: nat, both: bool)
    requires plan.Valid() && Progress(plan, ok, base0, head0, done0)
    requires first == plan.At(done0) && second == plan.At(done0 + 1)
    ensures done <= done0 + 2 && (both <==> done == done0 + 2)
    ensures Progress(plan, ok, base, head, done)
    ensures !both ==> !ok(done)
  {
    base, head, done, both := base0, head0, done0, false;
    if !ok(done) {
      return;
    }
    base, head := WriteOne(plan, ok, done, first, base, head);
    done := done + 1;
    if !ok(done) {
      return;
    }
    base, head := WriteOne(plan, ok, done, second, base, head);
    done := done + 1;
    both := true;
  }

  method WriteOne(plan: Plan, ghost ok: nat -> bool, ghost done: nat, record: Record,
                  base0: seq<Record>, head0: seq<Record>)
    returns (base: seq<Record>, head: seq<Record>)
    requires plan.Valid() && Progress(plan, ok, base0, head0, done)
    requires record == plan.At(done) && ok(done)
    ensures Progress(plan, ok, base, head, done + 1)
  {
    base, head := base0, head0;
    if record.leg.Base? {
      base := base + [record];
    } else {
      head := head + [record];
    }
  }

  lemma RoundRecords(plan: Plan, round: nat, i: nat)
    requires plan.Valid() && i < |plan.cases|
    ensures plan.cases[i] in plan.iters
    ensures var j := 2 * (|plan.cases| * round + i);
      var replicate := if round == 0 then 0 else round - 1;
      var leader := if round == 0 || BaseFirst(replicate) then Base else Head;
      && plan.At(j) == Record(leader, plan.cases[i], replicate, round == 0, plan.iters[plan.cases[i]])
      && plan.At(j + 1) == plan.At(j).(leg := Other(leader))
  {
    var p := |plan.cases| * round + i;
    DivUnique(p, |plan.cases|, round, i);
    assert 2 * p / 2 == p && (2 * p + 1) / 2 == p;
    assert plan.cases[i] in plan.cases;
  }

  /** The schedule, spelled out: in each round every case in turn, the base leg
      first in the priming round and in even replicates, the other leg right
      after it, both at the case's pinned count. */
  lemma ScheduleInOrder(plan: Plan, round: nat, i: nat)
    requires plan.Valid() && i < |plan.cases|
    ensures var j, id := 2 * (|plan.cases| * round + i), plan.cases[i];
      && id in plan.iters
      && (round == 0 ==>
            && plan.At(j) == Record(Base, id, 0, true, plan.iters[id])
            && plan.At(j + 1) == Record(Head, id, 0, true, plan.iters[id]))
      && (round % 2 == 1 ==>
            && plan.At(j) == Record(Base, id, round - 1, false, plan.iters[id])
            && plan.At(j + 1) == Record(Head, id, round - 1, false, plan.iters[id]))
      && (round > 0 && round % 2 == 0 ==>
            && plan.At(j) == Record(Head, id, round - 1, false, plan.iters[id])
            && plan.At(j + 1) == Record(Base, id, round - 1, false, plan.iters[id]))
  {
    RoundRecords(plan, round, i);
  }

  lemma RoundsInOrder(plan: Plan, p: nat, q: nat)
    requires plan.Valid() && p <= q
    ensures plan.Round(p) <= plan.Round(q)
  {
    var m := |plan.cases|;
    DivMod(p, m);
    DivMod(q, m);
    if q / m < p / m {
      MulStep(m, q / m, p / m);
    }
  }

  lemma RoundsFit(plan: Plan, round: nat, done: nat)
    requires plan.Valid() && round <= plan.replicates
    requires done < 2 * (|plan.cases| * (round + 1))
    ensures done < plan.Total()
  {
    MulMono(|plan.cases|, round + 1, plan.replicates + 1);
  }

  // ---- every prefix is comparable ----

  /** A key belongs to one pair. */
  lemma PairKeyInjective(plan: Plan, p: nat, q: nat)
    requires plan.Valid() && plan.PairKey(p) == plan.PairKey(q)
    ensures p == q
  {
    var m := |plan.cases|;
    DivMod(p, m);
    DivMod(q, m);
    assert p % m == q % m && p / m == q / m;
  }

  /** When the `i`-th record of a leg was measured. */
  ghost function Position(plan: Plan, leg: LegName, done: nat, i: nat): (j: nat)
    requires plan.Valid() && i < |plan.Written(leg, done)|
    ensures j < done && plan.At(j).leg == leg && plan.Written(leg, done)[i] == plan.At(j)
  {
    if i < |plan.Written(leg, done - 1)| then Position(plan, leg, done - 1, i) else done - 1
  }

  lemma {:induction false} PositionsIncrease(plan: Plan, leg: LegName, done: nat, i: nat, k: nat)
    requires plan.Valid() && i < k < |plan.Written(leg, done)|
    ensures Position(plan, leg, done, i) < Position(plan, leg, done, k)
  {
    if k < |plan.Written(leg, done - 1)| {
      PositionsIncrease(plan, leg, done - 1, i, k);
    }
  }

  /** Keys are unique within each leg after any number of measurements, so a run
      cut anywhere still loads as two legs. */
  lemma KeysAreUniquePerLeg(plan: Plan, leg: LegName, done: nat, i: nat, k: nat)
    requires plan.Valid() && i < k < |plan.Written(leg, done)|
    ensures KeyOf(plan.Written(leg, done)[i]) != KeyOf(plan.Written(leg, done)[k])
  {
    PositionsIncrease(plan, leg, done, i, k);
    var j, l := Position(plan, leg, done, i), Position(plan, leg, done, k);
    if plan.PairKey(j / 2) == plan.PairKey(l / 2) {
      PairKeyInjective(plan, j / 2, l / 2);
    }
  }

  /** Every record of a case, on either leg, was taken at one iteration count. */
  lemma OneCountPerCase(plan: Plan, leg: LegName, other: LegName, done: nat, i: nat, k: nat)
    requires plan.Valid() && i < |plan.Written(leg, done)| && k < |plan.Written(other, done)|
    requires plan.Written(leg, done)[i].id == plan.Written(other, done)[k].id
    ensures plan.Written(leg, done)[i].iters == plan.Written(other, done)[k].iters
  {
    var j, l := Position(plan, leg, done, i), Position(plan, other, done, k);
  }

  /** The leg holds a record of this key. */
  ghost predicate Measured(plan: Plan, leg: LegName, done: nat, key: Key)
    requires plan.Valid()
  {
    exists i: nat :: i < |plan.Written(leg, done)| && KeyOf(plan.Written(leg, done)[i]) == key
  }

  ghost predicate Taken(plan: Plan, leg: LegName, done: nat, key: Key)
    requires plan.Valid()
  {
    exists j: nat :: j < done && plan.At(j).leg == leg && KeyOf(plan.At(j)) == key
  }

  lemma MeasuredIffTaken(plan: Plan, leg: LegName, done: nat, key: Key)
    requires plan.Valid()
    ensures Measured(plan, leg, done, key) <==> Taken(plan, leg, done, key)
  {
    if i: nat :| i < |plan.Written(leg, done)| && KeyOf(plan.Written(leg, done)[i]) == key {
      var j := Position(plan, leg, done, i);
      assert plan.At(j).leg == leg && KeyOf(plan.At(j)) == key;
    }
    if j: nat :| j < done && plan.At(j).leg == leg && KeyOf(plan.At(j)) == key {
      var i := PlaceOf(plan, done, j);
      assert KeyOf(plan.Written(leg, done)[i]) == key;
    }
  }

  /** Where measurement `j` stands in its leg's file. */
  ghost function PlaceOf(plan: Plan, done: nat, j: nat): (i: nat)
    requires plan.Valid() && j < done
    ensures i < |plan.Written(plan.At(j).leg, done)| && plan.Written(plan.At(j).leg, done)[i] == plan.At(j)
  {
    if j == done - 1 then |plan.Written(plan.At(j).leg, done - 1)| else PlaceOf(plan, done - 1, j)
  }

  ghost predicate Unpaired(plan: Plan, done: nat, key: Key)
    requires plan.Valid()
  {
    Measured(plan, Base, done, key) != Measured(plan, Head, done, key)
  }

  lemma PartnerIsWritten(plan: Plan, done: nat, j: nat)
    requires plan.Valid() && j < done && !(j == done - 1 && j % 2 == 0)
    ensures !Unpaired(plan, done, KeyOf(plan.At(j)))
  {
    var partner := if j % 2 == 0 then j + 1 else j - 1;
    assert partner / 2 == j / 2;
    assert plan.At(partner).leg == Other(plan.At(j).leg) && KeyOf(plan.At(partner)) == KeyOf(plan.At(j));
    MeasuredIffTaken(plan, Base, done, KeyOf(plan.At(j)));
    MeasuredIffTaken(plan, Head, done, KeyOf(plan.At(j)));
  }

  lemma LastOfAnOddPrefixIsUnpaired(plan: Plan, done: nat)
    requires plan.Valid() && done % 2 == 1
    ensures Unpaired(plan, done, KeyOf(plan.At(done - 1)))
  {
    var leg, key := plan.At(done - 1).leg, KeyOf(plan.At(done - 1));
    MeasuredIffTaken(plan, leg, done, key);
    MeasuredIffTaken(plan, Other(leg), done, key);
    assert plan.At(done - 1).leg == leg;
    if Taken(plan, Other(leg), done, key) {
      var j: nat :| j < done && plan.At(j).leg == Other(leg) && KeyOf(plan.At(j)) == key;
      PairKeyInjective(plan, j / 2, (done - 1) / 2);
    }
  }

  /** After any number of measurements at most one key in the whole run lacks
      its partner: the last one written, and only when the count is odd. */
  lemma AtMostOneKeyIsUnpaired(plan: Plan, done: nat, key: Key)
    requires plan.Valid()
    ensures Unpaired(plan, done, key) <==> done % 2 == 1 && key == KeyOf(plan.At(done - 1))
  {
    MeasuredIffTaken(plan, Base, done, key);
    MeasuredIffTaken(plan, Head, done, key);
    if Unpaired(plan, done, key) {
      var j: nat :| j < done && KeyOf(plan.At(j)) == key;
      if !(j == done - 1 && j % 2 == 0) {
        PartnerIsWritten(plan, done, j);
      }
    }
    if done % 2 == 1 {
      LastOfAnOddPrefixIsUnpaired(plan, done);
    }
  }

  // ---- what a finished run holds ----

  /** A pair leaves one record on each leg. */
  lemma {:induction false} PairsFillBothLegs(plan: Plan, leg: LegName, pairs: nat)
    requires plan.Valid()
    ensures |plan.Written(leg, 2 * pairs)| == pairs
  {
    if pairs > 0 {
      var j := 2 * pairs - 2;
      PairsFillBothLegs(plan, leg, pairs - 1);
      assert j / 2 == (j + 1) / 2;
      assert plan.At(j + 1).leg == Other(plan.At(j).leg);
    }
  }

  /** A key the plan asks for: the one priming pass of a planned case, or one of
      its replicates. */
  predicate Planned(plan: Plan, key: Key) {
    key.id in plan.cases && if key.priming then key.replicate == 0 else key.replicate < plan.replicates
  }

  lemma TakenIsPlanned(plan: Plan, j: nat)
    requires plan.Valid() && j < 2 * (|plan.cases| * (plan.replicates + 1))
    ensures Planned(plan, KeyOf(plan.At(j)))
  {
    var p, m := j / 2, |plan.cases|;
    DivMod(p, m);
    assert plan.PairCase(p) in plan.cases;
    if plan.Round(p) > plan.replicates {
      MulMono(m, plan.replicates + 1, p / m);
      assert false;
    }
  }

  lemma PlannedIsTaken(plan: Plan, leg: LegName, key: Key)
    requires plan.Valid() && Planned(plan, key)
    ensures Taken(plan, leg, 2 * (|plan.cases| * (plan.replicates + 1)), key)
  {
    var m, round := |plan.cases|, if key.priming then 0 else key.replicate + 1;
    var i: nat :| i < m && plan.cases[i] == key.id;
    RoundRecords(plan, round, i);
    assert m * (round + 1) == m * round + m;
    MulMono(m, round + 1, plan.replicates + 1);
    var j := 2 * (m * round + i);
    assert plan.At(j).leg == leg || plan.At(j + 1).leg == leg;
  }

  /** After a finished run a leg holds a record of a key exactly when the plan asks
      for it: one priming pass and every replicate of every case, no more. */
  lemma FinishedLegHolds(plan: Plan, leg: LegName, key: Key)
    requires plan.Valid()
    ensures Measured(plan, leg, plan.Total(), key) <==>
      key.id in plan.cases && if key.priming then key.replicate == 0 else key.replicate < plan.replicates
    ensures |plan.Written(leg, plan.Total())| == |plan.cases| * (plan.replicates + 1)
  {
    PairsFillBothLegs(plan, leg, |plan.cases| * (plan.replicates + 1));
    MeasuredIffTaken(plan, leg, plan.Total(), key);
    if Planned(plan, key) {
      PlannedIsTaken(plan, leg, key);
    }
    if Taken(plan, leg, plan.Total(), key) {
      var j: nat :| j < plan.Total() && plan.At(j).leg == leg && KeyOf(plan.At(j)) == key;
      TakenIsPlanned(plan, j);
    }
  }

  /** A finished run pairs every replicate of every case, which is an even number
      of pairs exactly when the parity guard accepts the plan. */
  lemma FinishedRunPairs(plan: Plan, id: CaseId) returns (pairs: set<nat>)
    requires plan.Valid() && id in plan.cases
    ensures forall k: nat :: k in pairs <==>
      Measured(plan, Base, plan.Total(), Key(id, k, false)) && Measured(plan, Head, plan.Total(), Key(id, k, false))
    ensures |pairs| == plan.replicates
    ensures |pairs| % 2 == 0 <==> ParityAccepted(plan.replicates)
  {
    pairs := Below(plan.replicates);
    forall k: nat
      ensures k in pairs <==>
        Measured(plan, Base, plan.Total(), Key(id, k, false)) && Measured(plan, Head, plan.Total(), Key(id, k, false))
    {
      FinishedLegHolds(plan, Base, Key(id, k, false));
      FinishedLegHolds(plan, Head, Key(id, k, false));
    }
  }

  // ---- the order effect ----

  /** How often the base leg goes first in the first `n` replicates of case
      number `i`. */
  function BaseLeads(plan: Plan, i: nat, n: nat): nat
    requires plan.Valid() && i < |plan.cases|
  {
    if n == 0 then 0
    else BaseLeads(plan, i, n - 1) + if plan.Leader(|plan.cases| * n + i).Base? then 1 else 0
  }

  /** Of an even count each leg goes first for half, of an odd one the base goes
      first once more. */
  lemma {:induction false} LegsShareTheLead(plan: Plan, i: nat, n: nat)
    requires plan.Valid() && i < |plan.cases|
    ensures BaseLeads(plan, i, n) == (n + 1) / 2
  {
    if n > 0 {
      LegsShareTheLead(plan, i, n - 1);
      DivUnique(|plan.cases| * n + i, |plan.cases|, n, i);
    }
  }

  /** Per-pair differences with a cost `e` of running second added: it lands on
      the head leg when the base went first and on the base leg otherwise. */
  function WithOrderEffect(d: seq<real>, e: real): (s: seq<real>)
    ensures |s| == |d|
  {
    seq(|d|, r requires 0 <= r < |d| => if BaseFirst(r) then d[r] + e else d[r] - e)
  }

  lemma {:induction false} OrderEffectOnTheSum(d: seq<real>, e: real)
    ensures Sum(WithOrderEffect(d, e)) == Sum(d) + if |d| % 2 == 0 then 0.0 else e
  {
    if d != [] {
      var n := |d| - 1;
      OrderEffectOnTheSum(d[..n], e);
      assert WithOrderEffect(d, e)[..n] == WithOrderEffect(d[..n], e);
    }
  }

  /** A cost of running second cancels in the mean difference exactly when the
      count is one the parity guard accepts; otherwise it survives as `e / n`. */
  lemma OrderEffectCancelsAtEvenCounts(d: seq<real>, e: real)
    requires d != []
    ensures var n := |d| as real;
      Sum(WithOrderEffect(d, e)) / n == Sum(d) / n + if ParityAccepted(|d|) then 0.0 else e / n
  {
    OrderEffectOnTheSum(d, e);
    MeanShift(Sum(d), Sum(WithOrderEffect(d, e)), |d| as real, ParityAccepted(|d|), e);
  }

  lemma MeanShift(total: real, shifted: real, n: real, even: bool, e: real)
    requires n > 0.0 && shifted == total + if even then 0.0 else e
    ensures shifted / n == total / n + if even then 0.0 else e / n
  {
    if !even {
      DivAdd(total, e, n);
    }
  }
}
