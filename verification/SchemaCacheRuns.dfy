/** Every run of the schema cache: one writer side, any number of readers with
    their own snapshots, and a monotone clock, beside a naive map that never
    prunes and never evicts. */
module SchemaCacheRuns {
  import opened Wrappers
  import opened Sets
  import opened SchemaCache

  datatype Event =
    | Advance(elapsed: nat)
    | PublishReady(schema: Schema)
    | PublishFailed(id: Id, reason: string, pause: nat, victim: Option<Id>)
    | Read(reader: nat, id: Id, pause: nat)

  /** `naive` is the reference map. `evicted` holds the ids dropped for room and
      not published again since. */
  datatype World = World(now: int, shared: Entries, memos: map<nat, Entries>, naive: Entries, evicted: set<Id>)

  predicate HoldsReady(m: Entries, id: Id) {
    id in m && m[id].ReadyEntry?
  }

  function Memo(w: World, reader: nat): Entries {
    if reader in w.memos then w.memos[reader] else map[]
  }

  predicate Enabled(w: World, ttl: nat, e: Event) {
    e.PublishFailed? ==>
      if HoldsReady(w.shared, e.id) then e.victim.None?
      else VictimAllowed(LiveCopy(w.shared, ttl, w.now), e.id, e.victim)
  }

  /** The reference map on its own: a schema always stands, a failure stands
      unless the id is Ready, and nothing is ever removed. */
  function NaiveStep(naive: Entries, now: int, e: Event): Entries {
    match e
    case PublishReady(schema) => naive[schema.id := ReadyEntry(schema)]
    case PublishFailed(id, reason, pause, _) =>
      if HoldsReady(naive, id) then naive else naive[id := FailedEntry(reason, now + pause)]
    case _ => naive
  }

  function Step(w: World, ttl: nat, e: Event): World {
    match e
    case Advance(elapsed) => w.(now := w.now + elapsed)
    case PublishReady(schema) =>
      w.(shared := InsertReady(w.shared, schema, ttl, w.now),
         naive := NaiveStep(w.naive, w.now, e),
         evicted := w.evicted - {schema.id})
    case PublishFailed(id, reason, pause, victim) =>
      w.(now := w.now + pause,
         shared := InsertFailed(w.shared, id, reason, ttl, w.now, w.now + pause, victim),
         naive := NaiveStep(w.naive, w.now, e),
         evicted := w.evicted + (if victim.Some? then {victim.value} else {}) - {id})
    case Read(reader, id, pause) =>
      var seen := LookupThrough(Memo(w, reader), w.shared, id, ttl, w.now, w.now + pause);
      w.(now := w.now + pause, memos := w.memos[reader := seen.1])
  }

  const START := World(0, map[], map[], map[], {})

  function Exec(ttl: nat, events: seq<Event>): World {
    if events == [] then START
    else Step(Exec(ttl, events[..|events| - 1]), ttl, events[|events| - 1])
  }

  /** Every eviction the run records is one the cache could have made. */
  predicate Allowed(ttl: nat, events: seq<Event>)
  {
    events != [] ==>
      && Allowed(ttl, events[..|events| - 1])
      && Enabled(Exec(ttl, events[..|events| - 1]), ttl, events[|events| - 1])
  }

  // ---- the invariant ----

  /** The cache and the reference map hold the same entry for this id, or the
      cache holds none and it was a failure since expired or evicted. */
  ghost predicate AgreesAt(w: World, ttl: nat, id: Id) {
    && (id in w.shared ==> id in w.naive && w.shared[id] == w.naive[id])
    && (id in w.naive && id !in w.shared ==>
          w.naive[id].FailedEntry? && (id in w.evicted || Expired(w.naive[id], ttl, w.now)))
    && (id in w.evicted ==> id in w.naive && id !in w.shared)
  }

  ghost predicate AgreesWithNaive(w: World, ttl: nat) {
    forall id: Id :: AgreesAt(w, ttl, id)
  }

  ghost predicate StampsInOrder(w: World) {
    && (forall id | id in Negatives(w.naive) :: w.naive[id].at <= w.now)
    && (forall gone, held | gone in w.naive && gone !in w.shared && held in Negatives(w.shared) ::
          w.naive[gone].FailedEntry? && w.naive[gone].at <= w.shared[held].at)
  }

  ghost predicate MemosBehind(w: World) {
    forall reader, id | reader in w.memos && HoldsReady(w.memos[reader], id) :: HoldsReady(w.shared, id)
  }

  ghost predicate Inv(w: World, ttl: nat) {
    && AgreesWithNaive(w, ttl)
    && StampsInOrder(w)
    && |Negatives(w.shared)| <= MAX_NEGATIVE_ENTRIES
    && MemosBehind(w)
  }

  lemma InsertFailedKeepsCap(m: Entries, id: Id, reason: string, ttl: nat, pruned: int, stamp: int, victim: Option<Id>)
    requires |Negatives(m)| <= MAX_NEGATIVE_ENTRIES
    requires !HoldsReady(m, id) && VictimAllowed(LiveCopy(m, ttl, pruned), id, victim)
    ensures |Negatives(InsertFailed(m, id, reason, ttl, pruned, stamp, victim))| <= MAX_NEGATIVE_ENTRIES
  {
    var live := LiveCopy(m, ttl, pruned);
    var next := InsertFailed(m, id, reason, ttl, pruned, stamp, victim);
    SubsetSize(Negatives(live), Negatives(m));
    var kept := Negatives(live) - (if victim.Some? then {victim.value} else {});
    assert Negatives(next) <= kept + {id};
    SubsetSize(Negatives(next), kept + {id});
    assert id in live ==> kept + {id} == kept;
  }

  lemma StepKeepsCap(w: World, ttl: nat, e: Event)
    requires Enabled(w, ttl, e) && |Negatives(w.shared)| <= MAX_NEGATIVE_ENTRIES
    ensures |Negatives(Step(w, ttl, e).shared)| <= MAX_NEGATIVE_ENTRIES
  {
    if e.PublishReady? {
      SubsetSize(Negatives(Step(w, ttl, e).shared), Negatives(w.shared));
    } else if e.PublishFailed? && !HoldsReady(w.shared, e.id) {
      InsertFailedKeepsCap(w.shared, e.id, e.reason, ttl, w.now, w.now + e.pause, e.victim);
    }
  }

  /** A Ready id never leaves and is never downgraded. */
  lemma ReadyStaysReady(w: World, ttl: nat, e: Event, id: Id)
    requires Enabled(w, ttl, e) && HoldsReady(w.shared, id)
    ensures HoldsReady(Step(w, ttl, e).shared, id)
    ensures !(e.PublishReady? && e.schema.id == id) ==> Step(w, ttl, e).shared[id] == w.shared[id]
  {
  }

  lemma StepKeepsAgreement(w: World, ttl: nat, e: Event, id: Id)
    requires Enabled(w, ttl, e) && AgreesWithNaive(w, ttl)
    ensures AgreesAt(Step(w, ttl, e), ttl, id)
  {
    assert AgreesAt(w, ttl, id);
    if e.PublishFailed? {
      assert AgreesAt(w, ttl, e.id);
    }
  }

  /** `gone` and `held` are in order: what was dropped is not younger than what
      is kept. */
  ghost predicate InOrder(w: World, gone: Id, held: Id) {
    gone in w.naive && gone !in w.shared && held in Negatives(w.shared) ==>
      w.naive[gone].FailedEntry? && w.naive[gone].at <= w.shared[held].at
  }

  lemma StepKeepsStamps(w: World, ttl: nat, e: Event)
    requires Enabled(w, ttl, e) && AgreesWithNaive(w, ttl) && StampsInOrder(w)
    ensures StampsInOrder(Step(w, ttl, e))
  {
    var next := Step(w, ttl, e);
    forall gone, held | gone in next.naive && gone !in next.shared && held in Negatives(next.shared)
      ensures next.naive[gone].FailedEntry? && next.naive[gone].at <= next.shared[held].at
    {
      StepKeepsOrder(w, ttl, e, gone, held);
    }
    StepKeepsStampsPast(w, ttl, e);
  }

  lemma StepKeepsStampsPast(w: World, ttl: nat, e: Event)
    requires forall id | id in Negatives(w.naive) :: w.naive[id].at <= w.now
    ensures var next := Step(w, ttl, e); forall id | id in Negatives(next.naive) :: next.naive[id].at <= next.now
  {
  }

  lemma StepKeepsOrder(w: World, ttl: nat, e: Event, gone: Id, held: Id)
    requires Enabled(w, ttl, e) && AgreesWithNaive(w, ttl) && StampsInOrder(w)
    ensures InOrder(Step(w, ttl, e), gone, held)
  {
    var next := Step(w, ttl, e);
    if gone in next.naive && gone !in next.shared && held in Negatives(next.shared) {
      assert AgreesAt(w, ttl, gone) && AgreesAt(w, ttl, held);
      assert gone in w.naive && next.naive[gone] == w.naive[gone];
    }
  }

  lemma StepKeepsMemos(w: World, ttl: nat, e: Event)
    requires Enabled(w, ttl, e) && MemosBehind(w)
    ensures MemosBehind(Step(w, ttl, e))
  {
    var next := Step(w, ttl, e);
    forall reader, id | reader in next.memos && HoldsReady(next.memos[reader], id)
      ensures HoldsReady(next.shared, id)
    {
      assert HoldsReady(w.shared, id);
      ReadyStaysReady(w, ttl, e, id);
    }
  }

  lemma {:induction false} RunsKeepInv(ttl: nat, events: seq<Event>)
    requires Allowed(ttl, events)
    ensures Inv(Exec(ttl, events), ttl)
  {
    if events != [] {
      var before, e := events[..|events| - 1], events[|events| - 1];
      RunsKeepInv(ttl, before);
      var w := Exec(ttl, before);
      StepKeepsCap(w, ttl, e);
      forall id: Id
        ensures AgreesAt(Step(w, ttl, e), ttl, id)
      {
        StepKeepsAgreement(w, ttl, e, id);
      }
      StepKeepsStamps(w, ttl, e);
      StepKeepsMemos(w, ttl, e);
    }
  }

  // ---- what every run promises ----

  /** The cache refines the naive map: it answers alike for every id except the
      ones evicted and not republished, for which it answers Missing. */
  lemma CacheRefinesNaiveMap(ttl: nat, events: seq<Event>, id: Id)
    requires Allowed(ttl, events)
    ensures var w := Exec(ttl, events);
      Get(w.shared, id, ttl, w.now) == if id in w.evicted then Missing else Get(w.naive, id, ttl, w.now)
    ensures var w := Exec(ttl, events);
      id in w.evicted ==> !Get(w.naive, id, ttl, w.now).Ready?
  {
    RunsKeepInv(ttl, events);
    assert AgreesAt(Exec(ttl, events), ttl, id);
  }

  /** Negative entries stay capped, and what was dropped, by age or for room, is
      never younger than what is kept. */
  lemma HeldNegativesAreTheYoungest(ttl: nat, events: seq<Event>)
    requires Allowed(ttl, events)
    ensures var w := Exec(ttl, events);
      && |Negatives(w.shared)| <= 1024
      && forall gone, held | gone in w.naive && gone !in w.shared && held in Negatives(w.shared) ::
           w.naive[gone].FailedEntry? && w.naive[gone].at <= w.shared[held].at
  {
    RunsKeepInv(ttl, events);
  }

  predicate SameKind(a: Lookup, b: Lookup) {
    a == b || (a.Ready? && b.Ready?)
  }

  lemma StaleMemoAnswersInKind(memo: Entries, m: Entries, id: Id, ttl: nat, first: int, now: int)
    requires HoldsReady(memo, id) ==> HoldsReady(m, id)
    ensures SameKind(LookupThrough(memo, m, id, ttl, first, now).0, Get(m, id, ttl, now))
  {
  }

  /** A reader's lookup answers as the shared lock would at that moment, up to
      which of several schemas published under one id it holds. */
  lemma {:induction false} ReaderAgreesWithShared(ttl: nat, events: seq<Event>, reader: nat, id: Id, pause: nat)
    requires Allowed(ttl, events)
    ensures var w := Exec(ttl, events);
      SameKind(LookupThrough(Memo(w, reader), w.shared, id, ttl, w.now, w.now + pause).0,
               Get(w.shared, id, ttl, w.now + pause))
  {
    RunsKeepInv(ttl, events);
    var w := Exec(ttl, events);
    StaleMemoAnswersInKind(Memo(w, reader), w.shared, id, ttl, w.now, w.now + pause);
  }

  // ---- which schema a stale snapshot answers with ----

  /** The shared map after the first `k` events. */
  function SharedAt(ttl: nat, events: seq<Event>, k: nat): Entries
    requires k <= |events|
  {
    Exec(ttl, events[..k]).shared
  }

  lemma {:induction false} AllowedPrefix(ttl: nat, events: seq<Event>, k: nat)
    requires Allowed(ttl, events) && k <= |events|
    ensures Allowed(ttl, events[..k])
    ensures k < |events| ==>
      && events[..k + 1][..k] == events[..k]
      && Enabled(Exec(ttl, events[..k]), ttl, events[k])
      && Exec(ttl, events[..k + 1]) == Step(Exec(ttl, events[..k]), ttl, events[k])
    decreases |events| - k
  {
    if k < |events| {
      AllowedPrefix(ttl, events, k + 1);
      assert events[..k + 1][..k] == events[..k];
    } else {
      assert events[..k] == events;
    }
  }

  /** Event `k` is a lookup by this reader of an id its snapshot does not hold
      Ready, so the snapshot is replaced. */
  ghost predicate RefreshesAt(ttl: nat, events: seq<Event>, reader: nat, k: nat) {
    && k < |events| && events[k].Read? && events[k].reader == reader
    && !HoldsReady(Memo(Exec(ttl, events[..k]), reader), events[k].id)
  }

  lemma StepMovesTheMemo(w: World, ttl: nat, e: Event, reader: nat)
    ensures Memo(Step(w, ttl, e), reader)
         == if e.Read? && e.reader == reader && !HoldsReady(Memo(w, reader), e.id) then w.shared else Memo(w, reader)
  {
  }

  /** A reader's snapshot is the shared map as it was at the reader's last lookup
      of an id the snapshot then did not hold Ready; before the first such lookup
      it is empty. No other event changes it. */
  lemma {:induction false} MemoIsTheLastRefresh(ttl: nat, events: seq<Event>, reader: nat) returns (k: Option<nat>)
    ensures k.Some? ==>
      && RefreshesAt(ttl, events, reader, k.value)
      && Memo(Exec(ttl, events), reader) == SharedAt(ttl, events, k.value)
    ensures k.None? ==> Memo(Exec(ttl, events), reader) == map[]
    ensures forall j: nat | RefreshesAt(ttl, events, reader, j) :: k.Some? && j <= k.value
  {
    k := None;
    if events != [] {
      var n := |events| - 1;
      var before := events[..n];
      k := MemoIsTheLastRefresh(ttl, before, reader);
      forall j: nat | j <= n
        ensures before[..j] == events[..j]
        ensures j < n ==> RefreshesAt(ttl, before, reader, j) == RefreshesAt(ttl, events, reader, j)
      {
      }
      StepMovesTheMemo(Exec(ttl, before), ttl, events[n], reader);
      if RefreshesAt(ttl, events, reader, n) {
        k := Some(n);
      }
    }
  }

  /** Readers only ever hold snapshots the shared map once was. */
  lemma MemoIsASnapshot(ttl: nat, events: seq<Event>, reader: nat) returns (k: nat)
    ensures k <= |events| && Memo(Exec(ttl, events), reader) == SharedAt(ttl, events, k)
  {
    assert events[..0] == [];
    var last := MemoIsTheLastRefresh(ttl, events, reader);
    k := if last.Some? then last.value else 0;
  }

  /** A lookup of an id that is Ready leaves it Ready in the reader's snapshot. */
  lemma ReadLeavesItReady(ttl: nat, events: seq<Event>, reader: nat, id: Id, pause: nat)
    requires Allowed(ttl, events) && HoldsReady(Exec(ttl, events).shared, id)
    ensures Allowed(ttl, events + [Read(reader, id, pause)])
    ensures HoldsReady(Memo(Exec(ttl, events + [Read(reader, id, pause)]), reader), id)
  {
    assert (events + [Read(reader, id, pause)])[..|events|] == events;
    StepMovesTheMemo(Exec(ttl, events), ttl, Read(reader, id, pause), reader);
  }

  /** From moment `i` on, this reader looks up only ids its snapshot of that moment
      holds Ready. */
  ghost predicate KeepsToItsMemo(ttl: nat, events: seq<Event>, reader: nat, i: nat)
    requires i <= |events|
  {
    forall j | i <= j < |events| && events[j].Read? && events[j].reader == reader ::
      HoldsReady(Memo(Exec(ttl, events[..i]), reader), events[j].id)
  }

  /** A snapshot that holds an id Ready answers it alone: the shared map is not
      consulted, whatever was published since, and the snapshot stays. A reader
      that keeps to such ids keeps its snapshot, and so its answers. */
  lemma {:induction false} ReadyMemoNeedsNoLock(ttl: nat, events: seq<Event>, reader: nat, i: nat, id: Id)
    requires i <= |events| && KeepsToItsMemo(ttl, events, reader, i)
    requires HoldsReady(Memo(Exec(ttl, events[..i]), reader), id)
    ensures var memo := Memo(Exec(ttl, events[..i]), reader);
      && Memo(Exec(ttl, events), reader) == memo
      && forall shared, first, now ::
           LookupThrough(memo, shared, id, ttl, first, now) == (Ready(memo[id].schema), memo)
  {
    if i < |events| {
      var n := |events| - 1;
      var before := events[..n];
      forall j | 0 <= j <= n
        ensures before[..j] == events[..j]
      {
      }
      ReadyMemoNeedsNoLock(ttl, before, reader, i, id);
      StepMovesTheMemo(Exec(ttl, before), ttl, events[n], reader);
    } else {
      assert events[..i] == events;
    }
  }

  ghost predicate PublishedAt(events: seq<Event>, i: nat, schema: Schema) {
    i < |events| && events[i] == PublishReady(schema)
  }

  ghost predicate OneSchemaPerId(events: seq<Event>) {
    forall i: nat, j: nat, s: Schema, t: Schema |
      PublishedAt(events, i, s) && PublishedAt(events, j, t) && s.id == t.id ::
      s == t
  }

  /** Every Ready entry was published under its id. */
  lemma {:induction false} ReadyWasPublished(ttl: nat, events: seq<Event>, k: nat, id: Id)
    requires Allowed(ttl, events) && k <= |events| && HoldsReady(SharedAt(ttl, events, k), id)
    ensures SharedAt(ttl, events, k)[id].schema.id == id
    ensures exists i: nat :: i < k && PublishedAt(events, i, SharedAt(ttl, events, k)[id].schema)
  {
    assert events[..0] == [];
    if k > 0 {
      AllowedPrefix(ttl, events, k - 1);
      var schema := SharedAt(ttl, events, k)[id].schema;
      if events[k - 1].PublishReady? && events[k - 1].schema.id == id {
        assert PublishedAt(events, k - 1, schema);
      } else {
        ReadyWasPublished(ttl, events, k - 1, id);
      }
    }
  }

  lemma {:induction false} ReadyPersists(ttl: nat, events: seq<Event>, k: nat, m: nat, id: Id)
    requires Allowed(ttl, events) && k <= m <= |events| && HoldsReady(SharedAt(ttl, events, k), id)
    ensures HoldsReady(SharedAt(ttl, events, m), id)
  {
    if k < m {
      ReadyPersists(ttl, events, k, m - 1, id);
      AllowedPrefix(ttl, events, m - 1);
      ReadyStaysReady(Exec(ttl, events[..m - 1]), ttl, events[m - 1], id);
    }
  }

  /** A lookup through the snapshot of moment `k` at moment `m`, reading the clock
      at `first` and at `now`, gives exactly the shared-lock answer. */
  ghost predicate SnapshotExact(ttl: nat, events: seq<Event>, k: nat, m: nat, id: Id, first: int, now: int)
    requires k <= |events| && m <= |events|
  {
    LookupThrough(SharedAt(ttl, events, k), SharedAt(ttl, events, m), id, ttl, first, now).0
    == Get(SharedAt(ttl, events, m), id, ttl, now)
  }

  lemma OneSchemaMakesSnapshotsExact(ttl: nat, events: seq<Event>, k: nat, m: nat, id: Id, first: int, now: int)
    requires Allowed(ttl, events) && k <= m <= |events| && OneSchemaPerId(events)
    ensures SnapshotExact(ttl, events, k, m, id, first, now)
  {
    if HoldsReady(SharedAt(ttl, events, k), id) {
      ReadyPersists(ttl, events, k, m, id);
      ReadyWasPublished(ttl, events, k, id);
      ReadyWasPublished(ttl, events, m, id);
    }
  }

  lemma {:induction false} RepublishingBreaksASnapshot(
    ttl: nat, events: seq<Event>, i: nat, j: nat, first: int, now: int)
    requires Allowed(ttl, events) && i < j < |events|
    requires events[i].PublishReady? && events[j].PublishReady?
    requires events[i].schema.id == events[j].schema.id && events[i].schema != events[j].schema
    ensures !SnapshotExact(ttl, events, i + 1, j + 1, events[i].schema.id, first, now)
  {
    AllowedPrefix(ttl, events, i);
    AllowedPrefix(ttl, events, j);
  }

  /** Stale snapshots are exact, at every pair of moments and for every id,
      exactly when no id is published with two different schemas. */
  lemma SnapshotsExactIffOneSchemaPerId(ttl: nat, events: seq<Event>, first: int, now: int)
    requires Allowed(ttl, events)
    ensures OneSchemaPerId(events) <==>
      forall k: nat, m: nat, id: Id | k <= m <= |events| :: SnapshotExact(ttl, events, k, m, id, first, now)
  {
    if OneSchemaPerId(events) {
      forall k: nat, m: nat, id: Id | k <= m <= |events|
        ensures SnapshotExact(ttl, events, k, m, id, first, now)
      {
        OneSchemaMakesSnapshotsExact(ttl, events, k, m, id, first, now);
      }
    } else {
      var i: nat, j: nat, s: Schema, t: Schema :|
        PublishedAt(events, i, s) && PublishedAt(events, j, t) && s.id == t.id && s != t;
      if i < j {
        RepublishingBreaksASnapshot(ttl, events, i, j, first, now);
      } else {
        RepublishingBreaksASnapshot(ttl, events, j, i, first, now);
      }
    }
  }

  /** Where no id was published with two schemas, a reader's lookup is exactly the
      shared-lock answer. */
  lemma ReaderIsExact(ttl: nat, events: seq<Event>, reader: nat, id: Id, pause: nat)
    requires Allowed(ttl, events) && OneSchemaPerId(events)
    ensures var w := Exec(ttl, events);
      LookupThrough(Memo(w, reader), w.shared, id, ttl, w.now, w.now + pause).0
      == Get(w.shared, id, ttl, w.now + pause)
  {
    var w := Exec(ttl, events);
    var k := MemoIsASnapshot(ttl, events, reader);
    OneSchemaMakesSnapshotsExact(ttl, events, k, |events|, id, w.now, w.now + pause);
    assert events[..|events|] == events;
  }

  /** What a reader's lookup answers: the schema its snapshot holds Ready, and
      otherwise the shared answer. It is not the shared answer exactly when the
      shared map has come to hold another schema for the id. */
  lemma ReaderAnswers(ttl: nat, events: seq<Event>, reader: nat, id: Id, pause: nat)
    requires Allowed(ttl, events)
    ensures var w := Exec(ttl, events);
      var memo, shared := Memo(w, reader), Get(w.shared, id, ttl, w.now + pause);
      var answer := LookupThrough(memo, w.shared, id, ttl, w.now, w.now + pause).0;
      && answer == (if HoldsReady(memo, id) then Ready(memo[id].schema) else shared)
      && (HoldsReady(memo, id) ==> HoldsReady(w.shared, id))
      && (answer == shared <==> (HoldsReady(memo, id) ==> memo[id] == w.shared[id]))
  {
    RunsKeepInv(ttl, events);
  }

  /** After any run, a schema is published, a reader that does not hold its id
      Ready looks it up, and another schema is published under the id: the
      reader's next lookup answers the first schema, the shared lock the second. */
  lemma RepublishingBreaksAReader(
    ttl: nat, events: seq<Event>, reader: nat, older: Schema, newer: Schema, pause: nat, later: nat)
    requires Allowed(ttl, events) && older.id == newer.id && older != newer
    requires !HoldsReady(Memo(Exec(ttl, events), reader), older.id)
    ensures var run := events + [PublishReady(older)] + [Read(reader, older.id, pause)] + [PublishReady(newer)];
      var w := Exec(ttl, run);
      && Allowed(ttl, run)
      && LookupThrough(Memo(w, reader), w.shared, older.id, ttl, w.now, w.now + later).0 == Ready(older)
      && Get(w.shared, older.id, ttl, w.now + later) == Ready(newer)
  {
    var one := events + [PublishReady(older)];
    var two := one + [Read(reader, older.id, pause)];
    var run := two + [PublishReady(newer)];
    assert one[..|events|] == events && two[..|one|] == one && run[..|two|] == two;
    StepMovesTheMemo(Exec(ttl, one), ttl, Read(reader, older.id, pause), reader);
    StepMovesTheMemo(Exec(ttl, two), ttl, PublishReady(newer), reader);
  }

  /** A publication is answered at once, and leaves nothing expired behind. A
      failure of a Ready id is no publication. */
  lemma PublicationsPrune(w: World, ttl: nat, e: Event, held: Id)
    requires e.PublishReady? || (e.PublishFailed? && !HoldsReady(w.shared, e.id))
    ensures var next := Step(w, ttl, e).shared;
      && (e.PublishReady? ==> e.schema.id in next && next[e.schema.id] == ReadyEntry(e.schema))
      && (e.PublishFailed? ==> e.id in next && next[e.id] == FailedEntry(e.reason, w.now + e.pause))
      && (!Publishes(e, held) && held in next ==>
            held in w.shared && next[held] == w.shared[held] && !Expired(next[held], ttl, w.now))
  {
  }

  // ---- when nothing is ever evicted ----

  /** What the clock read before event `k`. */
  function Clock(ttl: nat, events: seq<Event>, k: nat): int
    requires k <= |events|
  {
    Exec(ttl, events[..k]).now
  }

  /** Event `j` is a failure of this id, stamped so. */
  ghost predicate FailedAt(ttl: nat, events: seq<Event>, j: nat, id: Id, stamp: int) {
    && j < |events| && events[j].PublishFailed? && events[j].id == id
    && stamp == Clock(ttl, events, j) + events[j].pause
  }

  lemma {:induction false} NegativeWasFailed(ttl: nat, events: seq<Event>, k: nat, id: Id) returns (j: nat)
    requires Allowed(ttl, events) && k <= |events| && id in Negatives(SharedAt(ttl, events, k))
    ensures j < k && FailedAt(ttl, events, j, id, SharedAt(ttl, events, k)[id].at)
  {
    assert events[..0] == [];
    AllowedPrefix(ttl, events, k - 1);
    var e := events[k - 1];
    if e.PublishFailed? && e.id == id && !HoldsReady(SharedAt(ttl, events, k - 1), id) {
      j := k - 1;
    } else {
      j := NegativeWasFailed(ttl, events, k - 1, id);
    }
  }

  /** The ids whose failures before event `k` are stamped less than a TTL back. */
  ghost function FailingBefore(ttl: nat, events: seq<Event>, k: nat): set<Id>
    requires k <= |events|
  {
    set j | 0 <= j < k && events[j].PublishFailed?
            && Since(Clock(ttl, events, k), Clock(ttl, events, j) + events[j].pause) < ttl :: events[j].id
  }

  /** No failure is one of more than the cap within its TTL. */
  ghost predicate WindowsWithinTheCap(ttl: nat, events: seq<Event>) {
    forall k | 0 <= k < |events| && events[k].PublishFailed? ::
      |FailingBefore(ttl, events, k) + {events[k].id}| <= 1024
  }

  lemma LiveNegativesAreFailing(ttl: nat, events: seq<Event>, k: nat)
    requires Allowed(ttl, events) && k <= |events|
    ensures Negatives(LiveCopy(SharedAt(ttl, events, k), ttl, Clock(ttl, events, k))) <= FailingBefore(ttl, events, k)
  {
    var live := LiveCopy(SharedAt(ttl, events, k), ttl, Clock(ttl, events, k));
    forall id | id in Negatives(live)
      ensures id in FailingBefore(ttl, events, k)
    {
      var j := NegativeWasFailed(ttl, events, k, id);
    }
  }

  lemma NoRoomNeeded(ttl: nat, events: seq<Event>, k: nat)
    requires Allowed(ttl, events) && k < |events| && events[k].PublishFailed?
    requires |FailingBefore(ttl, events, k) + {events[k].id}| <= MAX_NEGATIVE_ENTRIES
    ensures !NeedsRoom(LiveCopy(SharedAt(ttl, events, k), ttl, Clock(ttl, events, k)), events[k].id)
  {
    var live, id := LiveCopy(SharedAt(ttl, events, k), ttl, Clock(ttl, events, k)), events[k].id;
    LiveNegativesAreFailing(ttl, events, k);
    SubsetSize(Negatives(live) + {id}, FailingBefore(ttl, events, k) + {id});
    if id !in live {
      assert |Negatives(live) + {id}| == |Negatives(live)| + 1;
    }
  }

  /** While no failure is one of more than 1,024 distinct ids failing within its
      TTL, nothing is evicted, so the cache answers as the reference map does. */
  lemma WithinTheCapNothingIsEvicted(ttl: nat, events: seq<Event>)
    requires Allowed(ttl, events) && WindowsWithinTheCap(ttl, events)
    ensures Exec(ttl, events).evicted == {}
    ensures var w := Exec(ttl, events); forall id: Id :: Get(w.shared, id, ttl, w.now) == Get(w.naive, id, ttl, w.now)
  {
    NothingEvictedUpTo(ttl, events, |events|);
    assert events[..|events|] == events;
    forall id: Id
      ensures var w := Exec(ttl, events); Get(w.shared, id, ttl, w.now) == Get(w.naive, id, ttl, w.now)
    {
      CacheRefinesNaiveMap(ttl, events, id);
    }
  }

  lemma {:induction false} NothingEvictedUpTo(ttl: nat, events: seq<Event>, k: nat)
    requires Allowed(ttl, events) && WindowsWithinTheCap(ttl, events) && k <= |events|
    ensures Exec(ttl, events[..k]).evicted == {}
  {
    assert events[..0] == [];
    if k > 0 {
      NothingEvictedUpTo(ttl, events, k - 1);
      AllowedPrefix(ttl, events, k - 1);
      if events[k - 1].PublishFailed? {
        NoRoomNeeded(ttl, events, k - 1);
      }
    }
  }

  // ---- how long a failure answers ----

  predicate Publishes(e: Event, id: Id) {
    (e.PublishReady? && e.schema.id == id) || (e.PublishFailed? && e.id == id)
  }

  lemma StepIsNaiveStep(w: World, ttl: nat, e: Event)
    ensures Step(w, ttl, e).naive == NaiveStep(w.naive, w.now, e)
  {
  }

  lemma NotReadyInTheReference(ttl: nat, events: seq<Event>, i: nat, id: Id)
    requires Allowed(ttl, events) && i <= |events| && !HoldsReady(SharedAt(ttl, events, i), id)
    ensures !HoldsReady(Exec(ttl, events[..i]).naive, id)
  {
    AllowedPrefix(ttl, events, i);
    RunsKeepInv(ttl, events[..i]);
    assert AgreesAt(Exec(ttl, events[..i]), ttl, id);
  }

  lemma {:induction false} NaiveKeepsTheFailure(ttl: nat, events: seq<Event>, i: nat, k: nat)
    requires Allowed(ttl, events) && i < k <= |events| && events[i].PublishFailed?
    requires !HoldsReady(SharedAt(ttl, events, i), events[i].id)
    requires forall j | i < j < k :: !Publishes(events[j], events[i].id)
    ensures var naive := Exec(ttl, events[..k]).naive;
      && events[i].id in naive
      && naive[events[i].id] == FailedEntry(events[i].reason, Clock(ttl, events, i) + events[i].pause)
  {
    var w, e := Exec(ttl, events[..k - 1]), events[k - 1];
    assert Exec(ttl, events[..k]).naive == NaiveStep(w.naive, w.now, e) by {
      AllowedPrefix(ttl, events, k - 1);
      StepIsNaiveStep(w, ttl, e);
    }
    if k - 1 == i {
      NotReadyInTheReference(ttl, events, i, e.id);
    } else {
      NaiveKeepsTheFailure(ttl, events, i, k - 1);
    }
  }

  /** A failure of an id that is not Ready answers Failed, with its reason, for
      exactly its TTL from its stamp, however the run goes on, until the id is
      published again or evicted; from then on it answers Missing. */
  lemma FailureLivesExactlyItsTtl(ttl: nat, events: seq<Event>, i: nat)
    requires Allowed(ttl, events) && i < |events| && events[i].PublishFailed?
    requires !HoldsReady(SharedAt(ttl, events, i), events[i].id)
    requires forall j | i < j < |events| :: !Publishes(events[j], events[i].id)
    ensures var w, id := Exec(ttl, events), events[i].id;
      Get(w.shared, id, ttl, w.now)
      == if id !in w.evicted && w.now < Clock(ttl, events, i) + events[i].pause + ttl
         then Failed(events[i].reason) else Missing
  {
    NaiveKeepsTheFailure(ttl, events, i, |events|);
    assert events[..|events|] == events;
    CacheRefinesNaiveMap(ttl, events, events[i].id);
    RunsKeepInv(ttl, events);
    assert events[i].id in Negatives(Exec(ttl, events).naive);
  }
}
