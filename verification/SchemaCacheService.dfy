/** The cache object and its readers' snapshots, driven by requests: whatever
    they are asked to do is one of the runs. */
module SchemaCacheService {
  import opened Wrappers
  import opened Sorting
  import opened SchemaCache
  import opened SchemaCacheRuns

  datatype Request =
    | Wait(elapsed: nat)
    | Publish(schema: Schema)
    | Report(id: Id, reason: string, pause: nat)
    | Ask(reader: nat, id: Id, pause: nat)

  /** The event is what the request was, with the victim the cache chose. */
  predicate Answers(e: Event, q: Request) {
    match q
    case Wait(elapsed) => e == Advance(elapsed)
    case Publish(schema) => e == PublishReady(schema)
    case Report(id, reason, pause) => e.PublishFailed? && e == PublishFailed(id, reason, pause, e.victim)
    case Ask(reader, id, pause) => e == Read(reader, id, pause)
  }

  /** The objects hold what the run says they hold. */
  ghost predicate Mirrors(w: World, ttl: nat, cache: Cache, readers: seq<CacheSnapshot>)
    reads cache, readers
  {
    && cache.negativeTtl == ttl && cache.entries == w.shared
    && forall i | 0 <= i < |readers| :: readers[i].entries == Memo(w, i)
  }

  /** A request to the cache itself; no reader is touched. */
  method Update(cache: Cache, q: Request, now: int, ghost w: World) returns (e: Event)
    requires cache.entries == w.shared && now == w.now && !q.Ask?
    modifies cache
    ensures Answers(e, q) && Enabled(w, cache.negativeTtl, e)
    ensures cache.entries == Step(w, cache.negativeTtl, e).shared && Step(w, cache.negativeTtl, e).memos == w.memos
  {
    match q {
      case Wait(elapsed) => {
        e := Advance(elapsed);
      }
      case Publish(schema) => {
        cache.PublishReady(schema, now);
        e := PublishReady(schema);
      }
      case Report(id, reason, pause) => {
        var victim := cache.PublishFailed(id, reason, now, now + pause);
        e := PublishFailed(id, reason, pause, victim);
      }
    }
  }

  /** A read is answered through the reader's snapshot. */
  ghost predicate AnsweredThrough(w: World, ttl: nat, e: Event, answer: Option<Lookup>) {
    e.Read? ==> answer == Some(LookupThrough(Memo(w, e.reader), w.shared, e.id, ttl, w.now, w.now + e.pause).0)
  }

  method Serve(cache: Cache, readers: seq<CacheSnapshot>, q: Request, now: int, ghost w: World)
    returns (e: Event, answer: Option<Lookup>)
    requires Mirrors(w, cache.negativeTtl, cache, readers) && now == w.now && Distinct(readers)
    requires q.Ask? ==> q.reader < |readers|
    modifies cache, readers
    ensures Answers(e, q) && Enabled(w, cache.negativeTtl, e)
    ensures Mirrors(Step(w, cache.negativeTtl, e), cache.negativeTtl, cache, readers)
    ensures AnsweredThrough(w, cache.negativeTtl, e, answer)
  {
    answer := None;
    if q.Ask? {
      var seen := cache.LookupMemo(readers[q.reader], q.id, now, now + q.pause);
      answer := Some(seen);
      e := Read(q.reader, q.id, q.pause);
    } else {
      e := Update(cache, q, now, w);
    }
  }

  /** What a lookup after these events answered: the schema the reader's snapshot
      holds Ready, and otherwise the shared answer. That is what the shared lock
      would have answered: exactly, unless some id was published with two schemas,
      and then up to which of them it carries. */
  ghost predicate TruthfulAt(ttl: nat, events: seq<Event>, e: Event, answer: Option<Lookup>) {
    e.Read? ==>
      var w := Exec(ttl, events);
      var shared := Get(w.shared, e.id, ttl, w.now + e.pause);
      var memo := Memo(w, e.reader);
      && answer == Some(if HoldsReady(memo, e.id) then Ready(memo[e.id].schema) else shared)
      && SameKind(answer.value, shared)
      && (OneSchemaPerId(events) ==> answer.value == shared)
  }

  ghost predicate Truthful(ttl: nat, events: seq<Event>, answers: seq<Option<Lookup>>) {
    |answers| == |events| &&
    forall k | 0 <= k < |events| :: TruthfulAt(ttl, events[..k], events[k], answers[k])
  }

  lemma AnsweredTruthfully(ttl: nat, events: seq<Event>, e: Event, answer: Option<Lookup>)
    requires Allowed(ttl, events)
    requires AnsweredThrough(Exec(ttl, events), ttl, e, answer)
    ensures TruthfulAt(ttl, events, e, answer)
  {
    if e.Read? {
      var w := Exec(ttl, events);
      var shared := Get(w.shared, e.id, ttl, w.now + e.pause);
      ReaderAnswers(ttl, events, e.reader, e.id, e.pause);
      assert SameKind(answer.value, shared) by {
        ReaderAgreesWithShared(ttl, events, e.reader, e.id, e.pause);
      }
      assert OneSchemaPerId(events) ==> answer.value == shared by {
        if OneSchemaPerId(events) {
          ReaderIsExact(ttl, events, e.reader, e.id, e.pause);
        }
      }
    }
  }

  lemma TruthfulOneMore(ttl: nat, events: seq<Event>, answers: seq<Option<Lookup>>, e: Event, answer: Option<Lookup>)
    requires Truthful(ttl, events, answers) && TruthfulAt(ttl, events, e, answer)
    ensures Truthful(ttl, events + [e], answers + [answer])
  {
    var more, given := events + [e], answers + [answer];
    forall k | 0 <= k < |more|
      ensures TruthfulAt(ttl, more[..k], more[k], given[k])
    {
      assert more[..k] == events[..k];
      assert k == |events| ==> events[..k] == events;
    }
  }

  function Elapsed(e: Event): nat {
    match e
    case Advance(elapsed) => elapsed
    case PublishReady(_) => 0
    case PublishFailed(_, _, pause, _) => pause
    case Read(_, _, pause) => pause
  }

  lemma OneMoreEvent(ttl: nat, events: seq<Event>, e: Event)
    requires Allowed(ttl, events) && Enabled(Exec(ttl, events), ttl, e)
    ensures Allowed(ttl, events + [e])
    ensures Exec(ttl, events + [e]) == Step(Exec(ttl, events), ttl, e)
    ensures Exec(ttl, events + [e]).now == Exec(ttl, events).now + Elapsed(e)
  {
    assert (events + [e])[..|events|] == events;
  }

  /** A cache with any number of readers serves any requests as one of the runs
      allowed, and every lookup along it is truthful. */
  method Replay(ttl: nat, readers: seq<CacheSnapshot>, requests: seq<Request>)
    returns (events: seq<Event>, answers: seq<Option<Lookup>>)
    requires Distinct(readers) && forall i | 0 <= i < |readers| :: readers[i].entries == map[]
    requires forall q | q in requests && q.Ask? :: q.reader < |readers|
    modifies readers
    ensures |events| == |requests| && forall k | 0 <= k < |events| :: Answers(events[k], requests[k])
    ensures Allowed(ttl, events) && Truthful(ttl, events, answers)
    ensures forall i | 0 <= i < |readers| :: readers[i].entries == Memo(Exec(ttl, events), i)
  {
    var cache := new Cache(ttl);
    events, answers := [], [];
    var now := 0;
    for k := 0 to |requests|
      invariant |events| == k && forall j | 0 <= j < k :: Answers(events[j], requests[j])
      invariant Allowed(ttl, events) && Truthful(ttl, events, answers)
      invariant fresh(cache) && cache.negativeTtl == ttl && now == Exec(ttl, events).now
      invariant Mirrors(Exec(ttl, events), ttl, cache, readers)
    {
      ghost var w := Exec(ttl, events);
      var e, answer := Serve(cache, readers, requests[k], now, w);
      OneMoreEvent(ttl, events, e);
      AnsweredTruthfully(ttl, events, e, answer);
      TruthfulOneMore(ttl, events, answers, e, answer);
      now := now + Elapsed(e);
      events, answers := events + [e], answers + [answer];
    }
  }
}
