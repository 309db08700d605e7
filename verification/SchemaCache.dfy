/** The compiled-schema cache: a copy-on-write map with expiring, capped
    negative entries, read through snapshots that may be stale.

    Time is an integer instant. A write reads the clock twice, once to prune and
    once to stamp, so a failed publication carries both readings. */
module SchemaCache {
  import opened Wrappers

  const MAX_NEGATIVE_ENTRIES: nat := 1024

  type Id = i: nat | i < 0x1_0000_0000
  /** A compiled schema; `body` stands for the parsed form. */
  datatype Schema = Schema(id: Id, body: int)

  datatype Lookup = Ready(schema: Schema) | Failed(reason: string) | Missing
  datatype Entry = ReadyEntry(schema: Schema) | FailedEntry(reason: string, at: int)
  type Entries = map<Id, Entry>

  /** Elapsed time, zero for an instant still to come. */
  function Since(now: int, at: int): nat {
    if now > at then now - at else 0
  }

  predicate Expired(e: Entry, ttl: nat, now: int) {
    e.FailedEntry? && Since(now, e.at) >= ttl
  }

  /** What a map answers, or nothing when it holds no live entry. */
  function Eval(m: Entries, id: Id, ttl: nat, now: int): Option<Lookup> {
    if id !in m || Expired(m[id], ttl, now) then None
    else match m[id]
      case ReadyEntry(schema) => Some(Ready(schema))
      case FailedEntry(reason, _) => Some(Failed(reason))
  }

  function Get(m: Entries, id: Id, ttl: nat, now: int): Lookup {
    match Eval(m, id, ttl, now)
    case Some(answer) => answer
    case None => Missing
  }

  /** The answer through a snapshot, and the snapshot afterwards. The memo is
      read at one instant and the refreshed map at a later one. */
  function LookupThrough(memo: Entries, m: Entries, id: Id, ttl: nat, first: int, now: int): (Lookup, Entries) {
    match Eval(memo, id, ttl, first)
    case Some(Ready(schema)) => (Ready(schema), memo)
    case _ => (Get(m, id, ttl, now), m)
  }

  function LiveCopy(m: Entries, ttl: nat, now: int): Entries {
    map id | id in m && !Expired(m[id], ttl, now) :: m[id]
  }

  function Negatives(m: Entries): set<Id> {
    set id | id in m && m[id].FailedEntry?
  }

  function InsertReady(m: Entries, schema: Schema, ttl: nat, now: int): Entries {
    LiveCopy(m, ttl, now)[schema.id := ReadyEntry(schema)]
  }

  predicate IsOldest(m: Entries, victim: Id) {
    victim in Negatives(m) && forall id | id in Negatives(m) :: m[victim].at <= m[id].at
  }

  predicate NeedsRoom(m: Entries, id: Id) {
    id !in m && |Negatives(m)| >= MAX_NEGATIVE_ENTRIES
  }

  /** Which entry a failed publication drops. Equal stamps leave the choice to
      the map's iteration order. */
  predicate VictimAllowed(m: Entries, id: Id, victim: Option<Id>) {
    if NeedsRoom(m, id) then victim.Some? && IsOldest(m, victim.value) else victim.None?
  }

  function InsertFailed(
    m: Entries, id: Id, reason: string, ttl: nat, pruned: int, stamp: int, victim: Option<Id>): Entries
  {
    if id in m && m[id].ReadyEntry? then m
    else
      var live := LiveCopy(m, ttl, pruned);
      var room := if victim.Some? then live - {victim.value} else live;
      room[id := FailedEntry(reason, stamp)]
  }

  class CacheSnapshot {
    var entries: Entries

    constructor ()
      ensures entries == map[]
    {
      entries := map[];
    }
  }

  class Cache {
    var entries: Entries
    const negativeTtl: nat

    constructor (ttl: nat)
      ensures entries == map[] && negativeTtl == ttl
    {
      entries := map[];
      negativeTtl := ttl;
    }

    method LookupMemo(memo: CacheSnapshot, id: Id, first: int, now: int) returns (r: Lookup)
      modifies memo
      ensures (r, memo.entries) == LookupThrough(old(memo.entries), entries, id, negativeTtl, first, now)
      ensures id in old(memo.entries) && old(memo.entries)[id].ReadyEntry? ==>
        r == Ready(old(memo.entries)[id].schema) && memo.entries == old(memo.entries)
      ensures !(id in old(memo.entries) && old(memo.entries)[id].ReadyEntry?) ==>
        r == Get(entries, id, negativeTtl, now) && memo.entries == entries
    {
      var hit := Eval(memo.entries, id, negativeTtl, first);
      if hit.Some? && hit.value.Ready? {
        return hit.value;
      }
      memo.entries := entries;
      r := Get(memo.entries, id, negativeTtl, now);
    }

    method PublishReady(schema: Schema, now: int)
      modifies this
      ensures entries == InsertReady(old(entries), schema, negativeTtl, now)
    {
      var copy := LiveCopy(entries, negativeTtl, now);
      entries := copy[schema.id := ReadyEntry(schema)];
    }

    method PublishFailed(id: Id, reason: string, pruned: int, stamp: int) returns (victim: Option<Id>)
      modifies this
      ensures id in old(entries) && old(entries)[id].ReadyEntry? ==> victim.None? && entries == old(entries)
      ensures !(id in old(entries) && old(entries)[id].ReadyEntry?) ==>
                VictimAllowed(LiveCopy(old(entries), negativeTtl, pruned), id, victim)
      ensures entries == InsertFailed(old(entries), id, reason, negativeTtl, pruned, stamp, victim)
    {
      victim := None;
      if id in entries && entries[id].ReadyEntry? {
        return;
      }
      var copy := LiveCopy(entries, negativeTtl, pruned);
      if NeedsRoom(copy, id) {
        var oldest := OldestNegative(copy);
        victim := Some(oldest);
        copy := copy - {oldest};
      }
      entries := copy[id := FailedEntry(reason, stamp)];
    }
  }

  /** The oldest negative entry, found by one pass over them in some order. */
  method OldestNegative(m: Entries) returns (oldest: Id)
    requires Negatives(m) != {}
    ensures IsOldest(m, oldest)
  {
    var left := Negatives(m);
    oldest :| oldest in left;
    left := left - {oldest};
    while left != {}
      invariant left <= Negatives(m)
      invariant oldest in Negatives(m)
      invariant forall id | id in Negatives(m) - left :: m[oldest].at <= m[id].at
    {
      var id :| id in left;
      if m[id].at < m[oldest].at {
        oldest := id;
      }
      left := left - {id};
    }
  }
}
