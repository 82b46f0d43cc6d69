/** The two-level cache of tutorial/05-multilevel: a bounded local level and a shared level, both
    expiring, in front of a database. The clock reading of a call is a parameter. */
module Multilevel {
  import opened Wrappers

  type Time = int

  // ----- Values -----

  datatype LocalItem = LocalItem(value: string, expiresAt: Time, accessCount: nat, lastAccess: Time)

  datatype SharedItem = SharedItem(value: string, expiresAt: Time, createdAt: Time)

  datatype Config = Config(l1TTL: int, l2TTL: int, l1MaxSize: int, enableL1: bool, enableL2: bool, writeThrough: bool)

  datatype Metrics = Metrics(totalRequests: nat, l1Hits: nat, l2Hits: nat, databaseHits: nat)

  /** A level that is switched off holds nothing. */
  datatype State = State(l1: map<string, LocalItem>, l2: map<string, SharedItem>, db: map<string, string>,
                         metrics: Metrics)

  /** `victim` is the entry the local level chose to evict, "" for none. */
  datatype Event =
    | Get(key: string, now: Time, victim: string)
    | Set(key: string, value: string, now: Time, victim: string)
    | Delete(key: string)
    | Sweep1(now: Time)
    | Sweep2(now: Time)

  // ----- The local level -----

  function Look1(l1: map<string, LocalItem>, key: string, now: Time): Option<string> {
    if key in l1 && now <= l1[key].expiresAt then Some(l1[key].value) else None
  }

  function Touch(l1: map<string, LocalItem>, key: string, now: Time): map<string, LocalItem> {
    if Look1(l1, key, now).Some? then
      l1[key := l1[key].(accessCount := l1[key].accessCount + 1, lastAccess := now)]
    else l1
  }

  /** At capacity the victim goes first, even if `key` is there already. */
  function Put1(l1: map<string, LocalItem>, maxSize: int, key: string, value: string, expiresAt: Time, now: Time,
                victim: string): map<string, LocalItem>
  {
    var kept := if |l1| >= maxSize && victim != "" then l1 - {victim} else l1;
    kept[key := LocalItem(value, expiresAt, 0, now)]
  }

  /** `k` was last used before `now` and no entry was used before it. */
  ghost predicate Oldest(l1: map<string, LocalItem>, now: Time, k: string) {
    k in l1 && l1[k].lastAccess < now && forall l :: l in l1 ==> l1[k].lastAccess <= l1[l].lastAccess
  }

  /** What evictLRU may choose: one of the oldest entries. It takes the key "" for no choice at all. */
  ghost predicate MayEvict(l1: map<string, LocalItem>, now: Time, victim: string) {
    Oldest(l1, now, victim) || (victim == "" && forall k :: k in l1 ==> l1[k].lastAccess >= now)
  }

  function Unexpired1(l1: map<string, LocalItem>, now: Time): map<string, LocalItem> {
    map k | k in l1 && now <= l1[k].expiresAt :: l1[k]
  }

  lemma SizeAfterPut(l1: map<string, LocalItem>, maxSize: int, key: string, value: string, expiresAt: Time, now: Time,
                     victim: string)
    requires |l1| <= maxSize && MayEvict(l1, now, victim)
    ensures |Put1(l1, maxSize, key, value, expiresAt, now, victim)| <= maxSize
            <==> |l1| < maxSize || key in l1 || victim != ""
  {
    if |l1| >= maxSize && victim != "" {
      assert (l1 - {victim}).Keys == l1.Keys - {victim};
      assert |l1 - {victim}| == |l1| - 1;
    }
  }

  /** Some entry was last used before `now`, and "" is not among the least recently used: then, and
      only then, eviction is sure to remove an entry. */
  ghost predicate SureToEvict(l1: map<string, LocalItem>, now: Time) {
    (exists k :: k in l1 && l1[k].lastAccess < now) && !Oldest(l1, now, "")
  }

  lemma SureIff(l1: map<string, LocalItem>, now: Time)
    ensures SureToEvict(l1, now) <==> forall v :: MayEvict(l1, now, v) ==> v != ""
  {
    if k :| k in l1 && l1[k].lastAccess < now {
      assert MayEvict(l1, now, "") <==> Oldest(l1, now, "");
    } else {
      assert MayEvict(l1, now, "");
    }
  }

  /** A local level within its size is sure to stay there exactly when there is room, or the key is
      there already, or some entry was used before this very instant and "" is not the oldest. */
  lemma SizeKeptIff(l1: map<string, LocalItem>, maxSize: int, key: string, value: string, expiresAt: Time, now: Time)
    requires |l1| <= maxSize
    ensures (forall v :: MayEvict(l1, now, v) ==> |Put1(l1, maxSize, key, value, expiresAt, now, v)| <= maxSize)
            <==> |l1| < maxSize || key in l1 || SureToEvict(l1, now)
  {
    hide Put1, MayEvict, SureToEvict;
    forall v | MayEvict(l1, now, v)
      ensures |Put1(l1, maxSize, key, value, expiresAt, now, v)| <= maxSize <==> |l1| < maxSize || key in l1 || v != ""
    {
      SizeAfterPut(l1, maxSize, key, value, expiresAt, now, v);
    }
    SureIff(l1, now);
  }

  /** A level of size one grows to two within one instant, and keeps growing. */
  lemma SameInstantOvershoots(now: Time)
    ensures var l1 := map["a" := LocalItem("x", now + 1, 0, now)];
            && MayEvict(l1, now, "") && |Put1(l1, 1, "b", "y", now + 1, now, "")| == 2
  {
  }

  // ----- The shared level -----

  function Look2(l2: map<string, SharedItem>, key: string, now: Time): Option<string> {
    if key in l2 && now <= l2[key].expiresAt then Some(l2[key].value) else None
  }

  function Unexpired2(l2: map<string, SharedItem>, now: Time): map<string, SharedItem> {
    map k | k in l2 && now <= l2[k].expiresAt :: l2[k]
  }

  // ----- Both levels -----

  function Fill1(c: Config, s: State, key: string, value: string, now: Time, victim: string): State {
    if c.enableL1 then s.(l1 := Put1(s.l1, c.l1MaxSize, key, value, now + c.l1TTL, now, victim)) else s
  }

  function Fill2(c: Config, s: State, key: string, value: string, now: Time): State {
    if c.enableL2 then s.(l2 := s.l2[key := SharedItem(value, now + c.l2TTL, now)]) else s
  }

  function Forget(c: Config, s: State, key: string): State {
    s.(l1 := if c.enableL1 then s.l1 - {key} else s.l1, l2 := if c.enableL2 then s.l2 - {key} else s.l2)
  }

  function Find(db: map<string, string>, key: string): Option<string> {
    if key in db then Some(db[key]) else None
  }

  function Read(c: Config, s: State, key: string, now: Time, victim: string): (State, Option<string>) {
    var m := s.metrics.(totalRequests := s.metrics.totalRequests + 1);
    var first, second := Look1(s.l1, key, now), Look2(s.l2, key, now);
    if c.enableL1 && first.Some? then
      (s.(l1 := Touch(s.l1, key, now), metrics := m.(l1Hits := m.l1Hits + 1)), first)
    else if c.enableL2 && second.Some? then
      (Fill1(c, s.(metrics := m.(l2Hits := m.l2Hits + 1)), key, second.value, now, victim), second)
    else if key in s.db then
      var counted := s.(metrics := m.(databaseHits := m.databaseHits + 1));
      (Fill1(c, Fill2(c, counted, key, s.db[key], now), key, s.db[key], now, victim), Some(s.db[key]))
    else (s.(metrics := m), None)
  }

  function Write(c: Config, s: State, key: string, value: string, now: Time, victim: string): State {
    var stored := s.(db := s.db[key := value]);
    if c.writeThrough then Fill1(c, Fill2(c, stored, key, value, now), key, value, now, victim)
    else Forget(c, stored, key)
  }

  /** A call and its answer; only Get answers. */
  function Apply(c: Config, s: State, e: Event): (State, Option<string>) {
    match e
    case Get(k, now, victim) => Read(c, s, k, now, victim)
    case Set(k, v, now, victim) => (Write(c, s, k, v, now, victim), None)
    case Delete(k) => (Forget(c, s, k), None)
    case Sweep1(now) => (s.(l1 := Unexpired1(s.l1, now)), None)
    case Sweep2(now) => (s.(l2 := Unexpired2(s.l2, now)), None)
  }

  /** The same call on the database alone. */
  function Direct(db: map<string, string>, e: Event): (map<string, string>, Option<string>) {
    match e
    case Get(k, _, _) => (db, Find(db, k))
    case Set(k, v, _, _) => (db[k := v], None)
    case Delete(_) => (db, None)
    case Sweep1(_) => (db, None)
    case Sweep2(_) => (db, None)
  }

  // ----- Coherence -----

  /** Every entry of either level, expired or not, has the database's value. */
  ghost predicate Coherent(s: State) {
    && (forall k :: k in s.l1 ==> k in s.db && s.l1[k].value == s.db[k])
    && (forall k :: k in s.l2 ==> k in s.db && s.l2[k].value == s.db[k])
  }

  ghost predicate Off(c: Config, s: State) {
    (!c.enableL1 ==> s.l1 == map[]) && (!c.enableL2 ==> s.l2 == map[])
  }

  lemma FillCoherent(c: Config, s: State, key: string, value: string, now: Time, victim: string)
    requires Coherent(s) && Off(c, s) && Find(s.db, key) == Some(value)
    ensures var filled := Fill1(c, s, key, value, now, victim); Coherent(filled) && Off(c, filled) && filled.db == s.db
    ensures var filled := Fill2(c, s, key, value, now); Coherent(filled) && Off(c, filled) && filled.db == s.db
  {
  }

  /** A live copy has the database's value, and reading it changes no value. */
  lemma LookCoherent(c: Config, s: State, key: string, now: Time, m: Metrics)
    requires Coherent(s) && Off(c, s)
    ensures Look1(s.l1, key, now).Some? ==> Look1(s.l1, key, now) == Find(s.db, key)
    ensures Look2(s.l2, key, now).Some? ==> Look2(s.l2, key, now) == Find(s.db, key)
    ensures Coherent(s.(metrics := m)) && Off(c, s.(metrics := m))
    ensures c.enableL1 ==> Coherent(s.(l1 := Touch(s.l1, key, now), metrics := m))
                           && Off(c, s.(l1 := Touch(s.l1, key, now), metrics := m))
  {
  }

  lemma ReadCoherent(c: Config, s: State, key: string, now: Time, victim: string)
    requires Coherent(s) && Off(c, s)
    ensures var (after, reply) := Read(c, s, key, now, victim);
            Coherent(after) && Off(c, after) && after.db == s.db && reply == Find(s.db, key)
  {
    hide Coherent, Off, Fill1, Fill2, Look1, Look2, Touch;
    var m := s.metrics.(totalRequests := s.metrics.totalRequests + 1);
    LookCoherent(c, s, key, now, m);
    if c.enableL1 && Look1(s.l1, key, now).Some? {
      LookCoherent(c, s, key, now, m.(l1Hits := m.l1Hits + 1));
    } else if c.enableL2 && Look2(s.l2, key, now).Some? {
      LookCoherent(c, s, key, now, m.(l2Hits := m.l2Hits + 1));
      FillCoherent(c, s.(metrics := m.(l2Hits := m.l2Hits + 1)), key, Look2(s.l2, key, now).value, now, victim);
    } else if key in s.db {
      LookCoherent(c, s, key, now, m.(databaseHits := m.databaseHits + 1));
      var counted := s.(metrics := m.(databaseHits := m.databaseHits + 1));
      FillCoherent(c, counted, key, s.db[key], now, victim);
      FillCoherent(c, Fill2(c, counted, key, s.db[key], now), key, s.db[key], now, victim);
    }
  }

  /** Before a write the entries of its key are stale; writing or dropping them mends that. */
  lemma WriteCoherent(c: Config, s: State, key: string, value: string, now: Time, victim: string)
    requires Coherent(s) && Off(c, s)
    ensures var after := Write(c, s, key, value, now, victim);
            Coherent(after) && Off(c, after) && after.db == s.db[key := value]
  {
  }

  /** Whatever the configuration, the clock and the evictions, each call answers as the database
      alone would and keeps the levels coherent. */
  lemma StepCoherent(c: Config, s: State, e: Event)
    requires Coherent(s) && Off(c, s)
    ensures Coherent(Apply(c, s, e).0) && Off(c, Apply(c, s, e).0)
    ensures Apply(c, s, e).0.db == Direct(s.db, e).0 && Apply(c, s, e).1 == Direct(s.db, e).1
  {
    match e {
      case Get(k, now, victim) => hide Read; ReadCoherent(c, s, k, now, victim);
      case Set(k, v, now, victim) => hide Write; WriteCoherent(c, s, k, v, now, victim);
      case Delete(k) =>
      case Sweep1(now) =>
      case Sweep2(now) =>
    }
  }

  function Run(c: Config, s: State, events: seq<Event>): (State, seq<Option<string>>) {
    if events == [] then (s, [])
    else
      var front := Run(c, s, events[..|events| - 1]);
      var step := Apply(c, front.0, events[|events| - 1]);
      (step.0, front.1 + [step.1])
  }

  function RunDirect(db: map<string, string>, events: seq<Event>): (map<string, string>, seq<Option<string>>) {
    if events == [] then (db, [])
    else
      var front := RunDirect(db, events[..|events| - 1]);
      var step := Direct(front.0, events[|events| - 1]);
      (step.0, front.1 + [step.1])
  }

  function Empty(db: map<string, string>): State {
    State(map[], map[], db, Metrics(0, 0, 0, 0))
  }

  function Missing(events: seq<Event>, replies: seq<Option<string>>): nat
    requires |events| == |replies|
  {
    if events == [] then 0
    else
      var last := |events| - 1;
      Missing(events[..last], replies[..last]) + if events[last].Get? && replies[last].None? then 1 else 0
  }

  lemma {:induction false} RunLength(c: Config, s: State, events: seq<Event>)
    ensures |Run(c, s, events).1| == |events|
  {
    if events != [] {
      RunLength(c, s, events[..|events| - 1]);
    }
  }

  lemma StepCounted(c: Config, s: State, e: Event)
    ensures var (after, reply) := Apply(c, s, e); var (m, n) := (s.metrics, after.metrics);
            n.totalRequests - n.l1Hits - n.l2Hits - n.databaseHits
            == m.totalRequests - m.l1Hits - m.l2Hits - m.databaseHits + if e.Get? && reply.None? then 1 else 0
  {
  }

  /** Over whole runs both levels are invisible, and every request is accounted for: it was a hit in
      one of the levels, a hit in the database, or a key nobody has. */
  lemma {:induction false} RunCoherent(c: Config, db: map<string, string>, events: seq<Event>)
    ensures |Run(c, Empty(db), events).1| == |events|
    ensures var (after, replies) := Run(c, Empty(db), events);
            && Coherent(after) && Off(c, after)
            && after.db == RunDirect(db, events).0 && replies == RunDirect(db, events).1
            && after.metrics.totalRequests
               == after.metrics.l1Hits + after.metrics.l2Hits + after.metrics.databaseHits + Missing(events, replies)
  {
    assert Coherent(Empty(db)) && Off(c, Empty(db));
    hide Apply, Direct, Coherent, Off;
    RunLength(c, Empty(db), events);
    if events != [] {
      var last := |events| - 1;
      RunCoherent(c, db, events[..last]);
      var front := Run(c, Empty(db), events[..last]);
      RunLength(c, Empty(db), events[..last]);
      StepCoherent(c, front.0, events[last]);
      StepCounted(c, front.0, events[last]);
      assert Run(c, Empty(db), events).1[..last] == front.1;
    }
  }

  /** The copy a Get would find before it reaches the database. */
  function Cached(c: Config, s: State, key: string, now: Time): Option<string> {
    if c.enableL1 && Look1(s.l1, key, now).Some? then Look1(s.l1, key, now)
    else if c.enableL2 then Look2(s.l2, key, now)
    else None
  }

  /** A write that goes to the database behind the cache's back is seen by the next Get exactly when
      no live copy is cached or the write changes nothing. */
  lemma DirectWriteSeenIff(c: Config, s: State, key: string, value: string, now: Time, victim: string)
    requires Coherent(s)
    ensures Apply(c, s.(db := s.db[key := value]), Get(key, now, victim)).1 == Some(value)
            <==> Cached(c, s, key, now).None? || Find(s.db, key) == Some(value)
  {
  }

  // ----- The objects -----

  class LocalCache {
    var data: map<string, LocalItem>
    const maxSize: int
    var hits: nat
    var misses: nat
    var evictions: nat
    var totalAccess: nat

    constructor (maxSize: int)
      ensures data == map[] && this.maxSize == maxSize
      ensures hits == misses == evictions == totalAccess == 0
    {
      this.maxSize := maxSize;
      data, hits, misses, evictions, totalAccess := map[], 0, 0, 0, 0;
    }

    method Get(key: string, now: Time) returns (value: Option<string>)
      modifies this
      ensures value == if key in old(data) && now <= old(data)[key].expiresAt then Some(old(data)[key].value) else None
      ensures value.None? ==> data == old(data)
      ensures value.Some? ==>
                var item := old(data)[key];
                data == old(data)[key := item.(accessCount := item.accessCount + 1, lastAccess := now)]
      ensures totalAccess == old(totalAccess) + 1 && evictions == old(evictions)
      ensures hits == old(hits) + if value.Some? then 1 else 0
      ensures misses == old(misses) + if value.None? then 1 else 0
    {
      totalAccess := totalAccess + 1;
      if key !in data {
        misses := misses + 1;
        return None;
      }
      var item := data[key];
      if now > item.expiresAt {
        misses := misses + 1;
        return None;
      }
      data := data[key := item.(accessCount := item.accessCount + 1, lastAccess := now)];
      hits := hits + 1;
      return Some(item.value);
    }

    /** The scan of evictLRU, in any order. */
    method FindOldest(now: Time) returns (oldestKey: string)
      ensures MayEvict(data, now, oldestKey)
    {
      var oldestTime := now;
      oldestKey := "";
      var pending := data.Keys;
      while pending != {}
        invariant pending <= data.Keys
        invariant oldestTime <= now
        invariant forall k :: k in data && k !in pending ==> data[k].lastAccess >= oldestTime
        invariant oldestTime < now ==> oldestKey in data && data[oldestKey].lastAccess == oldestTime
        invariant oldestTime == now ==> oldestKey == ""
      {
        var key :| key in pending;
        if data[key].lastAccess < oldestTime {
          oldestTime, oldestKey := data[key].lastAccess, key;
        }
        pending := pending - {key};
      }
    }

    method EvictLRU(now: Time) returns (ghost victim: string)
      modifies `data, `evictions
      ensures MayEvict(old(data), now, victim)
      ensures data == if victim != "" then old(data) - {victim} else old(data)
      ensures evictions == old(evictions) + if victim != "" then 1 else 0
    {
      var oldestKey := FindOldest(now);
      victim := oldestKey;
      if oldestKey != "" {
        data := data - {oldestKey};
        evictions := evictions + 1;
      }
    }

    method Set(key: string, value: string, ttl: int, now: Time) returns (ghost victim: string)
      modifies `data, `evictions
      ensures |old(data)| >= maxSize ==> MayEvict(old(data), now, victim)
      ensures data == Put1(old(data), maxSize, key, value, now + ttl, now, victim)
      ensures evictions == old(evictions) + if |old(data)| >= maxSize && victim != "" then 1 else 0
    {
      victim := "";
      if |data| >= maxSize {
        victim := EvictLRU(now);
      }
      data := data[key := LocalItem(value, now + ttl, 0, now)];
    }

    method Delete(key: string)
      modifies `data
      ensures data == old(data) - {key}
    {
      data := data - {key};
    }

    method CleanupExpired(now: Time)
      modifies `data
      ensures data == Unexpired1(old(data), now)
    {
      var pending := data.Keys;
      while pending != {}
        invariant pending <= data.Keys
        invariant forall k :: k in data <==> k in old(data) && (k in pending || now <= old(data)[k].expiresAt)
        invariant forall k :: k in data ==> data[k] == old(data)[k]
      {
        var key :| key in pending;
        if now > data[key].expiresAt {
          data := data - {key};
        }
        pending := pending - {key};
      }
    }
  }

  class SharedCache {
    var data: map<string, SharedItem>
    var hits: nat
    var misses: nat
    var sets: nat
    var deletes: nat
    var networkCalls: nat

    constructor ()
      ensures data == map[]
      ensures hits == misses == sets == deletes == networkCalls == 0
    {
      data, hits, misses, sets, deletes, networkCalls := map[], 0, 0, 0, 0, 0;
    }

    method Get(key: string, now: Time) returns (value: Option<string>)
      modifies `hits, `misses, `networkCalls
      ensures value == if key in data && now <= data[key].expiresAt then Some(data[key].value) else None
      ensures networkCalls == old(networkCalls) + 1
      ensures hits == old(hits) + if value.Some? then 1 else 0
      ensures misses == old(misses) + if value.None? then 1 else 0
    {
      networkCalls := networkCalls + 1;
      if key !in data {
        misses := misses + 1;
        return None;
      }
      if now > data[key].expiresAt {
        misses := misses + 1;
        return None;
      }
      hits := hits + 1;
      return Some(data[key].value);
    }

    method Set(key: string, value: string, ttl: int, now: Time)
      modifies `data, `sets, `networkCalls
      ensures data == old(data)[key := SharedItem(value, now + ttl, now)]
      ensures networkCalls == old(networkCalls) + 1 && sets == old(sets) + 1
    {
      networkCalls := networkCalls + 1;
      sets := sets + 1;
      data := data[key := SharedItem(value, now + ttl, now)];
    }

    method Delete(key: string)
      modifies `data, `deletes, `networkCalls
      ensures data == old(data) - {key}
      ensures networkCalls == old(networkCalls) + 1 && deletes == old(deletes) + 1
    {
      networkCalls := networkCalls + 1;
      deletes := deletes + 1;
      data := data - {key};
    }

    method CleanupExpired(now: Time)
      modifies `data
      ensures data == Unexpired2(old(data), now)
    {
      var pending := data.Keys;
      while pending != {}
        invariant pending <= data.Keys
        invariant forall k :: k in data <==> k in old(data) && (k in pending || now <= old(data)[k].expiresAt)
        invariant forall k :: k in data ==> data[k] == old(data)[k]
      {
        var key :| key in pending;
        if now > data[key].expiresAt {
          data := data - {key};
        }
        pending := pending - {key};
      }
    }
  }

  class Database {
    var data: map<string, string>

    constructor (data: map<string, string>)
      ensures this.data == data
    {
      this.data := data;
    }
  }

  class MultilevelCache {
    const l1Cache: LocalCache?
    const l2Cache: SharedCache?
    const config: Config
    var metrics: Metrics

    ghost predicate Valid()
    {
      && (l1Cache != null <==> config.enableL1) && (l2Cache != null <==> config.enableL2)
      && (l1Cache != null ==> l1Cache.maxSize == config.l1MaxSize)
    }

    ghost function Current(database: Database): State
      reads this, l1Cache, l2Cache, database
    {
      State(if l1Cache == null then map[] else l1Cache.data,
            if l2Cache == null then map[] else l2Cache.data,
            database.data, metrics)
    }

    /** If the local level is on and full, the victim is one that evictLRU may choose. */
    ghost predicate Proper(s: State, now: Time, victim: string) {
      config.enableL1 && |s.l1| >= config.l1MaxSize ==> MayEvict(s.l1, now, victim)
    }

    lemma Follow(before: State, e: Event)
      requires Off(config, before)
      ensures var (after, reply) := Apply(config, before, e);
              && (Coherent(before) ==> Coherent(after) && after.db == Direct(before.db, e).0)
              && (Coherent(before) && e.Get? ==> reply == Find(before.db, e.key))
    {
      if Coherent(before) {
        StepCoherent(config, before, e);
      }
    }

    constructor (config: Config)
      ensures Valid() && this.config == config
      ensures (l1Cache != null ==> fresh(l1Cache)) && (l2Cache != null ==> fresh(l2Cache))
      ensures forall d: Database :: Current(d) == Empty(d.data)
    {
      this.config := config;
      metrics := Metrics(0, 0, 0, 0);
      var l1: LocalCache?, l2: SharedCache? := null, null;
      if config.enableL1 {
        l1 := new LocalCache(config.l1MaxSize);
      }
      if config.enableL2 {
        l2 := new SharedCache();
      }
      l1Cache, l2Cache := l1, l2;
    }

    /** What a Get answers is what the database holds. */
    method Get(key: string, database: Database, now: Time) returns (value: Option<string>, ghost victim: string)
      requires Valid()
      modifies this, l1Cache, l2Cache
      ensures (Current(database), value) == Apply(config, old(Current(database)), Event.Get(key, now, victim))
      ensures value.Some? && Look1(old(Current(database)).l1, key, now).None? ==>
          Proper(old(Current(database)), now, victim)
      ensures old(Coherent(Current(database))) ==> Coherent(Current(database)) && value == Find(database.data, key)
    {
      ghost var before := Current(database);
      assert Off(config, before);
      value, victim := Probe(key, database, now);
      hide Coherent, Read, Off;
      Follow(before, Event.Get(key, now, victim));
    }

    /** The levels of Get in turn. */
    method Probe(key: string, database: Database, now: Time) returns (value: Option<string>, ghost victim: string)
      requires Valid()
      modifies this, l1Cache, l2Cache
      ensures (Current(database), value) == Read(config, old(Current(database)), key, now, victim)
      ensures value.Some? && Look1(old(Current(database)).l1, key, now).None? ==>
          Proper(old(Current(database)), now, victim)
    {
      hide Put1, MayEvict;
      victim := "";
      metrics := metrics.(totalRequests := metrics.totalRequests + 1);
      if config.enableL1 && l1Cache != null {
        var hit := l1Cache.Get(key, now);
        if hit.Some? {
          metrics := metrics.(l1Hits := metrics.l1Hits + 1);
          return hit, victim;
        }
      }
      if config.enableL2 && l2Cache != null {
        var hit := l2Cache.Get(key, now);
        if hit.Some? {
          metrics := metrics.(l2Hits := metrics.l2Hits + 1);
          victim := BackFill(key, hit.value, database, now);
          return hit, victim;
        }
      }
      value, victim := Load(key, database, now);
    }

    /** Writing back to the local level, if it is on. */
    method BackFill(key: string, value: string, ghost database: Database, now: Time) returns (ghost victim: string)
      requires Valid()
      modifies l1Cache
      ensures Current(database) == Fill1(config, old(Current(database)), key, value, now, victim)
      ensures Proper(old(Current(database)), now, victim)
    {
      hide Put1, MayEvict;
      victim := "";
      if config.enableL1 && l1Cache != null {
        victim := l1Cache.Set(key, value, config.l1TTL, now);
      }
    }

    /** The part of Get behind both levels. */
    method Load(key: string, database: Database, now: Time) returns (value: Option<string>, ghost victim: string)
      requires Valid()
      modifies this, l1Cache, l2Cache
      ensures value == Find(database.data, key)
      ensures value.Some? ==> Proper(old(Current(database)), now, victim)
      ensures var s := old(Current(database));
              Current(database) == match value
                case None => s
                case Some(stored) =>
                  var m := s.metrics.(databaseHits := s.metrics.databaseHits + 1);
                  Fill1(config, Fill2(config, s.(metrics := m), key, stored, now), key, stored, now, victim)
    {
      hide Put1, MayEvict;
      victim := "";
      if key !in database.data {
        return None, victim;
      }
      var stored := database.data[key];
      metrics := metrics.(databaseHits := metrics.databaseHits + 1);
      if config.enableL2 && l2Cache != null {
        l2Cache.Set(key, stored, config.l2TTL, now);
      }
      victim := BackFill(key, stored, database, now);
      value := Some(stored);
    }

    method Set(key: string, value: string, database: Database, now: Time) returns (ghost victim: string)
      requires Valid()
      modifies l1Cache, l2Cache, database
      ensures Current(database) == Apply(config, old(Current(database)), Event.Set(key, value, now, victim)).0
      ensures database.data == old(database.data)[key := value]
      ensures config.writeThrough ==> Proper(old(Current(database)), now, victim)
      ensures old(Coherent(Current(database))) ==> Coherent(Current(database))
    {
      ghost var before := Current(database);
      assert Off(config, before);
      hide Coherent, Put1, MayEvict, Off;
      victim := "";
      database.data := database.data[key := value];
      if config.writeThrough {
        if config.enableL2 && l2Cache != null {
          l2Cache.Set(key, value, config.l2TTL, now);
        }
        if config.enableL1 && l1Cache != null {
          victim := l1Cache.Set(key, value, config.l1TTL, now);
        }
      } else {
        Delete(key);
      }
      Follow(before, Event.Set(key, value, now, victim));
    }

    /** Drops the cached copies only; the database keeps the key. */
    method Delete(key: string)
      requires Valid()
      modifies l1Cache, l2Cache
      ensures l1Cache != null ==> l1Cache.data == old(l1Cache.data) - {key}
      ensures l2Cache != null ==> l2Cache.data == old(l2Cache.data) - {key}
    {
      if config.enableL1 && l1Cache != null {
        l1Cache.Delete(key);
      }
      if config.enableL2 && l2Cache != null {
        l2Cache.Delete(key);
      }
    }
  }
}
