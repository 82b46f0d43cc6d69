/** Deadlines, batches and statistics of the store, told from the operations and their answers. */
module LruDeadlines {
  import opened Wrappers
  import opened LruSpec
  import opened LruMemory

  // ----- One operation -----

  /** Cleanup takes out the keys past their deadline, entry and deadline both, and nothing else; an entry
      due at this very moment stays. */
  lemma CleanupExact(s: Lru, now: int, k: string)
    ensures var t := Cleanup(s, now); var due := k in s.ttl && s.ttl[k] < now;
            && Lookup(t.list, k) == (if due then None else Lookup(s.list, k))
            && (k in t.ttl <==> k in s.ttl && !due) && (k in t.ttl ==> t.ttl[k] == s.ttl[k])
  {
    LookupDrop(s.list, ExpiredKeys(s.ttl, now), k);
  }

  /** DeleteMulti takes out the listed keys with their deadlines and counts those that were stored, once
      each however often they are listed; a deadline without an entry stays. */
  lemma {:induction false} DeleteMultiExact(s: Lru, keys: seq<string>)
    ensures var (t, count) := DeleteMulti(s, keys);
            Removed(s, t, Listed(keys)) && count == |Listed(keys) * Keys(s.list)|
  {
    ListedNext(keys);
    hide Removed, LruSpec.Delete, Keys, Listed;
    if keys == [] {
      RemovedNone(s);
    } else {
      var n := |keys| - 1;
      DeleteMultiExact(s, keys[..n]);
      DeleteNext(s, DeleteMulti(s, keys[..n]).0, Listed(keys[..n]), keys[n]);
    }
  }

  function Listed(keys: seq<string>): set<string> {
    set k | k in keys
  }

  lemma ListedNext(keys: seq<string>)
    ensures if keys == [] then Listed(keys) == {}
            else Listed(keys) == Listed(keys[..|keys| - 1]) + {keys[|keys| - 1]}
  {
    if keys != [] {
      assert keys == keys[..|keys| - 1] + [keys[|keys| - 1]];
    }
  }

  lemma RemovedNone(s: Lru)
    ensures Removed(s, s, {}) && |{} * Keys(s.list)| == 0
  {
    DropAbsent(s.list, {});
    assert {} * Keys(s.list) == {};
  }

  /** `t` is `s` without the listed keys. */
  ghost predicate Removed(s: Lru, t: Lru, listed: set<string>) {
    t.list == Drop(s.list, listed) && t.ttl == s.ttl - listed * Keys(s.list) && t.stats == s.stats
  }

  lemma DeleteNext(s: Lru, t: Lru, listed: set<string>, key: string)
    requires Removed(s, t, listed)
    ensures Removed(s, LruSpec.Delete(t, key), listed + {key})
    ensures |(listed + {key}) * Keys(s.list)| == |listed * Keys(s.list)| + if key in Keys(t.list) then 1 else 0
  {
    DropTwice(s.list, listed, {key});
    DropKeys(s.list, listed);
    hide Drop, Keys;
    if key in Keys(t.list) {
      assert (listed + {key}) * Keys(s.list) == listed * Keys(s.list) + {key};
    } else {
      DropAbsent(t.list, {key});
      assert (listed + {key}) * Keys(s.list) == listed * Keys(s.list);
    }
  }

  lemma DropKeys(list: seq<Entry>, keys: set<string>)
    ensures Keys(Drop(list, keys)) == Keys(list) - keys
  {
    DropIn(list, keys);
    forall e | e in list && e.key !in keys ensures e.key in Keys(Drop(list, keys)) {
      assert e in Drop(list, keys);
    }
  }

  /** GetMulti answers each listed key that is stored with its value; what is stored does not change. */
  lemma {:induction false} GetMultiExact(s: Lru, keys: seq<string>)
    ensures var (t, found) := GetMulti(s, keys);
            && found == (map k | k in keys && k in Keys(s.list) :: Lookup(s.list, k).value)
            && (forall k :: Lookup(t.list, k) == Lookup(s.list, k)) && t.ttl == s.ttl
  {
    hide FetchRaw, Lookup, Keys;
    if keys != [] {
      var n := |keys| - 1;
      GetMultiExact(s, keys[..n]);
      assert keys == keys[..n] + [keys[n]];
      var t := GetMulti(s, keys[..n]).0;
      forall k ensures Lookup(FetchRaw(t, keys[n]).0.list, k) == Lookup(s.list, k) {
        FetchRawKeeps(t, keys[n], k);
      }
      FetchRawKeeps(t, keys[n], keys[n]);
      assert FetchRaw(t, keys[n]).1 == Lookup(s.list, keys[n]);
    }
  }

  lemma FetchRawKeeps(s: Lru, key: string, k: string)
    ensures var (t, r) := FetchRaw(s, key);
            Lookup(t.list, k) == Lookup(s.list, k) && t.ttl == s.ttl && r == Lookup(s.list, key)
  {
    LookupDrop(s.list, {key}, k);
  }

  lemma {:induction false} PutMultiKeeps(s: Lru, items: seq<Entry>)
    requires Sound(s)
    ensures Sound(PutMulti(s, items)) && PutMulti(s, items).ttl == s.ttl && PutMulti(s, items).stats == s.stats
  {
    if items != [] {
      var n := |items| - 1;
      PutMultiKeeps(s, items[..n]);
      PutSound(PutMulti(s, items[..n]), items[n].key, items[n].value);
      PutStats(PutMulti(s, items[..n]), items[n].key, items[n].value);
    }
  }

  lemma PutStats(s: Lru, key: string, value: string)
    ensures Put(s, key, value).stats == s.stats
  {
    EvictStats(s, Cost(key, value));
  }

  lemma {:induction false} EvictStats(s: Lru, memory: nat)
    ensures Evict(s, memory).stats == s.stats
    decreases |s.list|
  {
    if MustEvict(s, memory) && |s.list| > 0 {
      var last := s.list[|s.list| - 1];
      EvictStats(s.(list := s.list[..|s.list| - 1], memoryUsage := s.memoryUsage - Cost(last.key, last.value)), memory);
    }
  }

  // ----- Deadlines over runs -----

  predicate Due(deadline: Option<int>, now: int) {
    deadline.Some? && now > deadline.value
  }

  /** The deadline of a key after these operations: that of the latest SetWithTTL, which neither a plain Set
      nor an eviction clears; it goes when the stored key is deleted or is met past its deadline, and
      Cleanup clears it in any case. */
  ghost function Deadline(s: Lru, ops: seq<Op>, k: string): Option<int> {
    if ops == [] then None
    else
      var n := |ops| - 1;
      var d := Deadline(s, ops[..n], k);
      var stored := k in Keys(Run(s, ops[..n]).list);
      match ops[n]
      case PutTtlOp(x, _, t) => if x == k then Some(t) else d
      case DeleteOp(x) => if x == k && stored then None else d
      case DeleteMultiOp(keys) => if k in keys && stored then None else d
      case GetOp(x, now) => if x == k && stored && Due(d, now) then None else d
      case CleanupOp(now) => if Due(d, now) then None else d
      case _ => d
  }

  function Entered(s: Lru, k: string): Option<int> {
    if k in s.ttl then Some(s.ttl[k]) else None
  }

  lemma {:induction false} DeadlineKept(c: nat, limit: int, ops: seq<Op>, k: string)
    requires 0 < c
    ensures var s := Run(Empty(c, limit), ops); Sound(s) && Entered(s, k) == Deadline(Empty(c, limit), ops, k)
  {
    if ops != [] {
      var n := |ops| - 1;
      var s := Run(Empty(c, limit), ops[..n]);
      DeadlineKept(c, limit, ops[..n], k);
      ApplySound(s, ops[n]);
      EnteredNext(s, ops[n], k);
      hide Apply, Sound, Keys;
    }
  }

  lemma EnteredNext(s: Lru, op: Op, k: string)
    requires Sound(s)
    ensures Entered(Apply(s, op), k) ==
            match op
            case PutTtlOp(x, _, t) => if x == k then Some(t) else Entered(s, k)
            case DeleteOp(x) => if x == k && k in Keys(s.list) then None else Entered(s, k)
            case DeleteMultiOp(keys) => if k in keys && k in Keys(s.list) then None else Entered(s, k)
            case GetOp(x, now) => if x == k && k in Keys(s.list) && Due(Entered(s, k), now) then None else Entered(s, k)
            case CleanupOp(now) => if Due(Entered(s, k), now) then None else Entered(s, k)
            case _ => Entered(s, k)
  {
    match op
    case PutOp(x, v) => PutSound(s, x, v);
    case PutTtlOp(x, v, _) => PutSound(s, x, v);
    case GetOp(x, now) =>
    case DeleteOp(x) =>
    case PutMultiOp(items) => PutMultiKeeps(s, items);
    case GetMultiOp(keys) => GetMultiExact(s, keys);
    case DeleteMultiOp(keys) => DeleteMultiExact(s, keys);
    case CleanupOp(now) => CleanupExact(s, now, k);
  }

  /** After any run, with any limit, a Get answers what is stored unless the key is past its deadline, and
      then the key is gone; the data handed to migration are exactly what such Gets would answer. */
  lemma AnswersIff(c: nat, limit: int, ops: seq<Op>, k: string, now: int)
    requires 0 < c
    ensures var s := Run(Empty(c, limit), ops); var due := Due(Deadline(Empty(c, limit), ops, k), now);
            && Fetch(s, k, now).1 == (if due then None else Lookup(s.list, k))
            && (due ==> Lookup(Fetch(s, k, now).0.list, k) == None)
            && (k in Live(s, now) <==> Fetch(s, k, now).1.Some?)
            && (k in Live(s, now) ==> Fetch(s, k, now).1 == Some(Live(s, now)[k]))
  {
    hide Run, Deadline;
    DeadlineKept(c, limit, ops, k);
    LookupDrop(Run(Empty(c, limit), ops).list, {k}, k);
  }

  /** A plain Set does not renew a deadline: what it stored is read back exactly if it was not refused and the
      key has no deadline from before, which may be that of an entry long evicted, that has passed. */
  lemma ReadBackIff(c: nat, limit: int, ops: seq<Op>, k: string, v: string, now: int)
    requires 0 < c
    ensures var s := Run(Empty(c, limit), ops);
            Fetch(Put(s, k, v), k, now).1 == Some(v) <==>
              && !Due(Deadline(Empty(c, limit), ops, k), now)
              && (Cost(k, v) <= limit || limit <= 0 || Lookup(s.list, k) == Some(v))
  {
    var s := Run(Empty(c, limit), ops);
    DeadlineKept(c, limit, ops, k);
    ConfigKept(Empty(c, limit), ops);
    hide Run, Deadline;
    PutSound(s, k, v);
  }

  // ----- Statistics -----

  /** The requests an operation makes. */
  function Requests(op: Op): nat {
    match op
    case GetOp(_, _) => 1
    case GetMultiOp(keys) => |keys|
    case _ => 0
  }

  function CountIn(keys: seq<string>, found: set<string>): nat {
    if keys == [] then 0
    else CountIn(keys[..|keys| - 1], found) + if keys[|keys| - 1] in found then 1 else 0
  }

  /** How many of them are answered. */
  function Answered(s: Lru, op: Op): nat {
    match op
    case GetOp(k, now) => if Fetch(s, k, now).1.Some? then 1 else 0
    case GetMultiOp(keys) => CountIn(keys, GetMulti(s, keys).1.Keys)
    case _ => 0
  }

  function AllRequests(ops: seq<Op>): nat {
    if ops == [] then 0 else AllRequests(ops[..|ops| - 1]) + Requests(ops[|ops| - 1])
  }

  function AllAnswered(s: Lru, ops: seq<Op>): nat {
    if ops == [] then 0
    else AllAnswered(s, ops[..|ops| - 1]) + Answered(Run(s, ops[..|ops| - 1]), ops[|ops| - 1])
  }

  lemma {:induction false} CountSame(keys: seq<string>, a: set<string>, b: set<string>)
    requires forall k :: k in keys ==> (k in a <==> k in b)
    ensures CountIn(keys, a) == CountIn(keys, b)
  {
    if keys != [] {
      CountSame(keys[..|keys| - 1], a, b);
    }
  }

  lemma {:induction false} GetMultiStats(s: Lru, keys: seq<string>)
    ensures var (t, found) := GetMulti(s, keys); var answered := CountIn(keys, Keys(s.list));
            && answered <= |keys| && answered == CountIn(keys, found.Keys)
            && t.stats == Stats(s.stats.hits + answered, s.stats.misses + (|keys| - answered), s.stats.total + |keys|)
  {
    GetMultiExact(s, keys);
    CountSame(keys, Keys(s.list), GetMulti(s, keys).1.Keys);
    if keys != [] {
      var n := |keys| - 1;
      GetMultiStats(s, keys[..n]);
      GetMultiExact(s, keys[..n]);
      hide Keys;
    }
  }

  lemma StatsNext(s: Lru, op: Op)
    requires Sound(s)
    ensures var t := Apply(s, op).stats;
            && t.hits == s.stats.hits + Answered(s, op) && t.total == s.stats.total + Requests(op)
            && t.total - t.hits - t.misses == s.stats.total - s.stats.hits - s.stats.misses
  {
    match op
    case PutOp(k, v) => PutStats(s, k, v);
    case PutTtlOp(k, v, _) => PutStats(s, k, v);
    case GetOp(k, now) =>
    case DeleteOp(k) =>
    case PutMultiOp(items) => PutMultiKeeps(s, items);
    case GetMultiOp(keys) => GetMultiStats(s, keys);
    case DeleteMultiOp(keys) => DeleteMultiExact(s, keys);
    case CleanupOp(now) =>
  }

  /** The counters after any run: every key asked for counts once, as a hit if it was answered and as a miss
      if not. */
  lemma {:induction false} StatsExact(c: nat, limit: int, ops: seq<Op>)
    requires 0 < c
    ensures var s := Run(Empty(c, limit), ops); var answered := AllAnswered(Empty(c, limit), ops);
            && Sound(s) && s.stats.total == AllRequests(ops)
            && s.stats.hits == answered && s.stats.misses == s.stats.total - answered
  {
    if ops != [] {
      var n := |ops| - 1;
      StatsExact(c, limit, ops[..n]);
      ApplySound(Run(Empty(c, limit), ops[..n]), ops[n]);
      StatsNext(Run(Empty(c, limit), ops[..n]), ops[n]);
      hide Apply, Sound, Answered;
    }
  }
}
