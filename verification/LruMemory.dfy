/** What the eviction loop keeps, and what memoryUsage counts over whole runs. */
module LruMemory {
  import opened Wrappers
  import opened LruSpec

  datatype Op =
    | PutOp(key: string, value: string)
    | PutTtlOp(key: string, value: string, deadline: int)
    | GetOp(key: string, now: int)
    | DeleteOp(key: string)
    | PutMultiOp(items: seq<Entry>)
    | GetMultiOp(keys: seq<string>)
    | DeleteMultiOp(keys: seq<string>)
    | CleanupOp(now: int)

  function Apply(s: Lru, op: Op): Lru {
    match op
    case PutOp(k, v) => Put(s, k, v)
    case PutTtlOp(k, v, d) => PutTtl(s, k, v, d)
    case GetOp(k, now) => Fetch(s, k, now).0
    case DeleteOp(k) => Delete(s, k)
    case PutMultiOp(items) => PutMulti(s, items)
    case GetMultiOp(keys) => GetMulti(s, keys).0
    case DeleteMultiOp(keys) => DeleteMulti(s, keys).0
    case CleanupOp(now) => Cleanup(s, now)
  }

  function Run(s: Lru, ops: seq<Op>): Lru {
    if ops == [] then s else Apply(Run(s, ops[..|ops| - 1]), ops[|ops| - 1])
  }

  /** One entry per key, never more than capacity. */
  ghost predicate Sound(s: Lru) {
    Distinct(s.list) && 0 < s.capacity && |s.list| <= s.capacity
  }

  /** memoryUsage is off by exactly this much. */
  function Drift(s: Lru): int {
    s.memoryUsage - Total(s.list)
  }

  // ----- Eviction -----

  /** The store that keeps only its `n` most recent entries. */
  function Keep(s: Lru, n: nat): Lru
    requires n <= |s.list|
  {
    s.(list := s.list[..n], memoryUsage := s.memoryUsage - Total(s.list[n..]))
  }

  /** A new entry of cost `memory` fits both limits on top of the `n` most recent entries. */
  predicate Fits(s: Lru, n: nat, memory: nat)
    requires n <= |s.list|
  {
    && n < s.capacity
    && (s.memoryLimit > 0 && n > 0 ==> Keep(s, n).memoryUsage + memory <= s.memoryLimit)
  }

  lemma {:induction false} KeepKeep(s: Lru, m: nat, n: nat)
    requires n <= m <= |s.list|
    ensures Keep(Keep(s, m), n) == Keep(s, n)
  {
    assert s.list[..m][..n] == s.list[..n];
    assert s.list[n..] == s.list[..m][n..] + s.list[m..];
    TotalConcat(s.list[..m][n..], s.list[m..]);
  }

  lemma KeepAllButLast(s: Lru)
    requires s.list != []
    ensures var k := |s.list| - 1; var last := s.list[k];
            Keep(s, k) == s.(list := s.list[..k], memoryUsage := s.memoryUsage - Cost(last.key, last.value))
  {
    var last := s.list[|s.list| - 1];
    assert s.list[|s.list| - 1..] == [last];
    assert Total([last]) == Cost(last.key, last.value) + Total([last][1..]);
  }

  lemma KeepAll(s: Lru)
    ensures Keep(s, |s.list|) == s
  {
    assert s.list[..|s.list|] == s.list && s.list[|s.list|..] == [];
  }

  lemma FitsKept(s: Lru, k: nat, m: nat, memory: nat)
    requires m <= k <= |s.list|
    ensures Fits(Keep(s, k), m, memory) == Fits(s, m, memory)
  {
    KeepKeep(s, k, m);
    assert Keep(Keep(s, k), m).memoryUsage == Keep(s, m).memoryUsage;
  }

  lemma EvictGoesOn(s: Lru, memory: nat)
    requires 0 < s.capacity && MustEvict(s, memory) && s.list != []
    ensures Evict(s, memory) == Evict(Keep(s, |s.list| - 1), memory) && !Fits(s, |s.list|, memory)
  {
    KeepAll(s);
    KeepAllButLast(s);
    hide Keep;
  }

  lemma EvictStops(s: Lru, memory: nat)
    requires 0 < s.capacity && (MustEvict(s, memory) ==> s.list == [])
    ensures Evict(s, memory) == s == Keep(s, |s.list|) && Fits(s, |s.list|, memory)
  {
    KeepAll(s);
    hide Keep;
  }

  lemma KeepSize(s: Lru, n: nat)
    requires n <= |s.list|
    ensures |Keep(s, n).list| == n && Keep(s, n).capacity == s.capacity
  {
  }

  /** Eviction keeps the longest prefix that leaves room: it drops the shortest suffix. */
  lemma {:induction false} EvictExact(s: Lru, memory: nat) returns (n: nat)
    requires 0 < s.capacity
    ensures n <= |s.list| && Evict(s, memory) == Keep(s, n) && Fits(s, n, memory)
    ensures forall m :: n < m <= |s.list| ==> !Fits(s, m, memory)
    decreases |s.list|
  {
    hide Evict, Keep, Fits;
    var k := |s.list|;
    if MustEvict(s, memory) && k > 0 {
      var t := Keep(s, k - 1);
      KeepSize(s, k - 1);
      EvictGoesOn(s, memory);
      n := EvictExact(t, memory);
      forall m | n < m < k ensures !Fits(s, m, memory) {
        FitsKept(s, k - 1, m, memory);
      }
      FitsKept(s, k - 1, n, memory);
      KeepKeep(s, k - 1, n);
    } else {
      n := k;
      EvictStops(s, memory);
    }
  }

  lemma KeepDrift(s: Lru, n: nat)
    requires n <= |s.list| && Distinct(s.list)
    ensures Drift(Keep(s, n)) == Drift(s) && Distinct(Keep(s, n).list)
    ensures Keys(Keep(s, n).list) <= Keys(s.list)
  {
    assert s.list == s.list[..n] + s.list[n..];
    TotalConcat(s.list[..n], s.list[n..]);
  }

  lemma EvictKeepsDrift(s: Lru, memory: nat)
    requires 0 < s.capacity && Distinct(s.list)
    ensures var e := Evict(s, memory); Drift(e) == Drift(s) && |e.list| < s.capacity && Distinct(e.list)
    ensures Keys(Evict(s, memory).list) <= Keys(s.list)
  {
    hide Evict, Keep, Drift, Keys;
    var n := EvictExact(s, memory);
    KeepDrift(s, n);
    KeepSize(s, n);
  }

  // ----- memoryUsage over whole runs -----

  /** The one place that loses count: Get drops an expired entry and keeps charging for it. */
  function Leak(s: Lru, op: Op): nat {
    match op
    case GetOp(key, now) =>
      if Lookup(s.list, key).Some? && Expired(s.ttl, key, now) then Cost(key, Lookup(s.list, key).value) else 0
    case _ => 0
  }

  function Leaks(s: Lru, ops: seq<Op>): nat {
    if ops == [] then 0
    else Leaks(s, ops[..|ops| - 1]) + Leak(Run(s, ops[..|ops| - 1]), ops[|ops| - 1])
  }

  /** Moving or removing one key keeps one entry per key. */
  lemma {:induction false} DropOneSound(s: Lru, key: string)
    requires Sound(s)
    ensures Distinct(Drop(s.list, {key})) && key !in Keys(Drop(s.list, {key}))
    ensures |Drop(s.list, {key})| == if key in Keys(s.list) then |s.list| - 1 else |s.list|
    ensures key in Keys(s.list) ==>
              Total(Drop(s.list, {key})) + Cost(key, Lookup(s.list, key).value) == Total(s.list)
  {
    DropDistinct(s.list, {key});
    assert key !in Keys(Drop(s.list, {key})) by { DropIn(s.list, {key}); }
    TotalDropOne(s.list, key);
    if key in Keys(s.list) {
      var e :| e in s.list && e.key == key;
      var i :| 0 <= i < |s.list| && s.list[i] == e;
      DropAt(s.list, i);
    } else {
      DropAbsent(s.list, {key});
    }
  }

  lemma FrontDistinct(list: seq<Entry>, key: string, value: string)
    requires Distinct(list) && key !in Keys(list)
    ensures Distinct([Entry(key, value)] + list)
  {
    var longer := [Entry(key, value)] + list;
    forall j | 1 <= j < |longer| ensures longer[j].key != key {
      assert longer[j] in list;
    }
  }

  lemma {:induction false} PutSound(s: Lru, key: string, value: string)
    requires Sound(s)
    ensures Sound(Put(s, key, value)) && Drift(Put(s, key, value)) == Drift(s)
    ensures Put(s, key, value).capacity == s.capacity && Put(s, key, value).memoryLimit == s.memoryLimit
    ensures Put(s, key, value).ttl == s.ttl
  {
    DropOneSound(s, key);
    EvictKeepsDrift(s, Cost(key, value));
    var n := EvictExact(s, Cost(key, value));
    FrontDistinct(Drop(s.list, {key}), key, value);
    if key !in Keys(s.list) {
      FrontDistinct(Evict(s, Cost(key, value)).list, key, value);
    }
  }

  lemma {:induction false} FetchSound(s: Lru, key: string, now: int)
    requires Sound(s)
    ensures Sound(Fetch(s, key, now).0) && Sound(FetchRaw(s, key).0) && Sound(Delete(s, key))
    ensures Drift(Fetch(s, key, now).0) == Drift(s) + Leak(s, GetOp(key, now))
    ensures Drift(FetchRaw(s, key).0) == Drift(s) && Drift(Delete(s, key)) == Drift(s)
  {
    DropOneSound(s, key);
    if key in Keys(s.list) {
      FrontDistinct(Drop(s.list, {key}), key, Lookup(s.list, key).value);
    }
  }

  lemma {:induction false} BatchSound(s: Lru, items: seq<Entry>, keys: seq<string>)
    requires Sound(s)
    ensures Sound(PutMulti(s, items)) && Drift(PutMulti(s, items)) == Drift(s)
    ensures Sound(GetMulti(s, keys).0) && Drift(GetMulti(s, keys).0) == Drift(s)
    ensures Sound(DeleteMulti(s, keys).0) && Drift(DeleteMulti(s, keys).0) == Drift(s)
    decreases |items| + |keys|
  {
    if items != [] {
      var n := |items| - 1;
      BatchSound(s, items[..n], []);
      PutSound(PutMulti(s, items[..n]), items[n].key, items[n].value);
    }
    if keys != [] {
      var n := |keys| - 1;
      BatchSound(s, [], keys[..n]);
      FetchSound(GetMulti(s, keys[..n]).0, keys[n], 0);
      FetchSound(DeleteMulti(s, keys[..n]).0, keys[n], 0);
    }
  }

  lemma {:induction false} ApplySound(s: Lru, op: Op)
    requires Sound(s)
    ensures Sound(Apply(s, op)) && Drift(Apply(s, op)) == Drift(s) + Leak(s, op)
  {
    match op
    case PutOp(k, v) => PutSound(s, k, v);
    case PutTtlOp(k, v, d) => PutSound(s, k, v);
    case GetOp(k, now) => FetchSound(s, k, now);
    case DeleteOp(k) => FetchSound(s, k, 0);
    case PutMultiOp(items) => BatchSound(s, items, []);
    case GetMultiOp(keys) => BatchSound(s, [], keys);
    case DeleteMultiOp(keys) => BatchSound(s, [], keys);
    case CleanupOp(now) => DropDistinct(s.list, ExpiredKeys(s.ttl, now));
  }

  /** In every reachable state memoryUsage is the sum over the live entries plus exactly what
      expired Gets have leaked, so it is right if and only if no Get ever met an expired entry. */
  lemma {:induction false} UsageExact(capacity: nat, limit: int, ops: seq<Op>)
    requires 0 < capacity
    ensures var s := Run(Empty(capacity, limit), ops);
            && Sound(s)
            && s.memoryUsage == Total(s.list) + Leaks(Empty(capacity, limit), ops)
  {
    if ops != [] {
      UsageExact(capacity, limit, ops[..|ops| - 1]);
      ApplySound(Run(Empty(capacity, limit), ops[..|ops| - 1]), ops[|ops| - 1]);
    }
  }

  // ----- The memory limit -----

  ghost predicate Affordable(list: seq<Entry>, limit: int) {
    forall e :: e in list ==> Cost(e.key, e.value) <= limit
  }

  /** What every reachable state of a memory-limited cache satisfies. */
  ghost predicate Limited(s: Lru) {
    && Sound(s) && Drift(s) == 0 && s.ttl == map[] && s.memoryLimit > 0
    && Affordable(s.list, s.memoryLimit)
    && 64 * |s.list| <= s.memoryLimit
  }

  lemma {:induction false} TotalBounds(list: seq<Entry>, limit: nat)
    requires Affordable(list, limit)
    ensures 64 * |list| <= Total(list) <= |list| * limit
  {
    if list != [] {
      assert list[0] in list;
      TotalBounds(list[1..], limit);
      assert |list| * limit == |list[1..]| * limit + limit;
    }
  }

  lemma {:induction false} PutLimited(s: Lru, key: string, value: string)
    requires Limited(s)
    ensures Limited(Put(s, key, value))
    ensures key !in Keys(s.list) && Cost(key, value) <= s.memoryLimit ==>
        Put(s, key, value).memoryUsage <= s.memoryLimit
  {
    PutSound(s, key, value);
    DropIn(s.list, {key});
    DropOneSound(s, key);
    if Cost(key, value) <= s.memoryLimit && key !in Keys(s.list) {
      var n := EvictExact(s, Cost(key, value));
      EvictKeepsDrift(s, Cost(key, value));
      assert forall e :: e in s.list[..n] ==> e in s.list;
      TotalBounds(s.list[..n], s.memoryLimit);
      if n == 0 {
        assert s.list[0..] == s.list;
      }
    }
  }

  lemma {:induction false} ApplyLimited(s: Lru, op: Op)
    requires Limited(s) && !op.PutTtlOp?
    ensures Limited(Apply(s, op))
    decreases match op
              case PutMultiOp(items) => |items|
              case GetMultiOp(keys) => |keys|
              case DeleteMultiOp(keys) => |keys|
              case _ => 0
  {
    hide Evict, Lookup;
    ApplySound(s, op);
    match op
    case PutOp(k, v) => PutLimited(s, k, v);
    case GetOp(k, now) => DropIn(s.list, {k}); DropOneSound(s, k);
    case DeleteOp(k) => DropIn(s.list, {k});
    case PutMultiOp(items) =>
      if items != [] {
        var n := |items| - 1;
        ApplyLimited(s, PutMultiOp(items[..n]));
        PutLimited(PutMulti(s, items[..n]), items[n].key, items[n].value);
      }
    case GetMultiOp(keys) =>
      if keys != [] {
        var n := |keys| - 1;
        ApplyLimited(s, GetMultiOp(keys[..n]));
        var t := GetMulti(s, keys[..n]).0;
        DropIn(t.list, {keys[n]});
        DropOneSound(t, keys[n]);
      }
    case DeleteMultiOp(keys) =>
      if keys != [] {
        var n := |keys| - 1;
        ApplyLimited(s, DeleteMultiOp(keys[..n]));
        DropIn(DeleteMulti(s, keys[..n]).0.list, {keys[n]});
      }
    case CleanupOp(now) =>
      assert ExpiredKeys(s.ttl, now) == {};
      DropAbsent(s.list, {});
  }

  /** In every reachable state of a memory-limited cache: one entry per 64 bytes of the limit
      at most, usage exact, and at most capacity times the limit. */
  lemma {:induction false} MemoryBound(capacity: nat, limit: nat, ops: seq<Op>)
    requires 0 < capacity && 0 < limit
    requires forall op :: op in ops ==> !op.PutTtlOp?
    ensures var s := Run(Empty(capacity, limit), ops);
            && Limited(s)
            && s.memoryUsage == Total(s.list)
            && |s.list| <= capacity && 64 * |s.list| <= limit
            && s.memoryUsage <= |s.list| * limit <= capacity * limit
  {
    if ops != [] {
      var n := |ops| - 1;
      MemoryBound(capacity, limit, ops[..n]);
      assert ops[n] in ops;
      ApplyLimited(Run(Empty(capacity, limit), ops[..n]), ops[n]);
      ConfigKept(Empty(capacity, limit), ops);
    }
    var s := Run(Empty(capacity, limit), ops);
    TotalBounds(s.list, limit);
    MulMono(|s.list|, capacity, limit);
  }

  lemma MulMono(a: nat, b: nat, c: nat)
    requires a <= b
    ensures a * c <= b * c
  {
    assert b * c == a * c + (b - a) * c;
  }

  lemma {:induction false} EvictConfig(s: Lru, memory: nat)
    ensures Evict(s, memory).capacity == s.capacity && Evict(s, memory).memoryLimit == s.memoryLimit
    decreases |s.list|
  {
    if MustEvict(s, memory) && |s.list| > 0 {
      var last := s.list[|s.list| - 1];
      EvictConfig(s.(list := s.list[..|s.list| - 1], memoryUsage := s.memoryUsage - Cost(last.key, last.value)),
          memory);
    }
  }

  lemma {:induction false} BatchConfig(s: Lru, items: seq<Entry>, keys: seq<string>)
    ensures PutMulti(s, items).capacity == s.capacity && PutMulti(s, items).memoryLimit == s.memoryLimit
    ensures GetMulti(s, keys).0.capacity == s.capacity && GetMulti(s, keys).0.memoryLimit == s.memoryLimit
    ensures DeleteMulti(s, keys).0.capacity == s.capacity && DeleteMulti(s, keys).0.memoryLimit == s.memoryLimit
    decreases |items| + |keys|
  {
    if items != [] {
      var n := |items| - 1;
      BatchConfig(s, items[..n], []);
      EvictConfig(PutMulti(s, items[..n]), Cost(items[n].key, items[n].value));
    }
    if keys != [] {
      BatchConfig(s, [], keys[..|keys| - 1]);
    }
  }

  lemma {:induction false} ConfigKept(s: Lru, ops: seq<Op>)
    ensures Run(s, ops).capacity == s.capacity && Run(s, ops).memoryLimit == s.memoryLimit
  {
    hide Lookup, Drop, Evict;
    if ops != [] {
      var t := Run(s, ops[..|ops| - 1]);
      ConfigKept(s, ops[..|ops| - 1]);
      match ops[|ops| - 1]
      case PutOp(k, v) => EvictConfig(t, Cost(k, v));
      case PutTtlOp(k, v, d) => EvictConfig(t, Cost(k, v));
      case PutMultiOp(items) => BatchConfig(t, items, []);
      case GetMultiOp(keys) => BatchConfig(t, [], keys);
      case DeleteMultiOp(keys) => BatchConfig(t, [], keys);
      case _ =>
    }
  }

  /** When a Set ends within the limit: a refused one leaves things as they were, a new key always
      does, and an overwrite only if the new value fits next to the other entries: the update branch
      never evicts. */
  lemma {:induction false} LimitAfterPut(s: Lru, key: string, value: string)
    requires Limited(s)
    ensures Put(s, key, value).memoryUsage <= s.memoryLimit <==>
              if Cost(key, value) > s.memoryLimit then s.memoryUsage <= s.memoryLimit
              else key in Keys(s.list) ==> Total(Drop(s.list, {key})) + Cost(key, value) <= s.memoryLimit
  {
    PutLimited(s, key, value);
    DropOneSound(s, key);
  }

  /** Two one-letter keys fill a 130-byte cache; growing one of them overshoots it. */
  lemma LimitOvershoot()
    ensures var s := Run(Empty(2, 130), [PutOp("a", ""), PutOp("b", ""), PutOp("a", "x")]);
            s.memoryUsage == 131 > s.memoryLimit
  {
    var e := Empty(2, 130);
    var a, ba := [Entry("a", "")], [Entry("b", ""), Entry("a", "")];
    assert Put(e, "a", "") == e.(list := a, memoryUsage := 65);
    assert Put(e.(list := a, memoryUsage := 65), "b", "") == e.(list := ba, memoryUsage := 130);
    assert ba[1..] == a && Lookup(ba, "a") == Some("");
    assert Put(e.(list := ba, memoryUsage := 130), "a", "x").memoryUsage == 131;
    var ops := [PutOp("a", ""), PutOp("b", ""), PutOp("a", "x")];
    assert ops[..2][..1] == [PutOp("a", "")] && [PutOp("a", "")][..0] == [];
    assert Run(e, [PutOp("a", "")]) == e.(list := a, memoryUsage := 65);
    assert Run(e, ops[..2]) == e.(list := ba, memoryUsage := 130);
  }
}
