/** The LRU store of core/lrucache.go as a value: the entries from most to least recently
    used, next to the counters the source keeps. Every operation is a function from store to
    store; class LruCache implements them on the linked list. */
module LruSpec {
  import opened Wrappers

  datatype Entry = Entry(key: string, value: string)

  datatype Stats = Stats(hits: nat, misses: nat, total: nat)

  datatype Cleanups = Cleanups(keys: nat, runs: nat, last: int)

  datatype Lru = Lru(capacity: nat, memoryLimit: int, list: seq<Entry>, memoryUsage: int,
                     ttl: map<string, int>, stats: Stats, cleanups: Cleanups)

  // ----- Recency lists -----

  function Keys(list: seq<Entry>): set<string> {
    set e | e in list :: e.key
  }

  ghost predicate Distinct(list: seq<Entry>) {
    forall i, j :: 0 <= i < j < |list| ==> list[i].key != list[j].key
  }

  function Lookup(list: seq<Entry>, key: string): (r: Option<string>)
    ensures r.Some? ==> Entry(key, r.value) in list
    ensures r.None? <==> key !in Keys(list)
  {
    if list == [] then None
    else if list[0].key == key then Some(list[0].value)
    else Lookup(list[1..], key)
  }

  /** The list without the entries whose key is in `keys`, order kept. */
  function Drop(list: seq<Entry>, keys: set<string>): (r: seq<Entry>)
    ensures |r| <= |list|
  {
    if list == [] then []
    else if list[0].key in keys then Drop(list[1..], keys)
    else [list[0]] + Drop(list[1..], keys)
  }

  /** What calculateMemoryUsage charges for an entry. */
  function Cost(key: string, value: string): nat {
    |key| + |value| + 64
  }

  function Total(list: seq<Entry>): nat {
    if list == [] then 0 else Cost(list[0].key, list[0].value) + Total(list[1..])
  }

  // ----- Operations -----

  function Empty(capacity: nat, memoryLimit: int): Lru {
    Lru(capacity, memoryLimit, [], 0, map[], Stats(0, 0, 0), Cleanups(0, 0, 0))
  }

  predicate Expired(ttl: map<string, int>, key: string, now: int) {
    key in ttl && now > ttl[key]
  }

  /** The guard of the eviction loop for a new entry of cost `memory`. */
  predicate MustEvict(s: Lru, memory: nat) {
    || (s.memoryLimit > 0 && s.memoryUsage + memory > s.memoryLimit && |s.list| > 0)
    || |s.list| >= s.capacity
  }

  /** Drops least-recent entries until the guard fails or nothing is left. */
  function Evict(s: Lru, memory: nat): Lru
    decreases |s.list|
  {
    if MustEvict(s, memory) && |s.list| > 0 then
      var last := s.list[|s.list| - 1];
      Evict(s.(list := s.list[..|s.list| - 1],
               memoryUsage := s.memoryUsage - Cost(last.key, last.value)), memory)
    else
      s
  }

  function Put(s: Lru, key: string, value: string): Lru {
    var memory := Cost(key, value);
    if s.memoryLimit > 0 && memory > s.memoryLimit then s
    else match Lookup(s.list, key)
      case Some(previous) =>
        s.(list := [Entry(key, value)] + Drop(s.list, {key}),
           memoryUsage := s.memoryUsage - Cost(key, previous) + memory)
      case None =>
        var e := Evict(s, memory);
        e.(list := [Entry(key, value)] + e.list, memoryUsage := e.memoryUsage + memory)
  }

  function PutTtl(s: Lru, key: string, value: string, deadline: int): Lru {
    var t := Put(s, key, value);
    t.(ttl := t.ttl[key := deadline])
  }

  function Hit(s: Lru, key: string, value: string): Lru {
    s.(list := [Entry(key, value)] + Drop(s.list, {key}),
       stats := Stats(s.stats.hits + 1, s.stats.misses, s.stats.total + 1))
  }

  function Miss(s: Lru): Lru {
    s.(stats := Stats(s.stats.hits, s.stats.misses + 1, s.stats.total + 1))
  }

  function Fetch(s: Lru, key: string, now: int): (Lru, Option<string>) {
    match Lookup(s.list, key)
    case None => (Miss(s), None)
    case Some(value) =>
      if Expired(s.ttl, key, now) then
        (Miss(s).(list := Drop(s.list, {key}), ttl := s.ttl - {key}), None)
      else
        (Hit(s, key, value), Some(value))
  }

  function Delete(s: Lru, key: string): Lru {
    match Lookup(s.list, key)
    case None => s
    case Some(value) =>
      s.(list := Drop(s.list, {key}), memoryUsage := s.memoryUsage - Cost(key, value), ttl := s.ttl - {key})
  }

  function PutMulti(s: Lru, items: seq<Entry>): Lru {
    if items == [] then s
    else
      var n := |items| - 1;
      Put(PutMulti(s, items[..n]), items[n].key, items[n].value)
  }

  /** `order` is one order in which ranging over the map `data` may visit its entries. */
  ghost predicate IsOrder(order: seq<Entry>, data: map<string, string>) {
    && Distinct(order)
    && Keys(order) == data.Keys
    && forall e :: e in order ==> e.key in data && data[e.key] == e.value
  }

  /** One key of GetMulti: it never looks at the TTL map. */
  function FetchRaw(s: Lru, key: string): (Lru, Option<string>) {
    match Lookup(s.list, key)
    case None => (Miss(s), None)
    case Some(value) => (Hit(s, key, value), Some(value))
  }

  function GetMulti(s: Lru, keys: seq<string>): (Lru, map<string, string>) {
    if keys == [] then (s, map[])
    else
      var n := |keys| - 1;
      var (before, found) := GetMulti(s, keys[..n]);
      var (after, r) := FetchRaw(before, keys[n]);
      (after, if r.Some? then found[keys[n] := r.value] else found)
  }

  function DeleteMulti(s: Lru, keys: seq<string>): (Lru, nat) {
    if keys == [] then (s, 0)
    else
      var n := |keys| - 1;
      var (before, count) := DeleteMulti(s, keys[..n]);
      (Delete(before, keys[n]), if keys[n] in Keys(before.list) then count + 1 else count)
  }

  /** The effect of the cleanup loop once the TTL entries in `gone` are handled, in any order. */
  function Sweep(s: Lru, gone: set<string>): Lru {
    s.(list := Drop(s.list, gone),
       memoryUsage := s.memoryUsage - Total(s.list) + Total(Drop(s.list, gone)),
       ttl := s.ttl - gone)
  }

  function ExpiredKeys(ttl: map<string, int>, now: int): set<string> {
    set k | k in ttl && now > ttl[k]
  }

  function Cleanup(s: Lru, now: int): Lru {
    var gone := ExpiredKeys(s.ttl, now);
    Sweep(s, gone).(cleanups := Cleanups(s.cleanups.keys + |gone|, s.cleanups.runs + 1, now))
  }

  /** The live data handed to migration. */
  function Live(s: Lru, now: int): map<string, string> {
    map k | k in Keys(s.list) && !Expired(s.ttl, k, now) :: Lookup(s.list, k).value
  }

  /** The stored pairs, whatever their recency. */
  function Data(s: Lru): map<string, string> {
    map k | k in Keys(s.list) :: Lookup(s.list, k).value
  }

  lemma EvictNext(s: Lru, memory: nat)
    requires MustEvict(s, memory) && |s.list| > 0
    ensures var last := s.list[|s.list| - 1];
            Evict(s, memory) == Evict(s.(list := s.list[..|s.list| - 1],
                                         memoryUsage := s.memoryUsage - Cost(last.key, last.value)), memory)
  {
  }

  lemma EvictDone(s: Lru, memory: nat)
    requires MustEvict(s, memory) ==> |s.list| == 0
    ensures Evict(s, memory) == s
  {
  }

  // ----- List lemmas -----

  lemma {:induction false} LookupAt(list: seq<Entry>, i: nat)
    requires Distinct(list) && i < |list|
    ensures Lookup(list, list[i].key) == Some(list[i].value)
  {
    if i > 0 {
      assert Distinct(list[1..]);
      LookupAt(list[1..], i - 1);
    }
  }

  lemma {:induction false} DropIn(list: seq<Entry>, keys: set<string>)
    ensures forall e :: e in Drop(list, keys) <==> e in list && e.key !in keys
  {
    if list != [] {
      DropIn(list[1..], keys);
    }
  }

  lemma {:induction false} DropAbsent(list: seq<Entry>, keys: set<string>)
    requires keys !! Keys(list)
    ensures Drop(list, keys) == list
  {
    if list != [] {
      assert list[0] in list && list[0].key in Keys(list);
      assert Keys(list[1..]) <= Keys(list);
      DropAbsent(list[1..], keys);
    }
  }

  lemma {:induction false} DropAt(list: seq<Entry>, i: nat)
    requires Distinct(list) && i < |list|
    ensures Drop(list, {list[i].key}) == list[..i] + list[i + 1..]
  {
    if i == 0 {
      DropAbsent(list[1..], {list[0].key});
    } else {
      assert Distinct(list[1..]);
      var rest := list[1..];
      DropAt(rest, i - 1);
      assert list[0].key != list[i].key;
      assert rest[..i - 1] + rest[i..] == list[1..i] + list[i + 1..];
      assert list[..i] + list[i + 1..] == [list[0]] + (list[1..i] + list[i + 1..]);
    }
  }

  lemma {:induction false} TotalConcat(a: seq<Entry>, b: seq<Entry>)
    ensures Total(a + b) == Total(a) + Total(b)
  {
    if a == [] {
      assert a + b == b;
    } else {
      assert (a + b)[1..] == a[1..] + b;
      TotalConcat(a[1..], b);
    }
  }

  lemma {:induction false} DropDistinct(list: seq<Entry>, keys: set<string>)
    requires Distinct(list)
    ensures Distinct(Drop(list, keys))
  {
    if list != [] {
      assert Distinct(list[1..]);
      DropDistinct(list[1..], keys);
      DropIn(list[1..], keys);
    }
  }

  lemma {:induction false} DropTwice(list: seq<Entry>, a: set<string>, b: set<string>)
    ensures Drop(Drop(list, a), b) == Drop(list, a + b)
  {
    if list != [] {
      DropTwice(list[1..], a, b);
    }
  }

  lemma {:induction false} LookupDrop(list: seq<Entry>, keys: set<string>, key: string)
    ensures Lookup(Drop(list, keys), key) == if key in keys then None else Lookup(list, key)
  {
    if list != [] {
      LookupDrop(list[1..], keys, key);
    }
  }

  lemma {:induction false} LookupPrefix(list: seq<Entry>, n: nat, key: string)
    requires n <= |list|
    ensures Lookup(list[..n], key).Some? ==> Lookup(list, key) == Lookup(list[..n], key)
  {
    if n > 0 && list[0].key != key {
      assert list[..n][1..] == list[1..][..n - 1];
      LookupPrefix(list[1..], n - 1, key);
    }
  }

  lemma {:induction false} TotalDropOne(list: seq<Entry>, key: string)
    requires Distinct(list)
    ensures Lookup(list, key).Some? ==>
              Total(Drop(list, {key})) + Cost(key, Lookup(list, key).value) == Total(list)
  {
    if key in Keys(list) {
      var i :| 0 <= i < |list| && list[i].key == key;
      LookupAt(list, i);
      DropAt(list, i);
      hide Drop, Lookup, Distinct, Keys;
      assert list == list[..i] + ([list[i]] + list[i + 1..]);
      TotalConcat(list[..i], [list[i]] + list[i + 1..]);
      TotalConcat(list[..i], list[i + 1..]);
    }
  }

  lemma OrderNone(data: map<string, string>)
    ensures IsOrder([], data - data.Keys)
  {
  }

  lemma {:induction false} OrderStep(order: seq<Entry>, data: map<string, string>, rest: set<string>, key: string)
    requires key in rest && rest <= data.Keys && IsOrder(order, data - rest)
    ensures var longer := order + [Entry(key, data[key])];
            longer[..|order|] == order && IsOrder(longer, data - (rest - {key}))
  {
    var longer := order + [Entry(key, data[key])];
    forall i | 0 <= i < |order| ensures longer[i].key != key {
      assert order[i] in order;
    }
    assert Keys(longer) == Keys(order) + {key} by {
      assert longer[|order|] in longer;
      assert forall e :: e in longer <==> e in order || e == longer[|order|];
    }
    assert (data - (rest - {key})).Keys == (data - rest).Keys + {key};
  }

  /** Handling one more expired key is one more step of the sweep. */
  lemma {:induction false} SweepStep(s: Lru, gone: set<string>, key: string)
    requires Distinct(Drop(s.list, gone)) && key !in gone
    ensures Sweep(s, gone + {key}).list == Drop(Sweep(s, gone).list, {key})
    ensures Sweep(s, gone + {key}).memoryUsage == Sweep(s, gone).memoryUsage
              - (match Lookup(Sweep(s, gone).list, key) case Some(v) => Cost(key, v) case None => 0)
    ensures Sweep(s, gone + {key}).ttl == Sweep(s, gone).ttl - {key}
  {
    DropTwice(s.list, gone, {key});
    TotalDropOne(Drop(s.list, gone), key);
    if key !in Keys(Drop(s.list, gone)) {
      DropAbsent(Drop(s.list, gone), {key});
    }
  }

  lemma {:induction false} KeysCount(list: seq<Entry>)
    requires Distinct(list)
    ensures |Keys(list)| == |list|
  {
    if list != [] {
      assert Distinct(list[1..]);
      KeysCount(list[1..]);
      assert Keys(list) == Keys(list[1..]) + {list[0].key};
      assert list[0].key !in Keys(list[1..]);
    }
  }
}
