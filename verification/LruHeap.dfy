/** core/lrucache.go on the heap: a doubly linked list between two sentinels next to a hash
    map, refining the recency list of LruSpec. */
module LruHeap {
  import opened Wrappers
  import opened LruSpec

  class LruNode {
    const key: string
    var value: string
    var prev: LruNode?
    var next: LruNode?

    constructor (key: string, value: string)
      ensures this.key == key && this.value == value
    {
      this.key, this.value := key, value;
    }
  }

  class LruCache {
    const capacity: nat
    const memoryLimit: int
    const hasTtl: bool  // whether the constructor made a TTL map
    const head: LruNode
    const tail: LruNode
    var size: int
    var cache: map<string, LruNode>
    var ttlMap: map<string, int>
    var memoryUsage: int
    var stats: Stats
    var cleanups: Cleanups

    ghost var chain: seq<LruNode>  // every node from head to tail, sentinels included
    ghost var list: seq<Entry>     // what the inner nodes hold, most recent first
    ghost var Repr: set<object>

    // ----- The invariant -----

    ghost predicate LinkedAt(i: nat)
      reads this`chain, chain`prev, chain`next
    {
      i + 1 < |chain| && chain[i].next == chain[i + 1] && chain[i + 1].prev == chain[i]
    }

    /** prev and next are inverse along the chain, which visits no node twice. */
    ghost predicate Linked()
      reads this`chain, chain`prev, chain`next
    {
      && |chain| >= 2 && chain[0] == head && chain[|chain| - 1] == tail
      && NoRepeat(chain)
      && forall i :: 0 <= i < |chain| - 1 ==> LinkedAt(i)
    }

    ghost predicate InRepr()
      reads this`chain, this`Repr
    {
      && this in Repr && head in Repr && tail in Repr
      && (forall i :: 0 <= i < |chain| ==> chain[i] in Repr)
    }

    /** The list says what each inner node holds, and the map finds the node by its key. */
    ghost predicate IndexedAt(i: nat)
      reads this`list, this`chain, this`cache, chain`value
    {
      && i < |list| && |chain| == |list| + 2
      && list[i] == Entry(chain[i + 1].key, chain[i + 1].value)
      && list[i].key in cache && cache[list[i].key] == chain[i + 1]
    }

    ghost predicate Indexed()
      reads this`list, this`chain, this`cache, chain`value
    {
      && |chain| == |list| + 2
      && forall i :: 0 <= i < |list| ==> IndexedAt(i)
    }

    ghost predicate Valid()
      reads this, Repr
      ensures Valid() ==> this in Repr
    {
      && InRepr()
      && Linked()
      && Indexed()
      && 0 < capacity
      && |cache| == size == |list| <= capacity
      && (!hasTtl ==> ttlMap == map[])
    }

    ghost function State(): Lru
      reads this
    {
      Lru(capacity, memoryLimit, list, memoryUsage, ttlMap, stats, cleanups)
    }

    /** The map's nodes are exactly the inner nodes: the counts leave no room for another. */
    lemma MapIsList()
      requires Valid()
      ensures Distinct(list) && Keys(list) == cache.Keys
    {
      forall i, j | 0 <= i < j < |list| ensures list[i].key != list[j].key {
        assert IndexedAt(i) && IndexedAt(j) && Apart(chain, i + 1, j + 1);
      }
      KeysCount(list);
      forall i | 0 <= i < |list| ensures list[i].key in cache {
        assert IndexedAt(i);
      }
      assert Keys(list) <= cache.Keys;
      SubsetSameSize(Keys(list), cache.Keys);
    }

    /** The hash map answers exactly what a scan of the recency list would. */
    lemma Find(key: string)
      requires Valid()
      ensures Lookup(list, key) == if key in cache then Some(cache[key].value) else None
      ensures key in Keys(list) <==> key in cache
      ensures key in cache ==> cache[key] in Repr
    {
      MapIsList();
      if key in cache {
        var i := Locate(key);
        LookupAt(list, i);
      }
    }

    lemma Locate(key: string) returns (i: nat)
      requires Valid() && key in cache
      ensures i < |list| && list[i].key == key == cache[key].key && chain[i + 1] == cache[key]
      ensures IndexedAt(i)
      ensures Drop(list, {key}) == list[..i] + list[i + 1..]
    {
      MapIsList();
      var e :| e in list && e.key == key;
      i :| 0 <= i < |list| && list[i] == e;
      assert IndexedAt(i);
      DropAt(list, i);
    }

    /** Walking next from head visits exactly the map's nodes before it meets tail, and every
        step is undone by prev. */
    lemma ChainIsMap()
      requires Valid()
      ensures forall n :: n in chain[1..|chain| - 1] <==> n in cache.Values
      ensures forall i :: 0 <= i < |chain| - 1 ==> chain[i].next == chain[i + 1] && chain[i + 1].prev == chain[i]
    {
      var inner := chain[1..|chain| - 1];
      forall n | n in inner ensures n in cache.Values {
        var i :| 0 <= i < |inner| && inner[i] == n;
        assert IndexedAt(i);
      }
      forall n | n in cache.Values ensures n in inner {
        var key :| key in cache && cache[key] == n;
        var i := Locate(key);
        assert inner[i] == n;
      }
      forall i | 0 <= i < |chain| - 1
        ensures chain[i].next == chain[i + 1] && chain[i + 1].prev == chain[i]
      {
        assert LinkedAt(i);
      }
    }

    // ----- Constructors -----

    constructor (capacity: int, memoryLimit: int, hasTtl: bool)
      requires 0 < capacity
      ensures Valid() && fresh(Repr)
      ensures State() == Empty(capacity, memoryLimit)
      ensures this.hasTtl == hasTtl
    {
      this.capacity, this.memoryLimit, this.hasTtl := capacity, memoryLimit, hasTtl;
      var h := new LruNode("", "");
      var t := new LruNode("", "");
      head, tail := h, t;
      size, memoryUsage := 0, 0;
      cache, ttlMap := map[], map[];
      stats, cleanups := Stats(0, 0, 0), Cleanups(0, 0, 0);
      chain, list := [h, t], [];
      new;
      head.next := tail;
      tail.prev := head;
      Repr := {this, head, tail};
    }

    // ----- List primitives -----

    method AddToHead(node: LruNode)
      requires InRepr() && Linked() && node !in chain
      modifies this`chain, this`Repr, node`prev, node`next, chain`prev, chain`next
      ensures InRepr() && Linked() && Repr == old(Repr) + {node}
      ensures chain == [head, node] + old(chain[1..])
    {
      node.prev := head;
      node.next := head.next;
      assert LinkedAt(0);
      head.next.prev := node;
      head.next := node;
      chain := [head, node] + chain[1..];
      Repr := Repr + {node};
      PushApart(old(chain), node);
      forall i | 0 <= i < |chain| - 1 ensures LinkedAt(i) {
        if i >= 2 {
          assert old(LinkedAt(i - 1)) && Apart(old(chain), 0, i - 1) && Apart(old(chain), 1, i);
        }
      }
    }

    method RemoveNode(node: LruNode, ghost at: nat)
      requires InRepr() && Linked() && 1 <= at < |chain| - 1 && chain[at] == node
      modifies this`chain, chain`prev, chain`next
      ensures InRepr() && Linked()
      ensures chain == old(chain[..at]) + old(chain[at + 1..])
    {
      assert LinkedAt(at - 1) && LinkedAt(at) && Apart(chain, at - 1, at) && Apart(chain, at, at + 1);
      node.prev.next := node.next;
      node.next.prev := node.prev;
      chain := chain[..at] + chain[at + 1..];
      CutApart(old(chain), at);
      forall i | 0 <= i < |chain| - 1 ensures LinkedAt(i) {
        if i < at - 1 {
          assert old(LinkedAt(i)) && Apart(old(chain), i, at - 1) && Apart(old(chain), i + 1, at + 1);
        } else if i >= at {
          assert old(LinkedAt(i + 1)) && Apart(old(chain), at - 1, i + 1) && Apart(old(chain), at + 1, i + 2);
        }
      }
    }

    method MoveToHead(node: LruNode, ghost at: nat)
      requires InRepr() && Linked() && 1 <= at < |chain| - 1 && chain[at] == node
      modifies this`chain, this`Repr, chain`prev, chain`next
      ensures InRepr() && Linked() && Repr == old(Repr)
      ensures chain == [head, node] + old(chain[1..at]) + old(chain[at + 1..])
    {
      forall j | 0 <= j < |chain| && j != at ensures chain[j] != node {
        assert Apart(chain, if j < at then j else at, if j < at then at else j);
      }
      RemoveNode(node, at);
      AddToHead(node);
    }

    method RemoveTail() returns (last: LruNode)
      requires InRepr() && Linked() && |chain| > 2
      modifies this`chain, chain`prev, chain`next
      ensures InRepr() && Linked()
      ensures last == old(chain[|chain| - 2])
      ensures chain == old(chain[..|chain| - 2]) + old(chain[|chain| - 1..])
    {
      assert LinkedAt(|chain| - 2);
      last := tail.prev;
      RemoveNode(last, |chain| - 2);
    }

    /** Takes `key` out of the list and the map; Get, Delete, DeleteMulti and the cleanup
        all do exactly this. */
    method Unlink(key: string)
      requires Valid() && key in cache
      modifies this`chain, this`list, this`cache, this`size, chain`prev, chain`next
      ensures Valid()
      ensures list == Drop(old(list), {key})
      ensures cache == old(cache) - {key}
    {
      hide NoRepeat;
      ghost var at := Locate(key);
      MapMinus(cache, key);
      RemoveNode(cache[key], at + 1);
      cache := cache - {key};
      size := size - 1;
      list := list[..at] + list[at + 1..];
      IndexedCut(at);
    }

    /** Unlink, with the entry's memory given back. */
    method Discard(key: string)
      requires Valid() && key in cache
      modifies this`chain, this`list, this`cache, this`size, this`memoryUsage, chain`prev, chain`next
      ensures Valid()
      ensures list == Drop(old(list), {key})
      ensures memoryUsage == old(memoryUsage) - Cost(key, old(cache[key].value))
    {
      memoryUsage := memoryUsage - Cost(key, cache[key].value);
      Unlink(key);
    }

    /** moveToHead, after the value was possibly overwritten with `value`. */
    method Promote(key: string, value: string)
      requires Valid() && key in cache
      modifies this`chain, this`list, this`Repr, chain`prev, chain`next, {cache[key]}`value
      ensures Valid() && Repr == old(Repr)
      ensures list == [Entry(key, value)] + Drop(old(list), {key})
    {
      ghost var at := Locate(key);
      var node := cache[key];
      node.value := value;
      MoveToHead(node, at + 1);
      list := [Entry(key, value)] + (list[..at] + list[at + 1..]);
      forall i | 0 <= i < |list| ensures IndexedAt(i) {
        if 0 < i <= at {
          assert old(IndexedAt(i - 1)) && chain[i + 1] == old(chain)[i] && Apart(old(chain), i, at + 1);
        } else if at < i {
          assert old(IndexedAt(i)) && chain[i + 1] == old(chain)[i + 1] && Apart(old(chain), at + 1, i + 1);
        }
      }
    }

    // ----- Writing -----

    method SetInternal(key: string, value: string)
      requires Valid()
      modifies Repr
      ensures Valid() && fresh(Repr - old(Repr))
      ensures State() == Put(old(State()), key, value)
    {
      var newMemory := |key| + |value| + 64;
      if memoryLimit > 0 && newMemory > memoryLimit {
        return;
      }
      hide Valid, Put;
      if key in cache {
        Overwrite(key, value, newMemory);
      } else {
        Append(key, value, newMemory);
      }
    }

    method Append(key: string, value: string, newMemory: nat)
      requires Valid() && key !in cache && newMemory == Cost(key, value)
      requires memoryLimit > 0 ==> newMemory <= memoryLimit
      modifies Repr
      ensures Valid() && fresh(Repr - old(Repr))
      ensures State() == Put(old(State()), key, value)
    {
      hide Drop, Lookup, Evict;
      Find(key);
      MakeRoom(newMemory);
      Insert(key, value);
      memoryUsage := memoryUsage + newMemory;
    }

    method Overwrite(key: string, value: string, newMemory: nat)
      requires Valid() && key in cache && newMemory == Cost(key, value)
      requires memoryLimit > 0 ==> newMemory <= memoryLimit
      modifies Repr
      ensures Valid() && fresh(Repr - old(Repr))
      ensures State() == Put(old(State()), key, value)
    {
      hide Drop, Lookup, Evict;
      Find(key);
      memoryUsage := memoryUsage - Cost(key, cache[key].value) + newMemory;
      Promote(key, value);
    }

    /** A new node at the head, in the list and in the map. */
    method Insert(key: string, value: string)
      requires Valid() && key !in cache && size < capacity
      modifies this`chain, this`list, this`cache, this`size, this`Repr, chain`prev, chain`next
      ensures Valid() && fresh(Repr - old(Repr))
      ensures list == [Entry(key, value)] + old(list)
    {
      hide NoRepeat;
      var node := new LruNode(key, value);
      AddToHead(node);
      cache := cache[key := node];
      size := size + 1;
      list := [Entry(key, value)] + list;
      IndexedFront(node);
    }

    twostate lemma IndexedFront(new node: LruNode)
      requires old(Indexed()) && |old(chain)| >= 2 && chain == [head, node] + old(chain)[1..]
      requires list == [Entry(node.key, node.value)] + old(list)
      requires node.key !in old(cache) && cache == old(cache)[node.key := node]
      requires forall n :: n in old(chain) ==> n.value == old(n.value)
      ensures Indexed()
    {
      forall i | 0 <= i < |list| ensures IndexedAt(i) {
        assert i > 0 ==> old(IndexedAt(i - 1));
      }
    }

    /** The eviction loop for a new entry of cost `newMemory`. */
    method MakeRoom(newMemory: nat)
      requires Valid()
      modifies Repr
      ensures Valid() && Repr == old(Repr) && size < capacity
      ensures State() == Evict(old(State()), newMemory)
      ensures cache.Keys <= old(cache.Keys)
    {
      hide Evict;
      while (memoryLimit > 0 && memoryUsage + newMemory > memoryLimit && size > 0) || size >= capacity
        invariant Valid() && Repr == old(Repr)
        invariant Evict(State(), newMemory) == Evict(old(State()), newMemory)
        invariant cache.Keys <= old(cache.Keys)
        decreases size
      {
        if size == 0 {
          break;
        }
        EvictNext(State(), newMemory);
        EvictLast();
      }
      EvictDone(State(), newMemory);
    }

    method EvictLast()
      requires Valid() && size > 0
      modifies this`chain, this`list, this`cache, this`size, this`memoryUsage, chain`prev, chain`next
      ensures Valid() && size == old(size) - 1 && cache.Keys <= old(cache.Keys)
      ensures list == old(list)[..|old(list)| - 1]
      ensures var last := old(list)[|old(list)| - 1]; memoryUsage == old(memoryUsage) - Cost(last.key, last.value)
    {
      hide Linked, InRepr, NoRepeat;
      ChainApart();
      assert IndexedAt(size - 1);
      var last := RemoveTail();
      memoryUsage := memoryUsage - Cost(last.key, last.value);
      MapMinus(cache, last.key);
      cache := cache - {last.key};
      size := size - 1;
      list := list[..|list| - 1];
      IndexedCut(|list|);
    }

    lemma ChainApart()
      requires Linked()
      ensures NoRepeat(chain) && |chain| >= 2
    {
    }

    /** Cutting entry `at` out of chain, list and map leaves the others indexed. */
    twostate lemma IndexedCut(at: nat)
      requires old(Indexed()) && NoRepeat(old(chain)) && at < |old(list)|
      requires chain == old(chain)[..at + 1] + old(chain)[at + 2..] && list == old(list)[..at] + old(list)[at + 1..]
      requires cache == old(cache) - {old(list)[at].key}
      requires forall n :: n in old(chain) ==> n.value == old(n.value)
      ensures Indexed()
    {
      assert old(IndexedAt(at));
      forall i | 0 <= i < |list| ensures IndexedAt(i) {
        if i < at {
          assert old(IndexedAt(i)) && Apart(old(chain), i + 1, at + 1);
        } else {
          assert old(IndexedAt(i + 1)) && Apart(old(chain), at + 1, i + 2);
        }
      }
    }

    method Set(key: string, value: string)
      requires Valid()
      modifies Repr
      ensures Valid() && fresh(Repr - old(Repr))
      ensures State() == Put(old(State()), key, value)
    {
      SetInternal(key, value);
    }

    /** Writing the deadline into a nil map panics: only the cleanup constructor makes one. */
    method SetWithTTL(key: string, value: string, now: int, ttl: int)
      requires Valid() && hasTtl
      modifies Repr
      ensures Valid() && fresh(Repr - old(Repr))
      ensures State() == PutTtl(old(State()), key, value, now + ttl)
    {
      SetInternal(key, value);
      ttlMap := ttlMap[key := now + ttl];
    }

    // ----- Reading -----

    method Get(key: string, now: int) returns (r: Option<string>)
      requires Valid()
      modifies Repr
      ensures Valid() && fresh(Repr - old(Repr))
      ensures (State(), r) == Fetch(old(State()), key, now)
    {
      hide Drop, Lookup;
      Find(key);
      ghost var goal := Fetch(State(), key, now);
      stats := stats.(total := stats.total + 1);
      if key !in cache {
        stats := stats.(misses := stats.misses + 1);
        return None;
      }
      if key in ttlMap && now > ttlMap[key] {
        DropExpired(key);
        return None;
      }
      stats := stats.(hits := stats.hits + 1);
      r := Some(cache[key].value);
      Promote(key, cache[key].value);
      assert goal == (State(), r);
    }

    method DropExpired(key: string)
      requires Valid() && key in cache
      modifies this`chain, this`list, this`cache, this`size, this`ttlMap, this`stats, chain`prev, chain`next
      ensures Valid()
      ensures list == Drop(old(list), {key}) && ttlMap == old(ttlMap) - {key}
      ensures stats == old(stats).(misses := old(stats).misses + 1)
    {
      Unlink(key);
      ttlMap := ttlMap - {key};
      stats := stats.(misses := stats.misses + 1);
    }

    // ----- Deleting -----

    method Delete(key: string) returns (deleted: bool)
      requires Valid()
      modifies Repr
      ensures Valid() && fresh(Repr - old(Repr))
      ensures State() == LruSpec.Delete(old(State()), key)
      ensures deleted <==> key in Keys(old(State()).list)
    {
      hide Drop, Lookup;
      Find(key);
      ghost var goal := LruSpec.Delete(State(), key);
      if key in cache {
        Discard(key);
        ttlMap := ttlMap - {key};
        assert State() == goal;
        return true;
      }
      return false;
    }

    // ----- Batches -----

    /** Ranging over a Go map visits its entries in any order; `order` is the one taken. */
    method SetMulti(data: map<string, string>) returns (ghost order: seq<Entry>)
      requires Valid()
      modifies Repr
      ensures Valid() && fresh(Repr - old(Repr))
      ensures IsOrder(order, data)
      ensures State() == PutMulti(old(State()), order)
    {
      order := [];
      var remaining := data.Keys;
      while remaining != {}
        invariant Valid() && fresh(Repr - old(Repr))
        invariant remaining <= data.Keys && IsOrder(order, data - remaining)
        invariant State() == PutMulti(old(State()), order)
        decreases remaining
      {
        var key :| key in remaining;
        SetInternal(key, data[key]);
        OrderStep(order, data, remaining, key);
        remaining := remaining - {key};
        order := order + [Entry(key, data[key])];
      }
      assert data - {} == data;
    }

    method GetMulti(keys: seq<string>) returns (results: map<string, string>)
      requires Valid()
      modifies Repr
      ensures Valid() && fresh(Repr - old(Repr))
      ensures (State(), results) == LruSpec.GetMulti(old(State()), keys)
    {
      results := map[];
      for i := 0 to |keys|
        invariant Valid() && fresh(Repr - old(Repr))
        invariant (State(), results) == LruSpec.GetMulti(old(State()), keys[..i])
      {
        assert keys[..i + 1][..i] == keys[..i];
        var r := FetchOne(keys[i]);
        if r.Some? {
          results := results[keys[i] := r.value];
        }
      }
      assert keys[..|keys|] == keys;
    }

    method FetchOne(key: string) returns (r: Option<string>)
      requires Valid()
      modifies Repr
      ensures Valid() && fresh(Repr - old(Repr))
      ensures (State(), r) == FetchRaw(old(State()), key)
    {
      hide Drop, Lookup;
      Find(key);
      ghost var goal := FetchRaw(State(), key);
      stats := stats.(total := stats.total + 1);
      if key in cache {
        stats := stats.(hits := stats.hits + 1);
        r := Some(cache[key].value);
        Promote(key, cache[key].value);
        assert goal == (State(), r);
      } else {
        stats := stats.(misses := stats.misses + 1);
        r := None;
      }
    }

    method DeleteMulti(keys: seq<string>) returns (count: nat)
      requires Valid()
      modifies Repr
      ensures Valid() && fresh(Repr - old(Repr))
      ensures (State(), count) == LruSpec.DeleteMulti(old(State()), keys)
    {
      count := 0;
      for i := 0 to |keys|
        invariant Valid() && fresh(Repr - old(Repr))
        invariant (State(), count) == LruSpec.DeleteMulti(old(State()), keys[..i])
      {
        assert keys[..i + 1][..i] == keys[..i];
        var deleted := Delete(keys[i]);
        if deleted {
          count := count + 1;
        }
      }
      assert keys[..|keys|] == keys;
    }

    // ----- Expiry -----

    /** The TTL map is visited in any order; the outcome does not depend on it. */
    method CleanupExpiredKeys(now: int)
      requires Valid()
      modifies Repr
      ensures Valid() && Repr == old(Repr)
      ensures State() == Cleanup(old(State()), now)
    {
      ghost var start := State();
      assert State() == Sweep(start, {}) by { DropAbsent(list, {}); }
      var cleaned := 0;
      var remaining := ttlMap.Keys;
      ghost var gone: set<string> := {};
      while remaining != {}
        invariant Valid() && Repr == old(Repr) && remaining <= start.ttl.Keys
        invariant forall k :: k in gone <==> k in start.ttl && k !in remaining && now > start.ttl[k]
        invariant State() == Sweep(start, gone) && cleaned == |gone|
        decreases remaining
      {
        var key :| key in remaining;
        remaining := remaining - {key};
        assert ttlMap[key] == start.ttl[key];
        if now > ttlMap[key] {
          SweepOne(key, start, gone);
          gone := gone + {key};
          cleaned := cleaned + 1;
        }
      }
      assert gone == ExpiredKeys(start.ttl, now);
      cleanups := Cleanups(cleanups.keys + cleaned, cleanups.runs + 1, now);
    }

    method ExpireOne(key: string)
      requires Valid()
      modifies Repr
      ensures Valid() && Repr == old(Repr)
      ensures list == Drop(old(list), {key})
      ensures memoryUsage == old(memoryUsage) - old(match Lookup(list, key) case Some(v) => Cost(key, v) case None => 0)
      ensures ttlMap == old(ttlMap) - {key} && stats == old(stats) && cleanups == old(cleanups)
    {
      Find(key);
      if key in cache {
        Discard(key);
      } else {
        DropAbsent(list, {key});
      }
      ttlMap := ttlMap - {key};
    }

    method SweepOne(key: string, ghost start: Lru, ghost gone: set<string>)
      requires Valid() && key !in gone && State() == Sweep(start, gone)
      modifies Repr
      ensures Valid() && Repr == old(Repr)
      ensures State() == Sweep(start, gone + {key})
    {
      MapIsList();
      SweepStep(start, gone, key);
      ExpireOne(key);
    }

    /** The data handed to migration; recency and counters are left alone. */
    method GetAllData(now: int) returns (result: map<string, string>)
      requires Valid()
      ensures result == Live(State(), now)
    {
      result := map[];
      var remaining := cache.Keys;
      while remaining != {}
        invariant remaining <= cache.Keys
        invariant result == map k | k in cache.Keys - remaining && !Expired(ttlMap, k, now) :: cache[k].value
        decreases remaining
      {
        var key :| key in remaining;
        remaining := remaining - {key};
        if !(key in ttlMap && now > ttlMap[key]) {
          result := result[key := cache[key].value];
        }
      }
      forall k ensures k in cache <==> k in Keys(list)
               ensures k in cache ==> Lookup(list, k) == Some(cache[k].value) {
        Find(k);
      }
    }
  }

  predicate Apart(s: seq<LruNode>, i: nat, j: nat) {
    i < |s| && j < |s| && s[i] != s[j]
  }

  /** Stated through Apart so that only the pairs a proof names are looked at. */
  ghost predicate NoRepeat(s: seq<LruNode>) {
    forall i, j :: 0 <= i < j < |s| ==> Apart(s, i, j)
  }

  lemma CutApart(s: seq<LruNode>, at: nat)
    requires NoRepeat(s) && at < |s|
    ensures NoRepeat(s[..at] + s[at + 1..])
  {
    var t := s[..at] + s[at + 1..];
    forall i, j | 0 <= i < j < |t| ensures Apart(t, i, j) {
      assert Apart(s, if i < at then i else i + 1, if j < at then j else j + 1);
    }
  }

  lemma PushApart(s: seq<LruNode>, node: LruNode)
    requires NoRepeat(s) && |s| >= 1 && node !in s
    ensures NoRepeat([s[0], node] + s[1..])
  {
    var t := [s[0], node] + s[1..];
    forall i, j | 0 <= i < j < |t| ensures Apart(t, i, j) {
      if i != 1 && j != 1 {
        assert Apart(s, if i == 0 then 0 else i - 1, j - 1);
      }
    }
  }

  lemma {:induction false} SubsetSameSize<T>(a: set<T>, b: set<T>)
    requires a <= b && |a| == |b|
    ensures a == b
  {
    assert |b - a| == |b| - |a|;
  }

  lemma MapMinus<K, V>(m: map<K, V>, key: K)
    requires key in m
    ensures |m - {key}| == |m| - 1
  {
    assert (m - {key}).Keys == m.Keys - {key};
    assert |m.Keys| == |m| && |(m - {key}).Keys| == |m - {key}|;
  }
}
