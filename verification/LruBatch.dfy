/** Batch writes and reads: what SetMulti leaves for every iteration order, and when GetMulti
    agrees with one Get after another. */
module LruBatch {
  import opened Wrappers
  import opened LruSpec
  import opened LruMemory
  import opened LruInclusion

  function Reverse(items: seq<Entry>): (r: seq<Entry>)
    ensures |r| == |items|
  {
    if items == [] then [] else [items[|items| - 1]] + Reverse(items[..|items| - 1])
  }

  lemma {:induction false} ReverseIn(items: seq<Entry>)
    ensures forall e :: e in Reverse(items) <==> e in items
  {
    if items != [] {
      var n := |items| - 1;
      ReverseIn(items[..n]);
      assert items == items[..n] + [items[n]];
    }
  }

  /** Everything ever worth keeping after the batch: the batch reversed, then what it did not
      overwrite. The cache is the front of this list. */
  function Stack(list: seq<Entry>, items: seq<Entry>): seq<Entry> {
    Reverse(items) + Drop(list, Keys(items))
  }

  function Front(list: seq<Entry>, n: nat): seq<Entry> {
    if |list| <= n then list else list[..n]
  }

  lemma {:induction false} DropConcat(a: seq<Entry>, b: seq<Entry>, keys: set<string>)
    ensures Drop(a + b, keys) == Drop(a, keys) + Drop(b, keys)
  {
    if a == [] {
      assert a + b == b;
    } else {
      assert (a + b)[1..] == a[1..] + b;
      DropConcat(a[1..], b, keys);
    }
  }

  lemma {:induction false} StackStep(list: seq<Entry>, items: seq<Entry>, e: Entry)
    requires e.key !in Keys(items)
    ensures Stack(list, items + [e]) == [e] + Drop(Stack(list, items), {e.key})
  {
    var longer := items + [e];
    assert longer[..|items|] == items && longer[|items|] == e;
    assert Keys(longer) == Keys(items) + {e.key} by {
      assert forall x :: x in longer <==> x in items || x == e;
    }
    DropConcat(Reverse(items), Drop(list, Keys(items)), {e.key});
    DropTwice(list, Keys(items), {e.key});
    assert e.key !in Keys(Reverse(items)) by { ReverseIn(items); }
    DropAbsent(Reverse(items), {e.key});
  }

  lemma {:induction false} FrontCut(stack: seq<Entry>, capacity: nat, i: nat, e: Entry)
    requires i < |stack| && 0 < capacity
    ensures var rest := stack[..i] + stack[i + 1..]; var front := Front(stack, capacity);
            Front([e] + rest, capacity) == [e] + (if i < capacity then front[..i] + front[i + 1..]
                                                 else front[..capacity - 1])
  {
  }

  /** One Set turns the front of a recency list into the front of the next one. */
  lemma {:induction false} NextFront(stack: seq<Entry>, capacity: nat, e: Entry)
    requires Distinct(stack) && 0 < capacity
    ensures Next(Front(stack, capacity), capacity, e) == Front([e] + Drop(stack, {e.key}), capacity)
  {
    var front := Front(stack, capacity);
    if e.key in Keys(stack) {
      var i := Position(stack, e.key);
      FrontCut(stack, capacity, i, e);
      if i < capacity {
        assert front[i] in front;
        DropAt(front, i);
      } else {
        NotInFront(stack, capacity, i);
      }
    } else {
      DropAbsent(stack, {e.key});
      assert e.key !in Keys(front) by {
        assert forall x :: x in front ==> x in stack;
      }
    }
  }

  lemma {:induction false} Position(stack: seq<Entry>, key: string) returns (i: nat)
    requires Distinct(stack) && key in Keys(stack)
    ensures i < |stack| && stack[i].key == key
    ensures Drop(stack, {key}) == stack[..i] + stack[i + 1..]
  {
    var x :| x in stack && x.key == key;
    i :| 0 <= i < |stack| && stack[i] == x;
    DropAt(stack, i);
  }

  lemma {:induction false} NotInFront(stack: seq<Entry>, capacity: nat, i: nat)
    requires Distinct(stack) && capacity <= i < |stack|
    ensures stack[i].key !in Keys(stack[..capacity])
  {
  }

  lemma {:induction false} StackEmpty(list: seq<Entry>)
    ensures Stack(list, []) == list
  {
    assert Keys([]) == {};
    DropAbsent(list, {});
  }

  lemma {:induction false} StackDistinct(list: seq<Entry>, items: seq<Entry>)
    requires Distinct(list) && Distinct(items)
    ensures Distinct(Stack(list, items))
  {
    if items == [] {
      StackEmpty(list);
    } else {
      var n := |items| - 1;
      StackDistinct(list, items[..n]);
      assert items == items[..n] + [items[n]];
      assert items[n].key !in Keys(items[..n]);
      StackStep(list, items[..n], items[n]);
      DropDistinct(Stack(list, items[..n]), {items[n].key});
      DropIn(Stack(list, items[..n]), {items[n].key});
      FrontDistinct(Drop(Stack(list, items[..n]), {items[n].key}), items[n].key, items[n].value);
    }
  }

  /** SetMulti leaves exactly the front of the batch's stack, whatever the batch size. */
  lemma {:induction false} SetMultiExact(s: Lru, items: seq<Entry>)
    requires Sound(s) && s.memoryLimit <= 0 && Distinct(items)
    ensures PutMulti(s, items).list == Front(Stack(s.list, items), s.capacity)
  {
    hide Put, Next;
    if items == [] {
      StackEmpty(s.list);
    } else {
      var n := |items| - 1;
      var before := PutMulti(s, items[..n]);
      SetMultiExact(s, items[..n]);
      BatchSound(s, items[..n], []);
      BatchConfig(s, items[..n], []);
      PutPlain(before, items[n].key, items[n].value);
      StackDistinct(s.list, items[..n]);
      NextFront(Stack(s.list, items[..n]), s.capacity, items[n]);
      assert items == items[..n] + [items[n]];
      assert items[n].key !in Keys(items[..n]);
      StackStep(s.list, items[..n], items[n]);
    }
  }

  /** A batch no larger than the cache is stored completely, in every iteration order. */
  lemma {:induction false} SetMultiAnyOrder(s: Lru, data: map<string, string>, order: seq<Entry>, key: string)
    requires Sound(s) && s.memoryLimit <= 0 && IsOrder(order, data)
    requires |data| <= s.capacity && key in data
    ensures Lookup(PutMulti(s, order).list, key) == Some(data[key])
    ensures Reverse(order) <= PutMulti(s, order).list
  {
    KeysCount(order);
    assert |data.Keys| == |data|;
    SetMultiExact(s, order);
    var list := PutMulti(s, order).list;
    assert list[..|data|] == Reverse(order);
    var e :| e in order && e.key == key;
    ReverseIn(order);
    var i :| 0 <= i < |Reverse(order)| && Reverse(order)[i] == e;
    assert list[i] == e;
    BatchSound(s, order, []);
    LookupAt(list, i);
  }

  // ----- GetMulti against one Get after another -----

  function GetEach(s: Lru, keys: seq<string>, now: int): (Lru, map<string, string>) {
    if keys == [] then (s, map[])
    else
      var n := |keys| - 1;
      var (before, found) := GetEach(s, keys[..n], now);
      var (after, r) := Fetch(before, keys[n], now);
      (after, if r.Some? then found[keys[n] := r.value] else found)
  }

  /** No key of the batch is cached past its deadline. */
  ghost predicate NoneExpired(s: Lru, keys: seq<string>, now: int) {
    forall k :: k in keys && k in Keys(s.list) ==> !Expired(s.ttl, k, now)
  }

  lemma {:induction false} GetMultiKeeps(s: Lru, keys: seq<string>)
    ensures var t := GetMulti(s, keys).0; t.ttl == s.ttl && Keys(t.list) == Keys(s.list)
  {
    if keys != [] {
      var n := |keys| - 1;
      GetMultiKeeps(s, keys[..n]);
      var t := GetMulti(s, keys[..n]).0;
      HitKeys(t, keys[n]);
    }
  }

  lemma {:induction false} HitKeys(s: Lru, key: string)
    ensures Keys(FetchRaw(s, key).0.list) == Keys(s.list)
  {
    if Lookup(s.list, key).Some? {
      var v := Lookup(s.list, key).value;
      var list := [Entry(key, v)] + Drop(s.list, {key});
      DropIn(s.list, {key});
      assert list[0] in list;
      forall k ensures k in Keys(list) <==> k in Keys(s.list) {
        if k in Keys(s.list) && k != key {
          var e :| e in s.list && e.key == k;
          assert e in Drop(s.list, {key}) && e in list;
        }
      }
    }
  }

  lemma {:induction false} SameWhenFresh(s: Lru, keys: seq<string>, now: int)
    requires NoneExpired(s, keys, now)
    ensures GetMulti(s, keys) == GetEach(s, keys, now)
  {
    if keys != [] {
      var n := |keys| - 1;
      SameWhenFresh(s, keys[..n], now);
      GetMultiKeeps(s, keys[..n]);
      assert keys[n] in keys;
    }
  }

  /** The single Gets hit no more often, and keep no key that GetMulti lost. */
  lemma {:induction false} FewerHits(s: Lru, keys: seq<string>, now: int)
    ensures var (a, b) := (GetEach(s, keys, now).0, GetMulti(s, keys).0);
            && Keys(a.list) <= Keys(b.list) && a.stats.hits <= b.stats.hits
            && (!NoneExpired(s, keys, now) ==> a.stats.hits < b.stats.hits)
            && forall k :: k in Keys(a.list) && k in s.ttl ==> k in a.ttl && a.ttl[k] == s.ttl[k]
  {
    if keys != [] {
      var n := |keys| - 1;
      FewerHits(s, keys[..n], now);
      var a, b := GetEach(s, keys[..n], now).0, GetMulti(s, keys[..n]).0;
      GetMultiKeeps(s, keys[..n]);
      GetMultiKeeps(s, keys);
      HitKeys(a, keys[n]);
      assert keys == keys[..n] + [keys[n]];
      DropIn(a.list, {keys[n]});
      if !NoneExpired(s, keys, now) && NoneExpired(s, keys[..n], now) {
        SameWhenFresh(s, keys[..n], now);
        assert keys[n] in Keys(s.list) && Expired(s.ttl, keys[n], now);
      }
    }
  }

  /** GetMulti returns the values, recency and statistics of one Get after another exactly when
      no requested key is cached past its deadline; otherwise it serves expired data. */
  lemma {:induction false} GetMultiIffFresh(s: Lru, keys: seq<string>, now: int)
    ensures GetMulti(s, keys) == GetEach(s, keys, now) <==> NoneExpired(s, keys, now)
  {
    if NoneExpired(s, keys, now) {
      SameWhenFresh(s, keys, now);
    } else {
      FewerHits(s, keys, now);
    }
  }

  /** An entry a second past its deadline: GetMulti hands it out. Get does not, and drops it, but the
      67 bytes it was charged for stay counted in the empty cache. */
  lemma ExpiredServed()
    ensures var s := PutTtl(Empty(1, 0), "key", "", 0);
            && GetMulti(s, ["key"]).1 == map["key" := ""]
            && Fetch(s, "key", 1).1 == None
            && Fetch(s, "key", 1).0.list == [] && Fetch(s, "key", 1).0.memoryUsage == 67
  {
    var s := PutTtl(Empty(1, 0), "key", "", 0);
    assert s.list == [Entry("key", "")] + [] == [Entry("key", "")];
    assert Lookup(s.list, "key") == Some("");
    assert ["key"][..0] == [] && GetMulti(s, []) == (s, map[]);
    assert s.list[1..] == [];
  }
}
