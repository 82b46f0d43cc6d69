/** A larger cache hits whenever a smaller one does, over any Set/Get/Delete history. */
module LruInclusion {
  import opened Wrappers
  import opened LruSpec
  import opened LruMemory

  /** `a` is `b` with some entries left out. */
  ghost predicate Sub(a: seq<Entry>, b: seq<Entry>) {
    a == [] || (b != [] && ((a[0] == b[0] && Sub(a[1..], b[1..])) || Sub(a, b[1..])))
  }

  lemma {:induction false} SubIn(a: seq<Entry>, b: seq<Entry>)
    requires Sub(a, b)
    ensures |a| <= |b|
    ensures forall e :: e in a ==> e in b
  {
    if a != [] {
      if a[0] == b[0] && Sub(a[1..], b[1..]) {
        SubIn(a[1..], b[1..]);
        forall e | e in a ensures e in b {
          assert e == a[0] || e in a[1..];
        }
      } else {
        SubIn(a, b[1..]);
      }
    }
  }

  lemma {:induction false} SubDrop(a: seq<Entry>, b: seq<Entry>, keys: set<string>)
    requires Sub(a, b)
    ensures Sub(Drop(a, keys), Drop(b, keys))
  {
    if a != [] {
      if a[0] == b[0] && Sub(a[1..], b[1..]) {
        SubDrop(a[1..], b[1..], keys);
        SubFront(Drop(a[1..], keys), Drop(b[1..], keys), a[0]);
      } else {
        SubDrop(a, b[1..], keys);
        SubFront(Drop(a, keys), Drop(b[1..], keys), b[0]);
      }
    }
  }

  lemma {:induction false} SubFront(a: seq<Entry>, b: seq<Entry>, e: Entry)
    requires Sub(a, b)
    ensures Sub([e] + a, [e] + b) && Sub(a, [e] + b)
  {
    assert ([e] + a)[1..] == a && ([e] + b)[1..] == b;
  }

  /** Dropping the last entry on the left, or on both sides, keeps the inclusion. */
  lemma {:induction false} SubInit(a: seq<Entry>, b: seq<Entry>)
    requires Sub(a, b) && a != []
    ensures Sub(a[..|a| - 1], b) && Sub(a[..|a| - 1], b[..|b| - 1])
  {
    if a[0] == b[0] && Sub(a[1..], b[1..]) {
      if |a| > 1 {
        SubInit(a[1..], b[1..]);
        SubFront(a[1..][..|a| - 2], b[1..], a[0]);
        SubFront(a[1..][..|a| - 2], b[1..][..|b| - 2], a[0]);
        assert [a[0]] + a[1..][..|a| - 2] == a[..|a| - 1];
        assert [b[0]] + b[1..] == b && [b[0]] + b[1..][..|b| - 2] == b[..|b| - 1];
      }
    } else {
      SubInit(a, b[1..]);
      SubFront(a[..|a| - 1], b[1..], b[0]);
      SubFront(a[..|a| - 1], b[1..][..|b| - 2], b[0]);
      assert [b[0]] + b[1..] == b && [b[0]] + b[1..][..|b| - 2] == b[..|b| - 1];
    }
  }

  lemma {:induction false} SubLookup(a: seq<Entry>, b: seq<Entry>, key: string)
    requires Sub(a, b) && Distinct(b) && key in Keys(a)
    ensures Lookup(b, key) == Lookup(a, key)
  {
    SubIn(a, b);
    var e := Entry(key, Lookup(a, key).value);
    var i :| 0 <= i < |b| && b[i] == e;
    LookupAt(b, i);
  }

  /** The recency list after a Set, when only the capacity limits it. */
  function Next(list: seq<Entry>, capacity: nat, e: Entry): seq<Entry> {
    [e] + (if e.key in Keys(list) then Drop(list, {e.key})
           else if |list| >= capacity > 0 && list != [] then list[..|list| - 1]
           else list)
  }

  lemma {:induction false} PutPlain(s: Lru, key: string, value: string)
    requires Sound(s) && s.memoryLimit <= 0
    ensures Put(s, key, value).list == Next(s.list, s.capacity, Entry(key, value))
    ensures Put(s, key, value).stats == s.stats
  {
    var memory := Cost(key, value);
    var n := EvictExact(s, memory);
    if n < |s.list| {
      assert !Fits(s, n + 1, memory);
    }
    assert s.list[..|s.list|] == s.list;
  }

  lemma DropOneLength(list: seq<Entry>, key: string)
    ensures Distinct(list) && key in Keys(list) ==> |Drop(list, {key})| == |list| - 1
  {
    if Distinct(list) && key in Keys(list) {
      var i :| 0 <= i < |list| && list[i].key == key;
      DropAt(list, i);
    }
  }

  lemma {:induction false} NextSub(a: seq<Entry>, b: seq<Entry>, c1: nat, c2: nat, e: Entry)
    requires Sub(a, b) && |a| <= c1 && |b| <= c2 && 0 < c1 && |b| - |a| <= c2 - c1
    ensures Sub(Next(a, c1, e), Next(b, c2, e))
    ensures Distinct(a) && Distinct(b) ==> |Next(b, c2, e)| - |Next(a, c1, e)| <= c2 - c1
  {
    SubIn(a, b);
    DropOneLength(a, e.key);
    DropOneLength(b, e.key);
    if e.key in Keys(b) {
      SubDrop(a, b, {e.key});
      if e.key in Keys(a) {
        SubFront(Drop(a, {e.key}), Drop(b, {e.key}), e);
      } else {
        DropAbsent(a, {e.key});
        NextTail(a, Drop(b, {e.key}), c1, e);
      }
    } else if |b| >= c2 && b != [] {
      if a != [] {
        SubInit(a, b);
      }
      SubFront(a[..if a == [] then 0 else |a| - 1], b[..|b| - 1], e);
    } else {
      NextTail(a, b, c1, e);
    }
  }

  lemma {:induction false} NextTail(a: seq<Entry>, b: seq<Entry>, c1: nat, e: Entry)
    requires Sub(a, b) && e.key !in Keys(a)
    ensures Sub(Next(a, c1, e), [e] + b)
  {
    if |a| >= c1 > 0 && a != [] {
      SubInit(a, b);
      SubFront(a[..|a| - 1], b, e);
    } else {
      SubFront(a, b, e);
    }
  }

  /** The smaller cache `s` beside the larger `t`. */
  ghost predicate Included(s: Lru, t: Lru) {
    && Sound(s) && Sound(t) && s.memoryLimit <= 0 && t.memoryLimit <= 0 && s.ttl == t.ttl == map[]
    && Sub(s.list, t.list)
    && 0 <= |t.list| - |s.list| <= t.capacity - s.capacity
    && s.stats.hits <= t.stats.hits && s.stats.total == t.stats.total
  }

  predicate Plain(op: Op) {
    op.PutOp? || op.GetOp? || op.DeleteOp?
  }

  lemma {:induction false} PutIncluded(s: Lru, t: Lru, key: string, value: string)
    requires Included(s, t)
    ensures Included(Put(s, key, value), Put(t, key, value))
  {
    PutSound(s, key, value);
    PutSound(t, key, value);
    PutPlain(s, key, value);
    PutPlain(t, key, value);
    NextSub(s.list, t.list, s.capacity, t.capacity, Entry(key, value));
    SubIn(s.list, t.list);
    SubIn(Put(s, key, value).list, Put(t, key, value).list);
    DropOneSound(s, key);
    DropOneSound(t, key);
  }

  lemma {:induction false} GetIncluded(s: Lru, t: Lru, key: string, now: int)
    requires Included(s, t)
    ensures Included(Fetch(s, key, now).0, Fetch(t, key, now).0)
    ensures Fetch(s, key, now).1.Some? ==> Fetch(t, key, now).1 == Fetch(s, key, now).1
  {
    FetchSound(s, key, now);
    FetchSound(t, key, now);
    SubIn(s.list, t.list);
    DropOneSound(s, key);
    DropOneSound(t, key);
    SubDrop(s.list, t.list, {key});
    if key in Keys(s.list) {
      SubLookup(s.list, t.list, key);
      SubFront(Drop(s.list, {key}), Drop(t.list, {key}), Entry(key, Lookup(s.list, key).value));
    } else if key in Keys(t.list) {
      DropAbsent(s.list, {key});
      SubFront(s.list, Drop(t.list, {key}), Entry(key, Lookup(t.list, key).value));
    }
  }

  lemma {:induction false} DeleteIncluded(s: Lru, t: Lru, key: string)
    requires Included(s, t)
    ensures Included(Delete(s, key), Delete(t, key))
  {
    FetchSound(s, key, 0);
    FetchSound(t, key, 0);
    SubIn(s.list, t.list);
    DropOneSound(s, key);
    DropOneSound(t, key);
    SubDrop(s.list, t.list, {key});
    if key in Keys(s.list) {
      SubLookup(s.list, t.list, key);
    } else {
      DropAbsent(s.list, {key});
      assert key in Keys(t.list) ==> |s.list| <= |Drop(t.list, {key})| by { SubIn(s.list, Drop(t.list, {key})); }
    }
  }

  /** Stack inclusion: run one history on two capacities. The smaller recency list is an ordered
      sublist of the larger with the same values, and every hit of the smaller cache is the same
      hit in the larger. */
  lemma {:induction false} StackInclusion(c1: nat, c2: nat, ops: seq<Op>, key: string, now: int)
    requires 0 < c1 <= c2
    requires forall op :: op in ops ==> Plain(op)
    ensures var (s, t) := (Run(Empty(c1, 0), ops), Run(Empty(c2, 0), ops));
            && Sub(s.list, t.list) && |t.list| - |s.list| <= c2 - c1
            && s.stats.hits <= t.stats.hits && s.stats.total == t.stats.total
            && (Fetch(s, key, now).1.Some? ==> Fetch(t, key, now).1 == Fetch(s, key, now).1)
  {
    RunIncluded(c1, c2, ops);
    ConfigKept(Empty(c1, 0), ops);
    ConfigKept(Empty(c2, 0), ops);
    GetIncluded(Run(Empty(c1, 0), ops), Run(Empty(c2, 0), ops), key, now);
  }

  lemma {:induction false} RunIncluded(c1: nat, c2: nat, ops: seq<Op>)
    requires 0 < c1 <= c2
    requires forall op :: op in ops ==> Plain(op)
    ensures Included(Run(Empty(c1, 0), ops), Run(Empty(c2, 0), ops))
  {
    if ops != [] {
      var n := |ops| - 1;
      RunIncluded(c1, c2, ops[..n]);
      var s, t := Run(Empty(c1, 0), ops[..n]), Run(Empty(c2, 0), ops[..n]);
      assert ops[n] in ops;
      match ops[n]
      case PutOp(k, v) => PutIncluded(s, t, k, v);
      case GetOp(k, now) => GetIncluded(s, t, k, now);
      case DeleteOp(k) => DeleteIncluded(s, t, k);
    }
  }
}
