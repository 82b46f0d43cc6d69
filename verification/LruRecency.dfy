/** What makes the store an LRU: which keys it holds, said of the operations alone. */
module LruRecency {
  import opened Wrappers
  import opened LruSpec
  import opened LruMemory
  import opened LruInclusion

  // ----- One operation -----

  /** A hit, through Get or through GetMulti, takes the entry out of its place and puts it first; the
      others keep their order. */
  lemma HitMovesToFront(s: Lru, key: string, now: int)
    requires Distinct(s.list) && Fetch(s, key, now).1.Some?
    ensures exists i :: 0 <= i < |s.list| && s.list[i] == Entry(key, Fetch(s, key, now).1.value)
                        && Fetch(s, key, now).0.list == [s.list[i]] + (s.list[..i] + s.list[i + 1..])
                        && FetchRaw(s, key).0.list == [s.list[i]] + (s.list[..i] + s.list[i + 1..])
  {
    var e := Entry(key, Lookup(s.list, key).value);
    var i :| 0 <= i < |s.list| && s.list[i] == e;
    DropAt(s.list, i);
  }

  /** The list after a plain operation. */
  function Moved(list: seq<Entry>, capacity: nat, op: Op): seq<Entry>
    requires Plain(op)
  {
    match op
    case PutOp(k, v) => Next(list, capacity, Entry(k, v))
    case GetOp(k, _) =>
      if Lookup(list, k).Some? then [Entry(k, Lookup(list, k).value)] + Drop(list, {k}) else list
    case DeleteOp(k) => Drop(list, {k})
  }

  ghost predicate PlainStore(s: Lru, capacity: nat) {
    Sound(s) && s.capacity == capacity && s.memoryLimit <= 0 && s.ttl == map[]
  }

  lemma ApplyMoves(s: Lru, capacity: nat, op: Op)
    requires PlainStore(s, capacity) && Plain(op)
    ensures PlainStore(Apply(s, op), capacity) && Apply(s, op).list == Moved(s.list, capacity, op)
  {
    ApplySound(s, op);
    match op
    case PutOp(k, v) => PutPlain(s, k, v); PutSound(s, k, v);
    case GetOp(k, now) =>
    case DeleteOp(k) =>
      if Lookup(s.list, k).None? {
        DropAbsent(s.list, {k});
      }
  }

  // ----- The law -----

  ghost predicate AllPlain(ops: seq<Op>) {
    forall op :: op in ops ==> Plain(op)
  }

  /** Operation `i` uses the key: it is a Set, or a Get at a moment when the key is stored. */
  ghost predicate Uses(c: nat, ops: seq<Op>, i: nat, k: string)
    decreases |ops|, 0
  {
    && i < |ops|
    && ((ops[i].PutOp? && ops[i].key == k) || (ops[i].GetOp? && ops[i].key == k && Stored(c, ops[..i], k)))
  }

  ghost predicate Undeleted(ops: seq<Op>, i: nat, k: string) {
    forall m :: i < m < |ops| ==> ops[m] != DeleteOp(k)
  }

  ghost function KeyOf(op: Op): string {
    if Plain(op) then op.key else ""
  }

  /** The other keys used after operation `i` and not deleted since. */
  ghost function Since(c: nat, ops: seq<Op>, i: nat, k: string): set<string>
    decreases |ops|, 1
  {
    set m | i < m < |ops| && KeyOf(ops[m]) != k && Uses(c, ops, m, KeyOf(ops[m])) && Undeleted(ops, m, KeyOf(ops[m]))
      :: KeyOf(ops[m])
  }

  /** A key is stored if, after some use, it was not deleted and at no moment as many as `c` other keys
      were in use since: the operations decide, no list is involved. */
  ghost predicate Stored(c: nat, ops: seq<Op>, k: string)
    decreases |ops|, 3
  {
    exists i :: 0 <= i < |ops| && Uses(c, ops, i, k) && Undeleted(ops, i, k) && Roomy(c, ops, i, k)
  }

  ghost predicate Roomy(c: nat, ops: seq<Op>, i: nat, k: string)
    decreases |ops|, 2
  {
    forall j :: i < j <= |ops| ==> |Since(c, ops[..j], i, k)| < c
  }

  /** The value of the latest Set of the key, if it was not deleted since. */
  function Written(ops: seq<Op>, k: string): Option<string> {
    if ops == [] then None
    else match ops[|ops| - 1]
      case PutOp(x, v) => if x == k then Some(v) else Written(ops[..|ops| - 1], k)
      case DeleteOp(x) => if x == k then None else Written(ops[..|ops| - 1], k)
      case _ => Written(ops[..|ops| - 1], k)
  }

  // ----- How the log grows -----

  lemma UsesPrefix(c: nat, ops: seq<Op>, n: nat, i: nat, k: string)
    requires i < n <= |ops|
    ensures Uses(c, ops[..n], i, k) == Uses(c, ops, i, k)
  {
    assert ops[..n][..i] == ops[..i];
  }

  /** One more operation adds the key it uses and takes away the one it deletes. */
  lemma SinceNext(c: nat, ops: seq<Op>, op: Op, i: nat, k: string)
    requires i < |ops| && Plain(op)
    ensures var after := ops + [op];
            forall y :: y in Since(c, after, i, k) <==>
              (y in Since(c, ops, i, k) && op != DeleteOp(y)) || (y == op.key && y != k && Uses(c, after, |ops|, y))
  {
    var n, after := |ops|, ops + [op];
    assert after[..n] == ops;
    hide Uses, Stored, Roomy;
    forall m, y | 0 <= m < n
      ensures Uses(c, after, m, y) == Uses(c, ops, m, y)
      ensures Undeleted(after, m, y) <==> Undeleted(ops, m, y) && op != DeleteOp(y)
    {
      UsesPrefix(c, after, n, m, y);
      UndeletedNext(ops, op, m, y);
    }
    forall y | y in Since(c, ops, i, k) && op != DeleteOp(y) ensures y in Since(c, after, i, k) {
      var m :| i < m < n && KeyOf(ops[m]) == y && y != k && Uses(c, ops, m, y) && Undeleted(ops, m, y);
      assert KeyOf(after[m]) == y && Uses(c, after, m, y) && Undeleted(after, m, y);
    }
    if op.key != k && Uses(c, after, n, op.key) {
      assert KeyOf(after[n]) == op.key && Undeleted(after, n, op.key);
    }
    forall y | y in Since(c, after, i, k)
      ensures (y in Since(c, ops, i, k) && op != DeleteOp(y)) || (y == op.key && y != k && Uses(c, after, n, y))
    {
      var m :| i < m < n + 1 && KeyOf(after[m]) == y && y != k && Uses(c, after, m, y) && Undeleted(after, m, y);
      if m < n {
        assert KeyOf(ops[m]) == y && Uses(c, ops, m, y) && Undeleted(ops, m, y);
      }
    }
  }

  lemma UndeletedNext(ops: seq<Op>, op: Op, m: nat, y: string)
    requires m < |ops|
    ensures Undeleted(ops + [op], m, y) <==> Undeleted(ops, m, y) && op != DeleteOp(y)
  {
    var after := ops + [op];
    assert after[|ops|] == op && forall j :: 0 <= j < |ops| ==> after[j] == ops[j];
  }

  // ----- Positions -----

  /** The keys ahead of `k`. */
  function Ahead(list: seq<Entry>, k: string): set<string> {
    if list == [] || list[0].key == k then {} else {list[0].key} + Ahead(list[1..], k)
  }

  lemma {:induction false} AheadIn(list: seq<Entry>, k: string)
    requires Distinct(list) && k in Keys(list)
    ensures Ahead(list, k) <= Keys(list) - {k} && |Ahead(list, k)| < |list|
  {
    AheadWithin(list, k);
    KeysCount(list);
    assert |Keys(list) - {k}| == |Keys(list)| - 1;
    AtMost(Ahead(list, k), Keys(list) - {k});
  }

  lemma AtMost(a: set<string>, b: set<string>)
    requires a <= b
    ensures |a| <= |b|
  {
    assert b == a + (b - a);
  }

  lemma {:induction false} AheadWithin(list: seq<Entry>, k: string)
    ensures Ahead(list, k) <= Keys(list) - {k}
  {
    if list != [] {
      assert list[0] in list;
      assert Keys(list[1..]) <= Keys(list);
      AheadWithin(list[1..], k);
    }
  }

  lemma {:induction false} AheadDrop(list: seq<Entry>, x: string, k: string)
    requires x != k
    ensures Ahead(Drop(list, {x}), k) == Ahead(list, k) - {x}
  {
    if list != [] {
      AheadDrop(list[1..], x, k);
    }
  }

  lemma AheadFront(e: Entry, list: seq<Entry>, k: string)
    ensures Ahead([e] + list, k) == if e.key == k then {} else {e.key} + Ahead(list, k)
  {
    assert ([e] + list)[1..] == list;
  }

  lemma {:induction false} AheadPrefix(list: seq<Entry>, n: nat, k: string)
    requires n <= |list| && k in Keys(list[..n])
    ensures Ahead(list[..n], k) == Ahead(list, k)
  {
    if n > 0 && list[0].key != k {
      assert list[..n][1..] == list[1..][..n - 1];
      var e :| e in list[..n] && e.key == k;
      assert e in list[1..][..n - 1];
      AheadPrefix(list[1..], n - 1, k);
    }
  }

  lemma {:induction false} AheadLast(list: seq<Entry>)
    requires Distinct(list) && list != []
    ensures Ahead(list, list[|list| - 1].key) == Keys(list) - {list[|list| - 1].key}
  {
    if |list| > 1 {
      assert Distinct(list[1..]);
      AheadLast(list[1..]);
      assert Keys(list) == {list[0].key} + Keys(list[1..]);
    } else {
      assert Keys(list) == {list[0].key};
    }
  }

  // ----- The list follows the log -----

  ghost predicate LastUsed(c: nat, ops: seq<Op>, i: nat, k: string) {
    && Uses(c, ops, i, k) && Undeleted(ops, i, k)
    && forall m :: i < m < |ops| ==> !Uses(c, ops, m, k)
  }

  /** The key was last used at `i`, and the keys ahead of it are those used since. */
  ghost predicate Follows(c: nat, ops: seq<Op>, list: seq<Entry>, i: nat, k: string) {
    LastUsed(c, ops, i, k) && Roomy(c, ops, i, k) && Ahead(list, k) == Since(c, ops, i, k)
  }

  ghost predicate Reflects(c: nat, ops: seq<Op>, list: seq<Entry>) {
    && (forall k :: k in Keys(list) ==> exists i :: 0 <= i < |ops| && Follows(c, ops, list, i, k))
    && (forall k :: Stored(c, ops, k) ==> k in Keys(list))
  }

  /** An operation uses its key when it writes it or finds it in the list. */
  predicate UsesNow(list: seq<Entry>, op: Op)
    requires Plain(op)
  {
    op.PutOp? || (op.GetOp? && op.key in Keys(list))
  }

  lemma MovedAhead(list: seq<Entry>, c: nat, op: Op, k: string)
    requires Distinct(list) && Plain(op) && k in Keys(Moved(list, c, op))
    ensures if UsesNow(list, op) && op.key == k then Ahead(Moved(list, c, op), k) == {}
            else
              && k in Keys(list) && op != DeleteOp(k)
              && Ahead(Moved(list, c, op), k) == if UsesNow(list, op) then Ahead(list, k) + {op.key}
                                                 else if op.DeleteOp? then Ahead(list, k) - {op.key}
                                                 else Ahead(list, k)
  {
    var x := op.key;
    DropIn(list, {x});
    if UsesNow(list, op) {
      var e, rest := Moved(list, c, op)[0], Moved(list, c, op)[1..];
      assert Moved(list, c, op) == [e] + rest && e.key == x;
      AheadFront(e, rest, k);
      if k != x {
        assert k in Keys(rest);
        AheadDrop(list, x, k);
        if rest == list[..|list| - 1] {
          AheadPrefix(list, |list| - 1, k);
        }
      }
    } else if op.DeleteOp? && x != k {
      AheadDrop(list, x, k);
    }
  }

  /** The key a new key pushes out of a full list. */
  predicate PushesOut(list: seq<Entry>, c: nat, op: Op, k: string)
    requires Plain(op)
  {
    op.PutOp? && op.key !in Keys(list) && |list| >= c && list != [] && list[|list| - 1].key == k
  }

  /** A key leaves the list by Delete, or when it is pushed out; no other way. */
  lemma MovedKeeps(list: seq<Entry>, c: nat, op: Op, k: string)
    requires Plain(op) && k in Keys(list) && op != DeleteOp(k) && !PushesOut(list, c, op, k)
    ensures k in Keys(Moved(list, c, op))
  {
    var e :| e in list && e.key == k;
    DropIn(list, {op.key});
    var moved := Moved(list, c, op);
    if UsesNow(list, op) {
      var rest := moved[1..];
      assert moved == [moved[0]] + rest && moved[0].key == op.key && moved[0] in moved;
      assert forall d :: d in rest ==> d in moved;
      var i :| 0 <= i < |list| && list[i] == e;
      if op.key !in Keys(list) && rest != list {
        assert rest[i] == e;
      }
    }
  }

  lemma FollowsOf(c: nat, ops: seq<Op>, list: seq<Entry>, k: string) returns (i: nat)
    requires Reflects(c, ops, list) && k in Keys(list)
    ensures i < |ops| && Follows(c, ops, list, i, k)
  {
    hide Follows;
    i :| 0 <= i < |ops| && Follows(c, ops, list, i, k);
  }

  lemma StoredIs(c: nat, ops: seq<Op>, list: seq<Entry>, k: string)
    requires Reflects(c, ops, list)
    ensures k in Keys(list) <==> Stored(c, ops, k)
  {
    if k in Keys(list) {
      var i :| 0 <= i < |ops| && Follows(c, ops, list, i, k);
      assert Uses(c, ops, i, k) && Undeleted(ops, i, k) && Roomy(c, ops, i, k);
    }
  }

  lemma UsesLast(c: nat, ops: seq<Op>, list: seq<Entry>, op: Op)
    requires Reflects(c, ops, list) && Plain(op)
    ensures Uses(c, ops + [op], |ops|, op.key) <==> UsesNow(list, op)
    ensures forall k :: k != op.key ==> !Uses(c, ops + [op], |ops|, k)
  {
    assert (ops + [op])[..|ops|] == ops;
    StoredIs(c, ops, list, op.key);
  }

  lemma RoomyNext(c: nat, ops: seq<Op>, op: Op, i: nat, k: string)
    requires i < |ops|
    ensures Roomy(c, ops + [op], i, k) <==> Roomy(c, ops, i, k) && |Since(c, ops + [op], i, k)| < c
  {
    var n, after := |ops|, ops + [op];
    assert after[..n + 1] == after && forall j :: 0 <= j <= n ==> after[..j] == ops[..j];
    hide Since;
  }

  lemma RoomyNow(c: nat, ops: seq<Op>, op: Op, k: string)
    requires 0 < c
    ensures Since(c, ops + [op], |ops|, k) == {} && Roomy(c, ops + [op], |ops|, k)
  {
    var after := ops + [op];
    assert after[..|after|] == after;
  }

  /** A key that stays in the list keeps its last use, and one that is used gets a new one. */
  lemma FollowsNext(c: nat, ops: seq<Op>, list: seq<Entry>, op: Op, k: string)
    requires 0 < c && Reflects(c, ops, list) && Distinct(list) && Plain(op)
    requires var moved := Moved(list, c, op); Distinct(moved) && |moved| <= c && k in Keys(moved)
    ensures exists i :: 0 <= i < |ops| + 1 && Follows(c, ops + [op], Moved(list, c, op), i, k)
  {
    hide Moved, Reflects, Follows, UsesNow, Keys;
    MovedAhead(list, c, op, k);
    if UsesNow(list, op) && op.key == k {
      UsedFollows(c, ops, list, op, k);
    } else {
      var i := FollowsOf(c, ops, list, k);
      OtherFollows(c, ops, list, op, i, k);
    }
  }

  lemma UsedFollows(c: nat, ops: seq<Op>, list: seq<Entry>, op: Op, k: string)
    requires 0 < c && Reflects(c, ops, list) && Plain(op) && UsesNow(list, op) && op.key == k
    requires Ahead(Moved(list, c, op), k) == {}
    ensures Follows(c, ops + [op], Moved(list, c, op), |ops|, k)
  {
    hide Moved, Reflects, Uses, Roomy, Since, UsesNow;
    UsesLast(c, ops, list, op);
    RoomyNow(c, ops, op, k);
  }

  lemma OtherFollows(c: nat, ops: seq<Op>, list: seq<Entry>, op: Op, i: nat, k: string)
    requires i < |ops| && Reflects(c, ops, list) && Plain(op) && Follows(c, ops, list, i, k) && op != DeleteOp(k)
    requires !(UsesNow(list, op) && op.key == k)
    requires var moved := Moved(list, c, op);
             && Distinct(moved) && |moved| <= c && k in Keys(moved)
             && Ahead(moved, k) == if UsesNow(list, op) then Ahead(list, k) + {op.key}
                                   else if op.DeleteOp? then Ahead(list, k) - {op.key}
                                   else Ahead(list, k)
    ensures Follows(c, ops + [op], Moved(list, c, op), i, k)
  {
    hide Moved, Reflects, Uses, Roomy, Since, Keys;
    UsesLast(c, ops, list, op);
    AheadIn(Moved(list, c, op), k);
    AheadWithin(list, k);
    SinceNext(c, ops, op, i, k);
    RoomyNext(c, ops, op, i, k);
    LastUsedNext(c, ops, op, i, k);
    hide LastUsed, UsesNow, Ahead;
    assert k !in Since(c, ops, i, k);
    assert Ahead(Moved(list, c, op), k) == Since(c, ops + [op], i, k);
  }

  lemma LastUsedNext(c: nat, ops: seq<Op>, op: Op, i: nat, k: string)
    requires LastUsed(c, ops, i, k) && !Uses(c, ops + [op], |ops|, k) && op != DeleteOp(k)
    ensures LastUsed(c, ops + [op], i, k)
  {
    var n, after := |ops|, ops + [op];
    assert after[..n] == ops;
    UndeletedNext(ops, op, i, k);
    forall m | 0 <= m < n ensures Uses(c, after, m, k) == Uses(c, ops, m, k) {
      UsesPrefix(c, after, n, m, k);
    }
    hide Uses;
  }

  /** What was used after a later operation was used after an earlier one. */
  lemma SinceEarlier(c: nat, ops: seq<Op>, i: nat, j: nat, k: string)
    requires i <= j
    ensures Since(c, ops, j, k) <= Since(c, ops, i, k)
  {
    hide Uses, Undeleted;
  }

  /** A key the law says is stored was not the one to be pushed out. */
  lemma StoredStays(c: nat, ops: seq<Op>, list: seq<Entry>, op: Op, k: string)
    requires 0 < c && Reflects(c, ops, list) && Distinct(list) && |list| <= c && Plain(op)
    requires Stored(c, ops + [op], k)
    ensures k in Keys(Moved(list, c, op))
  {
    var n, after := |ops|, ops + [op];
    assert after[..n] == ops;
    var i :| 0 <= i < n + 1 && Uses(c, after, i, k) && Undeleted(after, i, k) && Roomy(c, after, i, k);
    UsesLast(c, ops, list, op);
    if i == n {
      assert UsesNow(list, op) && op.key == k;
      assert Moved(list, c, op)[0].key == k && Moved(list, c, op)[0] in Moved(list, c, op);
    } else {
      UsesPrefix(c, after, n, i, k);
      UndeletedNext(ops, op, i, k);
      RoomyNext(c, ops, op, i, k);
      assert Stored(c, ops, k);
      if PushesOut(list, c, op, k) {
        PushedOut(c, ops, list, op, i, k);
      } else {
        MovedKeeps(list, c, op, k);
      }
    }
  }

  lemma PushedOut(c: nat, ops: seq<Op>, list: seq<Entry>, op: Op, i: nat, k: string)
    requires Reflects(c, ops, list) && Distinct(list) && |list| == c && list != [] && list[c - 1].key == k
    requires op.PutOp? && op.key !in Keys(list) && op.key != k && i < |ops| && Uses(c, ops, i, k)
    ensures |Since(c, ops + [op], i, k)| >= c
  {
    hide Uses, Stored, Roomy, Since, Reflects, Undeleted;
    assert list[c - 1] in list;
    var last := FollowsOf(c, ops, list, k);
    UsesLast(c, ops, list, op);
    AheadLast(list);
    SinceNext(c, ops, op, i, k);
    SinceEarlier(c, ops, i, last, k);
    var others := Keys(list) - {k} + {op.key};
    KeysCount(list);
    assert |Keys(list) - {k}| == c - 1 && |others| == c;
    forall y | y in others ensures y in Since(c, ops + [op], i, k) {
      if y != op.key {
        assert y in Since(c, ops, last, k);
      }
    }
    AtMost(others, Since(c, ops + [op], i, k));
  }

  lemma ReflectsNext(c: nat, ops: seq<Op>, list: seq<Entry>, op: Op)
    requires 0 < c && Reflects(c, ops, list) && Distinct(list) && |list| <= c && Plain(op)
    requires Distinct(Moved(list, c, op)) && |Moved(list, c, op)| <= c
    ensures Reflects(c, ops + [op], Moved(list, c, op))
  {
    hide Moved, Follows, Stored, Reflects;
    forall k | k in Keys(Moved(list, c, op))
      ensures exists i :: 0 <= i < |ops + [op]| && Follows(c, ops + [op], Moved(list, c, op), i, k)
    {
      FollowsNext(c, ops, list, op, k);
    }
    forall k | Stored(c, ops + [op], k) ensures k in Keys(Moved(list, c, op)) {
      StoredStays(c, ops, list, op, k);
    }
    ReflectsIntro(c, ops + [op], Moved(list, c, op));
  }

  lemma ReflectsIntro(c: nat, ops: seq<Op>, list: seq<Entry>)
    requires forall k :: k in Keys(list) ==> exists i :: 0 <= i < |ops| && Follows(c, ops, list, i, k)
    requires forall k :: Stored(c, ops, k) ==> k in Keys(list)
    ensures Reflects(c, ops, list)
  {
  }

  lemma {:induction false} RunReflects(c: nat, ops: seq<Op>)
    requires 0 < c && AllPlain(ops)
    ensures var s := Run(Empty(c, 0), ops); PlainStore(s, c) && Reflects(c, ops, s.list)
  {
    hide Reflects, Moved;
    if ops == [] {
      ReflectsNothing(c);
    } else {
      var n := |ops| - 1;
      var s := Run(Empty(c, 0), ops[..n]);
      assert ops[n] in ops && ops == ops[..n] + [ops[n]];
      RunReflects(c, ops[..n]);
      ApplyMoves(s, c, ops[n]);
      ReflectsNext(c, ops[..n], s.list, ops[n]);
    }
  }

  lemma ReflectsNothing(c: nat)
    ensures Reflects(c, [], [])
  {
  }

  // ----- Values -----

  lemma {:induction false} RunWritten(c: nat, ops: seq<Op>, k: string)
    requires 0 < c && AllPlain(ops)
    ensures var r := Lookup(Run(Empty(c, 0), ops).list, k); r.Some? ==> r == Written(ops, k)
  {
    if ops != [] {
      var n := |ops| - 1;
      assert ops[n] in ops;
      RunWritten(c, ops[..n], k);
      RunReflects(c, ops[..n]);
      var s := Run(Empty(c, 0), ops[..n]);
      ApplyMoves(s, c, ops[n]);
      MovedValue(s.list, c, ops[n], k);
      hide Moved, Run;
    }
  }

  lemma MovedValue(list: seq<Entry>, c: nat, op: Op, k: string)
    requires Plain(op)
    ensures var r := Lookup(Moved(list, c, op), k);
            r.Some? ==> r == if op.PutOp? && op.key == k then Some(op.value) else Lookup(list, k)
    ensures op == DeleteOp(k) ==> Lookup(Moved(list, c, op), k) == None
  {
    LookupDrop(list, {op.key}, k);
    if |list| > 0 {
      LookupPrefix(list, |list| - 1, k);
    }
  }

  // ----- Main results -----

  /** After any run of Sets, Gets and Deletes a key is in the store exactly when, since some use of it,
      it was not deleted and never as many other keys as the capacity were in use; and then it has the
      value last set, which Get and GetMulti answer. */
  lemma RecencyLaw(c: nat, ops: seq<Op>, k: string, now: int)
    requires 0 < c && AllPlain(ops)
    ensures var s := Run(Empty(c, 0), ops);
            Lookup(s.list, k) == Fetch(s, k, now).1 == FetchRaw(s, k).1
            == if Stored(c, ops, k) then Written(ops, k) else None
    ensures Stored(c, ops, k) ==> Written(ops, k).Some?
  {
    hide Stored, Run;
    RunReflects(c, ops);
    RunWritten(c, ops, k);
    StoredIs(c, ops, Run(Empty(c, 0), ops).list, k);
  }

  /** The list is ordered by the time of last use, latest first. */
  lemma OrderedByUse(c: nat, ops: seq<Op>, a: nat, b: nat)
    requires 0 < c && AllPlain(ops) && a < b < |Run(Empty(c, 0), ops).list|
    ensures var list := Run(Empty(c, 0), ops).list;
            exists i, j :: 0 <= j < i < |ops| && LastUsed(c, ops, i, list[a].key) && LastUsed(c, ops, j, list[b].key)
  {
    hide Run, Uses, Reflects, Roomy, Undeleted;
    RunReflects(c, ops);
    var list := Run(Empty(c, 0), ops).list;
    assert list[a] in list && list[b] in list;
    var i := FollowsOf(c, ops, list, list[a].key);
    var j := FollowsOf(c, ops, list, list[b].key);
    AheadHas(list, a, b);
    hide Ahead;
    var m :| j < m < |ops| && KeyOf(ops[m]) == list[a].key && Uses(c, ops, m, list[a].key);
    assert m <= i;
  }

  lemma {:induction false} AheadHas(list: seq<Entry>, a: nat, b: nat)
    requires Distinct(list) && a < b < |list|
    ensures list[a].key in Ahead(list, list[b].key)
  {
    if a > 0 {
      assert Distinct(list[1..]);
      AheadHas(list[1..], a - 1, b - 1);
    }
  }

  lemma RunMoves(c: nat, ops: seq<Op>, op: Op)
    requires 0 < c && AllPlain(ops) && Plain(op)
    ensures Run(Empty(c, 0), ops + [op]).list == Moved(Run(Empty(c, 0), ops).list, c, op)
  {
    hide Moved, Apply;
    assert (ops + [op])[..|ops|] == ops;
    RunReflects(c, ops);
    ApplyMoves(Run(Empty(c, 0), ops), c, op);
  }

  /** Two entries fit; a hit on the older saves it from the next Set. */
  lemma HitSaves()
    ensures var s := Run(Empty(2, 0), [PutOp("a", "1"), PutOp("b", "2"), GetOp("a", 0), PutOp("c", "3")]);
            Lookup(s.list, "a") == Some("1") && Lookup(s.list, "b") == None
  {
    var o0, o1, o2, o3 := PutOp("a", "1"), PutOp("b", "2"), GetOp("a", 0), PutOp("c", "3");
    var a, b, c := Entry("a", "1"), Entry("b", "2"), Entry("c", "3");
    assert Moved([], 2, o0) == [a];
    assert Moved([a], 2, o1) == [b, a];
    assert [b, a][1..] == [a] && Moved([b, a], 2, o2) == [a, b];
    assert [a, b][..1] == [a] && Moved([a, b], 2, o3) == [c, a];
    assert [c, a][1..] == [a] && Lookup([c, a], "a") == Some("1") && Lookup([c, a], "b") == None;
    hide Moved, Run, Lookup;
    FourMoves(2, o0, o1, o2, o3);
  }

  lemma FourMoves(c: nat, o0: Op, o1: Op, o2: Op, o3: Op)
    requires 0 < c && AllPlain([o0, o1, o2, o3]) && Plain(o0) && Plain(o1) && Plain(o2) && Plain(o3)
    ensures Run(Empty(c, 0), [o0, o1, o2, o3]).list
            == Moved(Moved(Moved(Moved([], c, o0), c, o1), c, o2), c, o3)
  {
    assert Run(Empty(c, 0), []).list == [];
    hide Moved, Run;
    RunMoves(c, [], o0);
    assert [] + [o0] == [o0];
    RunMoves(c, [o0], o1);
    assert [o0] + [o1] == [o0, o1];
    RunMoves(c, [o0, o1], o2);
    assert [o0, o1] + [o2] == [o0, o1, o2];
    RunMoves(c, [o0, o1, o2], o3);
    assert [o0, o1, o2] + [o3] == [o0, o1, o2, o3];
  }
}
