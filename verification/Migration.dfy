/** Moving stored pairs between nodes when the ring changes (core/distributed_cache.go). The
    source visits keys in the order a Go map yields them; here every such order is a schedule,
    and the theorems hold for all of them. */
module Migration {
  import opened Wrappers
  import opened LruSpec
  import opened LruMemory
  import opened LruInclusion

  type Stores = map<string, Lru>

  const STORE_CAPACITY := 1000

  /** A node's store: limited by capacity alone, no TTL. */
  ghost predicate Store(s: Lru) {
    Sound(s) && s.memoryLimit <= 0 && s.ttl == map[]
  }

  ghost predicate AllStores(stores: Stores) {
    forall n :: n in stores ==> Store(stores[n])
  }

  /** Every stored key sits at the node it routes to. */
  ghost predicate Placed(stores: Stores, route: string -> string) {
    forall n, k :: n in stores && k in Keys(stores[n].list) ==> route(k) == n
  }

  /** What a client asking for `key` is told. */
  function Find(stores: Stores, route: string -> string, key: string): Option<string> {
    if route(key) in stores then Lookup(stores[route(key)].list, key) else None
  }

  // ----- One store -----

  lemma {:induction false} NextLookup(list: seq<Entry>, capacity: nat, e: Entry, key: string)
    requires e.key in Keys(list) || |list| < capacity
    ensures Lookup(Next(list, capacity, e), key) == if key == e.key then Some(e.value) else Lookup(list, key)
  {
    LookupDrop(list, {e.key}, key);
  }

  /** A store with room, or with the key already in it, gains the pair and loses nothing. */
  lemma {:induction false} PutRoom(s: Lru, key: string, value: string, other: string)
    requires Store(s) && (key in Keys(s.list) || |s.list| < s.capacity)
    ensures Lookup(Put(s, key, value).list, other) == if other == key then Some(value) else Lookup(s.list, other)
  {
    PutPlain(s, key, value);
    NextLookup(s.list, s.capacity, Entry(key, value), other);
  }

  lemma {:induction false} PutStore(s: Lru, key: string, value: string)
    requires Store(s)
    ensures Store(Put(s, key, value)) && Put(s, key, value).capacity == s.capacity
    ensures key in Keys(Put(s, key, value).list)
    ensures Keys(Put(s, key, value).list) <= Keys(s.list) + {key}
  {
    PutSound(s, key, value);
    PutPlain(s, key, value);
    var list := Put(s, key, value).list;
    assert list[0] == Entry(key, value) && list[0] in list;
    DropIn(s.list, {key});
    forall e | e in list ensures e.key in Keys(s.list) + {key} {
    }
  }

  lemma {:induction false} DeleteStore(s: Lru, key: string)
    requires Store(s)
    ensures Store(Delete(s, key)) && Delete(s, key).capacity == s.capacity
    ensures Delete(s, key).list == Drop(s.list, {key})
  {
    FetchSound(s, key, 0);
    if key !in Keys(s.list) {
      DropAbsent(s.list, {key});
    }
  }

  /** A Set may evict other pairs but stores nothing else. */
  lemma PutOnlyAdds(s: Lru, key: string, value: string, k: string)
    requires Store(s)
    ensures Lookup(Put(s, key, value).list, k).Some? ==>
              Lookup(Put(s, key, value).list, k) == if k == key then Some(value) else Lookup(s.list, k)
    ensures k == key ==> Lookup(Put(s, key, value).list, k).Some?
  {
    PutPlain(s, key, value);
    if k != key {
      LookupDrop(s.list, {key}, k);
      if |s.list| >= 1 {
        LookupPrefix(s.list, |s.list| - 1, k);
      }
    }
  }

  lemma FetchKeeps(s: Lru, key: string, now: int, k: string)
    requires Store(s)
    ensures Store(Fetch(s, key, now).0) && Lookup(Fetch(s, key, now).0.list, k) == Lookup(s.list, k)
    ensures Fetch(s, key, now).1 == Lookup(s.list, key)
  {
    FetchSound(s, key, now);
    LookupDrop(s.list, {key}, k);
  }

  // ----- Data that is current -----

  /** Each key of the list routes to `n` and has the value the clients last set. */
  ghost predicate Current(list: seq<Entry>, seen: map<string, string>, route: string -> string, n: string) {
    forall k :: Lookup(list, k).Some? ==> route(k) == n && k in seen && Lookup(list, k) == Some(seen[k])
  }

  ghost predicate AllCurrent(stores: Stores, seen: map<string, string>, route: string -> string) {
    forall n :: n in stores ==> Current(stores[n].list, seen, route, n)
  }

  /** The two maps differ at `key` at most. */
  ghost predicate Elsewhere(seen: map<string, string>, now: map<string, string>, key: string) {
    forall k :: k != key ==> (k in now <==> k in seen) && (k in seen ==> now[k] == seen[k])
  }

  lemma PutCurrent(s: Lru, seen: map<string, string>, route: string -> string, n: string, key: string, value: string)
    requires Store(s) && Current(s.list, seen, route, n) && route(key) == n
    ensures Current(Put(s, key, value).list, seen[key := value], route, n)
  {
    hide Put;
    forall k { PutOnlyAdds(s, key, value, k); }
  }

  lemma DeleteCurrent(s: Lru, seen: map<string, string>, route: string -> string, n: string, key: string)
    requires Store(s) && Current(s.list, seen, route, n)
    ensures Current(LruSpec.Delete(s, key).list, seen - {key}, route, n)
  {
    hide LruSpec.Delete;
    DeleteStore(s, key);
    forall k { LookupDrop(s.list, {key}, k); }
  }

  lemma FetchCurrent(s: Lru, seen: map<string, string>, route: string -> string, n: string, key: string, now: int)
    requires Store(s) && Current(s.list, seen, route, n)
    ensures Current(Fetch(s, key, now).0.list, seen, route, n)
  {
    hide Fetch;
    forall k { FetchKeeps(s, key, now, k); }
  }

  /** One store changes, and a key that routes to it gets a new value or none. */
  lemma OneStoreCurrent(stores: Stores, seen: map<string, string>, route: string -> string, n: string, s: Lru,
                        now: map<string, string>, key: string)
    requires AllCurrent(stores, seen, route) && n in stores && n == route(key)
    requires Current(s.list, now, route, n) && Elsewhere(seen, now, key)
    ensures AllCurrent(stores[n := s], now, route)
  {
    forall m | m in stores && m != n ensures Current(stores[m].list, now, route, m) {
      assert Current(stores[m].list, seen, route, m);
    }
    hide Current;
  }

  lemma CurrentPlaced(stores: Stores, seen: map<string, string>, route: string -> string)
    requires AllCurrent(stores, seen, route)
    ensures Placed(stores, route)
  {
    forall n, k | n in stores && k in Keys(stores[n].list) ensures route(k) == n {
      assert Current(stores[n].list, seen, route, n);
    }
  }

  // ----- Adding a node -----

  /** One step of the migration: the pair is Set at the new node, then Deleted at the old one. */
  datatype Move = Move(from: string, key: string)

  ghost predicate Enabled(stores: Stores, to: string, m: Move) {
    m.from in stores && to in stores && m.from != to && Lookup(stores[m.from].list, m.key).Some?
  }

  ghost function MoveOne(stores: Stores, to: string, m: Move): Stores {
    if Enabled(stores, to, m) then
      var value := Lookup(stores[m.from].list, m.key).value;
      stores[to := Put(stores[to], m.key, value)][m.from := Delete(stores[m.from], m.key)]
    else stores
  }

  ghost function MoveAll(stores: Stores, to: string, moves: seq<Move>): Stores {
    if moves == [] then stores
    else MoveOne(MoveAll(stores, to, moves[..|moves| - 1]), to, moves[|moves| - 1])
  }

  /** A schedule the migration loop can take: each move finds its key in a scanned store, and
      the key now routes to the new node. */
  ghost predicate Schedule(stores: Stores, to: string, moves: seq<Move>, route: string -> string,
                           scanned: set<string>)
  {
    moves == [] ||
    (var before, m := moves[..|moves| - 1], moves[|moves| - 1];
     && Schedule(stores, to, before, route, scanned)
     && m.from in scanned && Enabled(MoveAll(stores, to, before), to, m) && route(m.key) == to)
  }

  /** No scanned store still holds a key of the new node. */
  ghost predicate Exhausted(stores: Stores, to: string, route: string -> string, scanned: set<string>) {
    forall n, k :: n in scanned && n in stores && n != to && Lookup(stores[n].list, k).Some? ==> route(k) != to
  }

  /** Moving on never brings a key back to a store that is not the target. */
  lemma {:induction false} ExhaustedKept(stores: Stores, to: string, m: Move, route: string -> string,
                                         scanned: set<string>)
    requires AllStores(stores) && Exhausted(stores, to, route, scanned)
    ensures Exhausted(MoveOne(stores, to, m), to, route, scanned)
  {
    if Enabled(stores, to, m) {
      MoveSource(stores, to, m);
    }
  }

  lemma ExhaustedWider(stores: Stores, to: string, route: string -> string, done: set<string>, scanned: set<string>)
    requires Exhausted(stores, to, route, done)
    requires forall n :: n in scanned && n in stores && n != to ==> n in done
    ensures Exhausted(stores, to, route, scanned)
  {
  }

  /** The store a key is moved from loses that key and no other. */
  lemma MoveSource(stores: Stores, to: string, m: Move)
    requires AllStores(stores) && Enabled(stores, to, m)
    ensures MoveOne(stores, to, m).Keys == stores.Keys
    ensures forall k :: Lookup(MoveOne(stores, to, m)[m.from].list, k) ==
                          if k == m.key then None else Lookup(stores[m.from].list, k)
  {
    DeleteStore(stores[m.from], m.key);
    forall k ensures Lookup(Drop(stores[m.from].list, {m.key}), k) ==
                       if k == m.key then None else Lookup(stores[m.from].list, k) {
      LookupDrop(stores[m.from].list, {m.key}, k);
    }
  }

  lemma ScheduleNext(stores: Stores, to: string, moves: seq<Move>, m: Move, route: string -> string,
                     scanned: set<string>)
    requires Schedule(stores, to, moves, route, scanned) && m.from in scanned
    requires Enabled(MoveAll(stores, to, moves), to, m) && route(m.key) == to
    ensures Schedule(stores, to, moves + [m], route, scanned)
    ensures MoveAll(stores, to, moves + [m]) == MoveOne(MoveAll(stores, to, moves), to, m)
  {
    assert (moves + [m])[..|moves|] == moves;
  }

  /** The keys stored somewhere that route to `to`. */
  ghost function Incoming(stores: Stores, to: string, route: string -> string): set<string> {
    set n, k | n in stores && k in Keys(stores[n].list) && route(k) == to :: k
  }

  lemma {:induction false} MoveAllStores(stores: Stores, to: string, moves: seq<Move>)
    requires AllStores(stores) && to in stores
    ensures AllStores(MoveAll(stores, to, moves))
    ensures MoveAll(stores, to, moves).Keys == stores.Keys
    ensures forall n :: n in stores ==> MoveAll(stores, to, moves)[n].capacity == stores[n].capacity
  {
    hide Put, Delete;
    if moves != [] {
      var n := |moves| - 1;
      MoveAllStores(stores, to, moves[..n]);
      var s, m := MoveAll(stores, to, moves[..n]), moves[n];
      if Enabled(s, to, m) {
        PutStore(s[to], m.key, Lookup(s[m.from].list, m.key).value);
        DeleteStore(s[m.from], m.key);
      }
    }
  }

  /** Halfway through: `moved` has left the old stores and is all the new one holds. */
  ghost predicate Progress(before: Stores, stores: Stores, to: string, route: string -> string, moved: set<string>) {
    && stores.Keys == before.Keys + {to}
    && (forall n :: n in before ==> stores[n].list == Drop(before[n].list, moved))
    && Keys(stores[to].list) == moved
    && (forall k :: k in moved ==> Lookup(stores[to].list, k) == Find(before, route, k))
  }

  lemma {:induction false} MoveProgress(before: Stores, stores: Stores, to: string, route: string -> string,
                                        moved: set<string>, m: Move)
    requires AllStores(before) && Placed(before, route) && to !in before
    requires AllStores(stores) && Progress(before, stores, to, route, moved)
    requires Enabled(stores, to, m) && |stores[to].list| < stores[to].capacity
    ensures m.key !in moved && Progress(before, MoveOne(stores, to, m), to, route, moved + {m.key})
  {
    hide Put, Delete;
    var value := Lookup(stores[m.from].list, m.key).value;
    var after := MoveOne(stores, to, m);
    SourceHolds(before, stores, to, route, moved, m);
    forall n | n in before ensures after[n].list == Drop(before[n].list, moved + {m.key}) {
      MoveOthers(before, stores, to, route, moved, m, n);
    }
    MoveTarget(before, stores, to, route, moved, m);
  }

  lemma SourceHolds(before: Stores, stores: Stores, to: string, route: string -> string, moved: set<string>, m: Move)
    requires Placed(before, route) && to !in before && Progress(before, stores, to, route, moved)
    requires Enabled(stores, to, m)
    ensures m.key !in moved && m.key in Keys(before[m.from].list) && route(m.key) == m.from
    ensures Lookup(stores[m.from].list, m.key) == Lookup(before[m.from].list, m.key) == Find(before, route, m.key)
  {
    LookupDrop(before[m.from].list, moved, m.key);
  }

  lemma MoveTarget(before: Stores, stores: Stores, to: string, route: string -> string, moved: set<string>, m: Move)
    requires AllStores(stores) && Enabled(stores, to, m) && |stores[to].list| < stores[to].capacity
    requires Keys(stores[to].list) == moved && forall k :: k in moved ==>
        Lookup(stores[to].list, k) == Find(before, route, k)
    requires Lookup(stores[m.from].list, m.key) == Find(before, route, m.key)
    ensures var list := MoveOne(stores, to, m)[to].list;
            Keys(list) == moved + {m.key} && forall k :: k in moved + {m.key} ==>
                Lookup(list, k) == Find(before, route, k)
  {
    hide Put, Delete;
    var value := Lookup(stores[m.from].list, m.key).value;
    PutStore(stores[to], m.key, value);
    forall k ensures Lookup(MoveOne(stores, to, m)[to].list, k) ==
                       if k == m.key then Some(value) else Lookup(stores[to].list, k)
    {
      PutRoom(stores[to], m.key, value, k);
    }
  }

  lemma MoveOthers(before: Stores, stores: Stores, to: string, route: string -> string,
                   moved: set<string>, m: Move, n: string)
    requires Placed(before, route) && to !in before && n in before
    requires AllStores(stores) && Progress(before, stores, to, route, moved)
    requires Enabled(stores, to, m) && m.key in Keys(before[m.from].list)
    ensures MoveOne(stores, to, m)[n].list == Drop(before[n].list, moved + {m.key})
  {
    hide Put;
    DropTwice(before[n].list, moved, {m.key});
    if n == m.from {
      DeleteStore(stores[n], m.key);
    } else {
      DropIn(before[n].list, moved);
      assert m.key !in Keys(before[n].list);
      DropAbsent(stores[n].list, {m.key});
    }
  }

  ghost function Moved(moves: seq<Move>): set<string> {
    if moves == [] then {} else Moved(moves[..|moves| - 1]) + {moves[|moves| - 1].key}
  }

  lemma StartProgress(before: Stores, to: string, route: string -> string)
    requires to !in before
    ensures Progress(before, Joined(before, to), to, route, {})
  {
    forall n | n in before ensures Drop(before[n].list, {}) == before[n].list {
      DropAbsent(before[n].list, {});
    }
    assert Keys([]) == {};
  }

  /** Along any schedule, as long as the keys of the new node fit it, everything moved so far
      is at the new node and everything else is where it was. */
  lemma {:induction false} ScheduleProgress(before: Stores, to: string, moves: seq<Move>,
                                            prior: string -> string, route: string -> string, scanned: set<string>)
    requires AllStores(before) && Placed(before, prior) && to !in before
    requires Schedule(Joined(before, to), to, moves, route, scanned)
    requires |Incoming(before, to, route)| <= STORE_CAPACITY
    ensures Moved(moves) <= Incoming(before, to, route) && |Moved(moves)| == |moves|
    ensures Progress(before, MoveAll(Joined(before, to), to, moves), to, prior, Moved(moves))
  {
    hide MoveOne, Enabled, Drop, Find, Placed, Incoming;
    var start := Joined(before, to);
    StartProgress(before, to, prior);
    if moves != [] {
      var n := |moves| - 1;
      ScheduleProgress(before, to, moves[..n], prior, route, scanned);
      MoveAllStores(start, to, moves[..n]);
      assert Enabled(MoveAll(start, to, moves[..n]), to, moves[n]) && route(moves[n].key) == to;
      ScheduleStep(before, MoveAll(start, to, moves[..n]), to, prior, route, Moved(moves[..n]), moves[n]);
    }
  }

  lemma ScheduleStep(before: Stores, stores: Stores, to: string, prior: string -> string, route: string -> string,
                     moved: set<string>, m: Move)
    requires AllStores(before) && Placed(before, prior) && AllStores(stores) && to !in before
    requires Progress(before, stores, to, prior, moved) && stores[to].capacity == STORE_CAPACITY
    requires Enabled(stores, to, m) && route(m.key) == to && moved <= Incoming(before, to, route)
    requires |Incoming(before, to, route)| <= STORE_CAPACITY
    ensures m.key in Incoming(before, to, route) && m.key !in moved
    ensures Progress(before, MoveOne(stores, to, m), to, prior, moved + {m.key})
  {
    hide Put, Delete, Drop;
    SourceHolds(before, stores, to, prior, moved, m);
    assert |stores[to].list| < STORE_CAPACITY by {
      KeysCount(stores[to].list);
      StrictSubset(moved, Incoming(before, to, route), m.key);
    }
    MoveProgress(before, stores, to, prior, moved, m);
  }

  /** What the migration of AddNode starts from and ends with. */
  ghost predicate Migrated(before: Stores, to: string, moves: seq<Move>,
                           prior: string -> string, route: string -> string, scanned: set<string>)
  {
    && AllStores(before) && Placed(before, prior) && to !in before
    && (forall k :: route(k) == prior(k) || route(k) == to)
    && (forall k :: k in Incoming(before, to, route) ==> prior(k) in scanned)
    && Schedule(Joined(before, to), to, moves, route, scanned)
    && Exhausted(MoveAll(Joined(before, to), to, moves), to, route, scanned)
  }

  /** The new node joins with an empty store; re-adding a member empties the one it had. */
  function Joined(before: Stores, to: string): Stores {
    before[to := Empty(STORE_CAPACITY, 0)]
  }

  lemma JoinedStores(before: Stores, to: string)
    requires AllStores(before)
    ensures AllStores(Joined(before, to)) && Joined(before, to).Keys == before.Keys + {to}
  {
  }

  /** Migration completeness: the new node's keys end up there and nowhere else, every other key
      stays put, every lookup answers as before, and the moves are as many as the keys that
      changed hands. */
  lemma AddComplete(before: Stores, to: string, moves: seq<Move>,
                    prior: string -> string, route: string -> string, scanned: set<string>)
    requires Migrated(before, to, moves, prior, route, scanned)
    requires |Incoming(before, to, route)| <= STORE_CAPACITY
    ensures var after := MoveAll(Joined(before, to), to, moves);
            && Placed(after, route)
            && (forall k :: Find(after, route, k) == Find(before, prior, k))
            && |moves| == |Incoming(before, to, route)|
  {
    var after := MoveAll(Joined(before, to), to, moves);
    ScheduleProgress(before, to, moves, prior, route, scanned);
    AllMoved(before, after, to, prior, route, scanned, Moved(moves));
    PlacedAfterMove(before, after, to, prior, route, Moved(moves));
    forall k ensures Find(after, route, k) == Find(before, prior, k) {
      FindAfterMove(before, after, to, prior, route, Moved(moves), k);
    }
  }

  lemma AllMoved(before: Stores, after: Stores, to: string, prior: string -> string, route: string -> string,
                 scanned: set<string>, moved: set<string>)
    requires Placed(before, prior) && to !in before && Progress(before, after, to, prior, moved)
    requires forall k :: k in Incoming(before, to, route) ==> prior(k) in scanned
    requires Exhausted(after, to, route, scanned)
    requires moved <= Incoming(before, to, route)
    ensures moved == Incoming(before, to, route)
  {
    forall k | k in Incoming(before, to, route) ensures k in moved {
      var n :| n in before && k in Keys(before[n].list) && route(k) == to;
      DropIn(before[n].list, moved);
      var kept := after[n].list;
      assert k !in moved ==> k in Keys(kept);
    }
  }

  lemma PlacedAfterMove(before: Stores, after: Stores, to: string, prior: string -> string, route: string -> string,
                        moved: set<string>)
    requires Placed(before, prior) && to !in before && Progress(before, after, to, prior, moved)
    requires forall k :: route(k) == prior(k) || route(k) == to
    requires moved == Incoming(before, to, route)
    ensures Placed(after, route)
  {
    forall n, k | n in after && k in Keys(after[n].list) ensures route(k) == n {
      if n in before {
        DropIn(before[n].list, moved);
        assert k in Keys(before[n].list) && k !in moved;
      }
    }
  }

  /** Only keys of scanned stores ever move. */
  lemma {:induction false} MovedWereScanned(before: Stores, to: string, moves: seq<Move>,
                                            prior: string -> string, route: string -> string, scanned: set<string>)
    requires AllStores(before) && Placed(before, prior) && to !in before
    requires Schedule(Joined(before, to), to, moves, route, scanned)
    requires |Incoming(before, to, route)| <= STORE_CAPACITY
    ensures forall k :: k in Moved(moves) ==> prior(k) in scanned
  {
    hide MoveOne, Enabled, Drop, Find, Incoming;
    if moves != [] {
      var n := |moves| - 1;
      MovedWereScanned(before, to, moves[..n], prior, route, scanned);
      ScheduleProgress(before, to, moves[..n], prior, route, scanned);
      SourceHolds(before, MoveAll(Joined(before, to), to, moves[..n]), to, prior, Moved(moves[..n]), moves[n]);
    }
  }

  /** What AddNode starts from and ends with, whatever the node, the collisions and the room: a ring
      change that moves keys to `to` or not at all, and a migration that ran over `scanned`. */
  ghost predicate Rebalanced(before: Stores, to: string, moves: seq<Move>,
                             prior: string -> string, route: string -> string, scanned: set<string>)
  {
    && AllStores(before) && Placed(before, prior)
    && (forall k :: route(k) == prior(k) || route(k) == to)
    && Schedule(Joined(before, to), to, moves, route, scanned)
    && Exhausted(MoveAll(Joined(before, to), to, moves), to, route, scanned)
  }

  /** Every lookup answers as before. */
  ghost predicate Conserved(before: Stores, prior: string -> string, after: Stores, route: string -> string) {
    forall k :: Find(after, route, k) == Find(before, prior, k)
  }

  /** Every key the new node takes over had its old owner scanned. */
  ghost predicate AllScanned(before: Stores, to: string, prior: string -> string, route: string -> string,
                             scanned: set<string>)
  {
    forall k :: k in Incoming(before, to, route) ==> prior(k) in scanned
  }

  /** A fresh node keeps the data exactly when it has room and no key was missed. */
  lemma FreshConservesIff(before: Stores, to: string, moves: seq<Move>,
                          prior: string -> string, route: string -> string, scanned: set<string>)
    requires Rebalanced(before, to, moves, prior, route, scanned) && to !in before
    ensures Conserved(before, prior, MoveAll(Joined(before, to), to, moves), route)
            <==> |Incoming(before, to, route)| <= STORE_CAPACITY && AllScanned(before, to, prior, route, scanned)
  {
    var after := MoveAll(Joined(before, to), to, moves);
    if |Incoming(before, to, route)| > STORE_CAPACITY {
      NoRoom(before, to, moves, prior, route, scanned);
    } else if AllScanned(before, to, prior, route, scanned) {
      AddComplete(before, to, moves, prior, route, scanned);
    } else {
      var k :| k in Incoming(before, to, route) && prior(k) !in scanned;
      ScheduleProgress(before, to, moves, prior, route, scanned);
      MovedWereScanned(before, to, moves, prior, route, scanned);
      assert k !in Keys(after[to].list);
      assert Find(after, route, k) != Find(before, prior, k);
    }
  }

  lemma NoRoom(before: Stores, to: string, moves: seq<Move>,
               prior: string -> string, route: string -> string, scanned: set<string>)
    requires Rebalanced(before, to, moves, prior, route, scanned) && to !in before
    requires |Incoming(before, to, route)| > STORE_CAPACITY
    ensures !Conserved(before, prior, MoveAll(Joined(before, to), to, moves), route)
  {
    var after := MoveAll(Joined(before, to), to, moves);
    MoveAllStores(Joined(before, to), to, moves);
    KeysCount(after[to].list);
    if Incoming(before, to, route) <= Keys(after[to].list) {
      SubsetSize(Incoming(before, to, route), Keys(after[to].list));
    }
    var k :| k in Incoming(before, to, route) && k !in Keys(after[to].list);
    assert Find(after, route, k) != Find(before, prior, k);
  }

  // ----- Whatever the room, nothing is made up -----

  /** Every pair of `list` is one of `whole`. */
  ghost predicate Part(list: seq<Entry>, whole: seq<Entry>) {
    forall k :: Lookup(list, k).Some? ==> Lookup(list, k) == Lookup(whole, k)
  }

  /** The new node's list holds nothing but keys that route to it, with the values they had. */
  ghost predicate Arrived(before: Stores, list: seq<Entry>, to: string, prior: string -> string,
                          route: string -> string)
  {
    forall k :: Lookup(list, k).Some? ==> k in Incoming(before, to, route) && Lookup(list, k) == Find(before, prior, k)
  }

  /** Wherever a pair is now, it was stored before. */
  ghost predicate Within(before: Stores, stores: Stores, to: string, prior: string -> string, route: string -> string) {
    && AllStores(stores) && stores.Keys == before.Keys + {to}
    && (forall n :: n in before ==> Part(stores[n].list, before[n].list))
    && Arrived(before, stores[to].list, to, prior, route)
  }

  lemma DeletePart(s: Lru, key: string, whole: seq<Entry>)
    requires Store(s) && Part(s.list, whole)
    ensures Part(Delete(s, key).list, whole)
  {
    hide Delete;
    DeleteStore(s, key);
    forall k { LookupDrop(s.list, {key}, k); }
  }

  lemma PutArrived(before: Stores, s: Lru, to: string, prior: string -> string, route: string -> string,
                   key: string, value: string)
    requires Store(s) && Arrived(before, s.list, to, prior, route)
    requires key in Incoming(before, to, route) && Find(before, prior, key) == Some(value)
    ensures Arrived(before, Put(s, key, value).list, to, prior, route)
  {
    hide Put, Incoming, Find;
    forall k { PutOnlyAdds(s, key, value, k); }
  }

  lemma WithinStep(before: Stores, stores: Stores, to: string, prior: string -> string, route: string -> string,
                   m: Move)
    requires AllStores(before) && Placed(before, prior) && to !in before && Within(before, stores, to, prior, route)
    requires Enabled(stores, to, m) && route(m.key) == to
    ensures Within(before, MoveOne(stores, to, m), to, prior, route)
  {
    var value := Lookup(stores[m.from].list, m.key).value;
    assert m.key in Incoming(before, to, route) && Find(before, prior, m.key) == Some(value) by {
      assert m.from in before && Part(stores[m.from].list, before[m.from].list);
      assert m.key in Keys(before[m.from].list);
    }
    hide Put, Delete, Incoming, Find, Part, Arrived, Lookup, Placed;
    PutStore(stores[to], m.key, value);
    DeleteStore(stores[m.from], m.key);
    PutArrived(before, stores[to], to, prior, route, m.key, value);
    DeletePart(stores[m.from], m.key, before[m.from].list);
  }

  lemma {:induction false} MovesWithin(before: Stores, to: string, moves: seq<Move>,
                                       prior: string -> string, route: string -> string, scanned: set<string>)
    requires AllStores(before) && Placed(before, prior) && to !in before
    requires Schedule(Joined(before, to), to, moves, route, scanned)
    ensures Within(before, MoveAll(Joined(before, to), to, moves), to, prior, route)
  {
    hide MoveOne, Enabled, Incoming, Find, Lookup;
    if moves != [] {
      var n := |moves| - 1;
      MovesWithin(before, to, moves[..n], prior, route, scanned);
      WithinStep(before, MoveAll(Joined(before, to), to, moves[..n]), to, prior, route, moves[n]);
    }
  }

  /** AddNode keeps the data exactly when the node's store, if it had one, was empty, it has room for
      every key it takes over from others, and the old owner of each of these was scanned. Any node,
      member or not; any positions, taken or not. */
  lemma AddConservesIff(before: Stores, to: string, moves: seq<Move>,
                        prior: string -> string, route: string -> string, scanned: set<string>)
    requires Rebalanced(before, to, moves, prior, route, scanned)
    ensures var others := before - {to};
            Conserved(before, prior, MoveAll(Joined(before, to), to, moves), route)
            <==> && (to in before ==> before[to].list == [])
                 && |Incoming(others, to, route)| <= STORE_CAPACITY
                 && AllScanned(others, to, prior, route, scanned)
  {
    var others := before - {to};
    var after := MoveAll(Joined(before, to), to, moves);
    assert Joined(others, to) == Joined(before, to);
    FreshConservesIff(others, to, moves, prior, route, scanned);
    if to in before && before[to].list != [] {
      ResetLoses(before, to, moves, prior, route, scanned);
    } else {
      forall k ensures Find(others, prior, k) == Find(before, prior, k) {
      }
    }
  }

  /** A key of the emptied store is nowhere else to be moved from. */
  lemma ResetLoses(before: Stores, to: string, moves: seq<Move>,
                   prior: string -> string, route: string -> string, scanned: set<string>)
    requires Rebalanced(before, to, moves, prior, route, scanned) && to in before && before[to].list != []
    ensures !Conserved(before, prior, MoveAll(Joined(before, to), to, moves), route)
  {
    var others := before - {to};
    var after := MoveAll(Joined(before, to), to, moves);
    assert Joined(others, to) == Joined(before, to);
    MovesWithin(others, to, moves, prior, route, scanned);
    var k := before[to].list[0].key;
    assert k in Keys(before[to].list) by { assert before[to].list[0] in before[to].list; }
    assert prior(k) == to == route(k);
    assert k !in Incoming(others, to, route);
    hide MoveAll, Schedule, Exhausted, Incoming;
    assert Arrived(others, after[to].list, to, prior, route);
    assert Find(after, route, k) != Find(before, prior, k);
  }

  /** Adding a member again without changing any route: the cluster loses nothing exactly when that
      member's store was empty. */
  lemma ReAddIff(before: Stores, to: string, moves: seq<Move>, route: string -> string, scanned: set<string>)
    requires Rebalanced(before, to, moves, route, route, scanned) && to in before
    ensures Conserved(before, route, MoveAll(Joined(before, to), to, moves), route) <==> before[to].list == []
  {
    AddConservesIff(before, to, moves, route, route, scanned);
    assert Incoming(before - {to}, to, route) == {};
  }

  /** Every key of `list` routes to `n` and has the value a lookup found before. */
  ghost predicate AtHome(before: Stores, prior: string -> string, list: seq<Entry>, route: string -> string,
                         n: string)
  {
    forall k :: Lookup(list, k).Some? ==> route(k) == n && Lookup(list, k) == Find(before, prior, k)
  }

  /** With room or without: if the old owner of each key taken over was scanned, every stored key sits
      at its owner again, with the value it had before. */
  lemma AddKeepsPlaced(before: Stores, to: string, moves: seq<Move>,
                       prior: string -> string, route: string -> string, scanned: set<string>)
    requires Rebalanced(before, to, moves, prior, route, scanned)
    requires AllScanned(before - {to}, to, prior, route, scanned)
    ensures var after := MoveAll(Joined(before, to), to, moves);
            && AllStores(after) && after.Keys == before.Keys + {to}
            && forall n :: n in after ==> AtHome(before, prior, after[n].list, route, n)
  {
    var others := before - {to};
    var after := MoveAll(Joined(before, to), to, moves);
    assert Joined(others, to) == Joined(before, to);
    MovesWithin(others, to, moves, prior, route, scanned);
    hide MoveAll, Schedule, Exhausted, Incoming, Find, Lookup, AtHome;
    forall n | n in after ensures AtHome(before, prior, after[n].list, route, n) {
      if n == to {
        ArrivedHome(before, to, after[to].list, prior, route);
      } else {
        KeptHome(before, after, to, n, prior, route, scanned);
      }
    }
  }

  lemma ArrivedHome(before: Stores, to: string, list: seq<Entry>, prior: string -> string, route: string -> string)
    requires Placed(before, prior) && Arrived(before - {to}, list, to, prior, route)
    ensures AtHome(before, prior, list, route, to)
  {
    var others := before - {to};
    forall k | Lookup(list, k).Some? ensures Find(others, prior, k) == Find(before, prior, k) && route(k) == to {
      var m :| m in others && k in Keys(others[m].list) && route(k) == to;
    }
  }

  lemma OthersScanned(before: Stores, to: string, prior: string -> string, route: string -> string,
                      scanned: set<string>)
    requires Placed(before, prior) && AllScanned(before - {to}, to, prior, route, scanned)
    ensures forall n, k :: n in before && n != to && k in Keys(before[n].list) && route(k) == to ==> n in scanned
  {
    forall n, k | n in before && n != to && k in Keys(before[n].list) && route(k) == to ensures n in scanned {
      assert n in before - {to} && k in Incoming(before - {to}, to, route);
    }
  }

  lemma KeptHome(before: Stores, after: Stores, to: string, n: string,
                 prior: string -> string, route: string -> string, scanned: set<string>)
    requires Placed(before, prior) && n in before && n in after && n != to && Part(after[n].list, before[n].list)
    requires forall k :: route(k) == prior(k) || route(k) == to
    requires AllScanned(before - {to}, to, prior, route, scanned) && Exhausted(after, to, route, scanned)
    ensures AtHome(before, prior, after[n].list, route, n)
  {
    OthersScanned(before, to, prior, route, scanned);
    hide AllScanned;
    forall k | Lookup(after[n].list, k).Some?
      ensures Lookup(after[n].list, k) == Find(before, prior, k) && route(k) == n
    {
      assert k in Keys(before[n].list) && prior(k) == n;
    }
  }

  lemma FindAfterMove(before: Stores, after: Stores, to: string, prior: string -> string, route: string -> string,
                      moved: set<string>, k: string)
    requires Placed(before, prior) && to !in before && (route(k) == prior(k) || route(k) == to)
    requires Progress(before, after, to, prior, moved)
    requires moved == Incoming(before, to, route)
    ensures Find(after, route, k) == Find(before, prior, k)
  {
    if route(k) != to {
      if prior(k) in before {
        LookupDrop(before[prior(k)].list, moved, k);
      }
    } else if k !in moved && prior(k) in before {
      assert k !in Keys(before[prior(k)].list);
    }
  }

  lemma StrictSubset(a: set<string>, b: set<string>, k: string)
    requires a <= b && k in b && k !in a
    ensures |a| < |b|
  {
    SubsetSize(a + {k}, b);
  }

  lemma SubsetSize(a: set<string>, b: set<string>)
    requires a <= b
    ensures |a| <= |b|
  {
    assert b == a + (b - a) && a !! (b - a);
  }

  // ----- Removing a node -----

  /** redistributeDataBasic, for one order of the removed node's pairs. */
  ghost function PutEach(stores: Stores, route: string -> string, order: seq<Entry>): Stores {
    if order == [] then stores
    else
      var e := order[|order| - 1];
      var s := PutEach(stores, route, order[..|order| - 1]);
      if route(e.key) in s then s[route(e.key) := Put(s[route(e.key)], e.key, e.value)] else s
  }

  lemma PutEachNone(stores: Stores, route: string -> string)
    ensures PutEach(stores, route, []) == stores
  {
  }

  lemma PutEachNext(stores: Stores, route: string -> string, order: seq<Entry>, e: Entry)
    requires route(e.key) in PutEach(stores, route, order)
    ensures var s := PutEach(stores, route, order);
            PutEach(stores, route, order + [e]) == s[route(e.key) := Put(s[route(e.key)], e.key, e.value)]
  {
    assert (order + [e])[..|order|] == order;
  }

  /** The removed node's keys that now route to `m`. */
  ghost function Inbound(list: seq<Entry>, route: string -> string, m: string): set<string> {
    set k | k in Keys(list) && route(k) == m
  }

  ghost predicate RoomAt(before: Stores, node: string, route: string -> string, m: string)
    requires node in before && m in before
  {
    |before[m].list| + |Inbound(before[node].list, route, m)| <= before[m].capacity
  }

  /** Every survivor has room for what it inherits. */
  ghost predicate RoomForAll(before: Stores, node: string, route: string -> string)
    requires node in before
  {
    forall m :: m in before && m != node ==> RoomAt(before, node, route, m)
  }

  /** What RemoveNode starts from: the survivors, and one order of the removed pairs. */
  ghost predicate Orphaned(before: Stores, node: string, order: seq<Entry>, prior: string -> string,
                           route: string -> string)
  {
    && AllStores(before) && Placed(before, prior) && node in before
    && IsOrder(order, Data(before[node]))
    && (forall k :: prior(k) != node ==> route(k) == prior(k))
    && (forall k :: k in Keys(before[node].list) ==> route(k) in before && route(k) != node)
  }

  /** The keys of `gone` in `done` that route to `m` are in `list`, next to all of `own`. */
  ghost predicate SpreadAt(gone: seq<Entry>, own: seq<Entry>, list: seq<Entry>, route: string -> string, m: string,
                           done: set<string>)
  {
    forall k :: Lookup(list, k) == if k in done && route(k) == m then Lookup(gone, k) else Lookup(own, k)
  }

  /** Halfway through: the keys in `done` are at their new owner next to what was there. */
  ghost predicate Spread(before: Stores, stores: Stores, node: string, route: string -> string, done: set<string>)
    requires node in before
  {
    && stores.Keys == before.Keys - {node}
    && (forall m :: m in stores ==> Store(stores[m]) && stores[m].capacity == before[m].capacity)
    && (forall m :: m in stores ==> SpreadAt(before[node].list, before[m].list, stores[m].list, route, m, done))
  }

  lemma {:induction false} PutEachStores(before: Stores, node: string, route: string -> string, order: seq<Entry>)
    requires AllStores(before)
    ensures var s := PutEach(before - {node}, route, order);
            && s.Keys == before.Keys - {node}
            && forall m :: m in s ==> Store(s[m]) && s[m].capacity == before[m].capacity
  {
    hide Put;
    if order != [] {
      var n := |order| - 1;
      PutEachStores(before, node, route, order[..n]);
      var s := PutEach(before - {node}, route, order[..n]);
      if route(order[n].key) in s {
        PutStore(s[route(order[n].key)], order[n].key, order[n].value);
      }
    }
  }

  /** A survivor that has not received `k` yet still has room for it. */
  lemma InboundFits(before: Stores, stores: Stores, node: string, route: string -> string, done: set<string>, k: string)
    requires AllStores(before) && node in before && Spread(before, stores, node, route, done)
    requires k in Keys(before[node].list) && k !in done && route(k) in stores
    requires k !in Keys(before[route(k)].list) && RoomAt(before, node, route, route(k))
    ensures |stores[route(k)].list| < stores[route(k)].capacity
  {
    var m := route(k);
    var list, own, inherited := stores[m].list, Keys(before[m].list), Inbound(before[node].list, route, m);
    assert Store(stores[m]) && Store(before[m]) && stores[m].capacity == before[m].capacity;
    forall x | x in Keys(list) ensures x in own + inherited && x != k {
      assert Lookup(list, x) ==
               if x in done && route(x) == m then Lookup(before[node].list, x) else Lookup(before[m].list, x);
    }
    RoomCount(list, before[m].list, inherited, k);
  }

  lemma RoomCount(list: seq<Entry>, former: seq<Entry>, inherited: set<string>, k: string)
    requires Distinct(list) && Distinct(former) && k in inherited
    requires forall x :: x in Keys(list) ==> x in Keys(former) + inherited && x != k
    ensures |list| < |former| + |inherited|
  {
    KeysCount(list);
    KeysCount(former);
    StrictSubset(Keys(list), Keys(former) + inherited, k);
    UnionSize(Keys(former), inherited);
  }

  lemma UnionSize(a: set<string>, b: set<string>)
    ensures |a + b| <= |a| + |b|
  {
    assert a + b == a + (b - a) && a !! (b - a);
    SubsetSize(b - a, b);
  }

  lemma OrderEntry(order: seq<Entry>, s: Lru, n: nat)
    requires IsOrder(order, Data(s)) && n < |order|
    ensures order[n].key in Keys(s.list) && Lookup(s.list, order[n].key) == Some(order[n].value)
    ensures order[n].key !in Keys(order[..n])
    ensures Keys(order[..n + 1]) == Keys(order[..n]) + {order[n].key}
  {
    assert order[n] in order && order[n].key in Data(s);
    assert order[..n + 1] == order[..n] + [order[n]];
    forall e | e in order[..n] ensures e.key != order[n].key {
      var i :| 0 <= i < n && order[i] == e;
    }
  }

  /** The `i`-th pair redistributed: new to its target, and not yet handed out. */
  ghost predicate Entrant(before: Stores, node: string, order: seq<Entry>, route: string -> string, i: nat) {
    && i < |order| && node in before
    && (var k := order[i].key;
        && k in Keys(before[node].list) && Lookup(before[node].list, k) == Some(order[i].value)
        && k !in Keys(order[..i]) && Keys(order[..i + 1]) == Keys(order[..i]) + {k}
        && route(k) in before && route(k) != node && k !in Keys(before[route(k)].list))
  }

  lemma AllEntrants(before: Stores, node: string, order: seq<Entry>, prior: string -> string, route: string -> string,
                    i: nat)
    requires Orphaned(before, node, order, prior, route) && i < |order|
    ensures Entrant(before, node, order, route, i)
  {
    OrderEntry(order, before[node], i);
    var k := order[i].key;
    assert prior(k) == node && route(k) != node;
  }

  lemma {:induction false} SpreadOrder(before: Stores, node: string, order: seq<Entry>, n: nat, route: string -> string)
    requires AllStores(before) && node in before && RoomForAll(before, node, route)
    requires forall i :: 0 <= i < |order| ==> Entrant(before, node, order, route, i)
    requires n <= |order|
    ensures Spread(before, PutEach(before - {node}, route, order[..n]), node, route, Keys(order[..n]))
  {
    hide Put;
    if n == 0 {
      assert Keys(order[..0]) == {};
    } else {
      SpreadOrder(before, node, order, n - 1, route);
      assert order[..n][..n - 1] == order[..n - 1];
      assert Entrant(before, node, order, route, n - 1);
      SpreadNext(before, PutEach(before - {node}, route, order[..n - 1]), node, route, Keys(order[..n - 1]),
          order[n - 1]);
    }
  }

  lemma SpreadNext(before: Stores, s: Stores, node: string, route: string -> string, done: set<string>, e: Entry)
    requires AllStores(before) && node in before && Spread(before, s, node, route, done)
    requires e.key !in done && Lookup(before[node].list, e.key) == Some(e.value)
    requires route(e.key) in s && e.key !in Keys(before[route(e.key)].list) && RoomAt(before, node, route, route(e.key))
    ensures Spread(before, s[route(e.key) := Put(s[route(e.key)], e.key, e.value)], node, route, done + {e.key})
  {
    hide Put;
    InboundFits(before, s, node, route, done, e.key);
    SpreadStep(before, s, node, route, done, e);
  }

  lemma SpreadStep(before: Stores, stores: Stores, node: string, route: string -> string, done: set<string>, e: Entry)
    requires node in before && Spread(before, stores, node, route, done)
    requires route(e.key) in stores && Lookup(before[node].list, e.key) == Some(e.value)
    requires |stores[route(e.key)].list| < stores[route(e.key)].capacity
    ensures var m := route(e.key);
            Spread(before, stores[m := Put(stores[m], e.key, e.value)], node, route, done + {e.key})
  {
    hide Put;
    hide SpreadAt;
    var m := route(e.key);
    PutStore(stores[m], e.key, e.value);
    forall x | x in stores && x != m
      ensures SpreadAt(before[node].list, before[x].list, stores[x].list, route, x, done + {e.key})
    {
      SpreadElsewhere(before[node].list, before[x].list, stores[x].list, route, x, done, e.key);
    }
    PutSpread(before[node].list, before[m].list, stores[m], route, done, e);
  }

  lemma SpreadElsewhere(gone: seq<Entry>, own: seq<Entry>, list: seq<Entry>, route: string -> string, x: string,
                        done: set<string>, key: string)
    requires SpreadAt(gone, own, list, route, x, done) && route(key) != x
    ensures SpreadAt(gone, own, list, route, x, done + {key})
  {
  }

  lemma PutSpread(gone: seq<Entry>, own: seq<Entry>, s: Lru, route: string -> string, done: set<string>, e: Entry)
    requires Store(s) && |s.list| < s.capacity && Lookup(gone, e.key) == Some(e.value)
    requires SpreadAt(gone, own, s.list, route, route(e.key), done)
    ensures SpreadAt(gone, own, Put(s, e.key, e.value).list, route, route(e.key), done + {e.key})
  {
    hide Put;
    forall k { PutRoom(s, e.key, e.value, k); }
  }

  /** With room or without: every key stored after a removal sits at its owner, with the value it had. */
  lemma RemoveKeepsPlaced(before: Stores, node: string, order: seq<Entry>, prior: string -> string,
                          route: string -> string)
    requires Orphaned(before, node, order, prior, route)
    ensures var after := PutEach(before - {node}, route, order);
            && AllStores(after) && after.Keys == before.Keys - {node}
            && forall m :: m in after ==> AtHome(before, prior, after[m].list, route, m)
  {
    PutEachStores(before, node, route, order);
    forall e | e in order ensures Find(before, prior, e.key) == Some(e.value) {
      assert e.key in Keys(before[node].list);
    }
    hide IsOrder, Data, PutEach, Find;
    PutEachHome(before, node, order, prior, route);
  }

  lemma {:induction false} PutEachHome(before: Stores, node: string, order: seq<Entry>,
                                       prior: string -> string, route: string -> string)
    requires AllStores(before) && Placed(before, prior) && node in before
    requires forall k :: prior(k) != node ==> route(k) == prior(k)
    requires forall e :: e in order ==> Find(before, prior, e.key) == Some(e.value)
    ensures forall m :: m in PutEach(before - {node}, route, order) ==>
              AtHome(before, prior, PutEach(before - {node}, route, order)[m].list, route, m)
  {
    if order == [] {
      forall m | m in before - {node} ensures AtHome(before, prior, before[m].list, route, m) {
        forall k | Lookup(before[m].list, k).Some? ensures prior(k) == m {
          assert k in Keys(before[m].list);
        }
      }
    } else {
      hide Find, AtHome, Placed;
      var n := |order| - 1;
      var s := PutEach(before - {node}, route, order[..n]);
      PutEachHome(before, node, order[..n], prior, route);
      PutEachStores(before, node, route, order[..n]);
      assert order[n] in order;
      if route(order[n].key) in s {
        PutHome(before, prior, s[route(order[n].key)], route, order[n].key, order[n].value);
      }
    }
  }

  lemma PutHome(before: Stores, prior: string -> string, s: Lru, route: string -> string, key: string, value: string)
    requires Store(s) && AtHome(before, prior, s.list, route, route(key)) && Find(before, prior, key) == Some(value)
    ensures AtHome(before, prior, Put(s, key, value).list, route, route(key))
  {
    hide Put, Find;
    forall k { PutOnlyAdds(s, key, value, k); }
  }

  /** Removal conserves the data: with room at the survivors, every key is at its new owner and
      nowhere else, and every lookup answers as before. */
  lemma RemoveConserves(before: Stores, node: string, order: seq<Entry>, prior: string -> string,
                        route: string -> string)
    requires Orphaned(before, node, order, prior, route) && RoomForAll(before, node, route)
    ensures var after := PutEach(before - {node}, route, order);
            && node !in after
            && Placed(after, route)
            && forall k :: Find(after, route, k) == Find(before, prior, k)
  {
    forall i | 0 <= i < |order| ensures Entrant(before, node, order, route, i) {
      AllEntrants(before, node, order, prior, route, i);
    }
    SpreadAll(before, node, order, route);
    OrderKeys(order, before[node]);
    ConservedBySpread(before, PutEach(before - {node}, route, order), node, prior, route);
  }

  lemma SpreadAll(before: Stores, node: string, order: seq<Entry>, route: string -> string)
    requires AllStores(before) && node in before && RoomForAll(before, node, route)
    requires forall i :: 0 <= i < |order| ==> Entrant(before, node, order, route, i)
    ensures Spread(before, PutEach(before - {node}, route, order), node, route, Keys(order))
  {
    SpreadOrder(before, node, order, |order|, route);
    assert order[..|order|] == order;
  }

  lemma OrderKeys(order: seq<Entry>, s: Lru)
    requires IsOrder(order, Data(s))
    ensures Keys(order) == Keys(s.list)
  {
    assert Data(s).Keys == Keys(s.list);
  }

  lemma ConservedBySpread(before: Stores, after: Stores, node: string, prior: string -> string, route: string -> string)
    requires Placed(before, prior) && node in before
    requires forall k :: prior(k) != node ==> route(k) == prior(k)
    requires forall k :: k in Keys(before[node].list) ==> route(k) in before && route(k) != node
    requires Spread(before, after, node, route, Keys(before[node].list))
    ensures Placed(after, route)
    ensures forall k :: Find(after, route, k) == Find(before, prior, k)
  {
    PlacedAfterRemove(before, after, node, prior, route);
    forall k ensures Find(after, route, k) == Find(before, prior, k) {
      FindAfterRemove(before, after, node, prior, route, k);
    }
  }

  lemma PlacedAfterRemove(before: Stores, after: Stores, node: string, prior: string -> string, route: string -> string)
    requires Placed(before, prior) && node in before
    requires forall k :: prior(k) != node ==> route(k) == prior(k)
    requires Spread(before, after, node, route, Keys(before[node].list))
    ensures Placed(after, route)
  {
    forall m, k | m in after && k in Keys(after[m].list) ensures route(k) == m {
      assert Lookup(after[m].list, k).Some?;
      assert Lookup(after[m].list, k) ==
               if k in Keys(before[node].list) && route(k) == m then Lookup(before[node].list, k)
                                         else Lookup(before[m].list, k);
      var own := before[m].list;
      assert route(k) != m ==> k in Keys(own);
    }
  }

  lemma FindAfterRemove(before: Stores, after: Stores, node: string, prior: string -> string, route: string -> string,
                        k: string)
    requires Placed(before, prior) && node in before
    requires prior(k) != node ==> route(k) == prior(k)
    requires k in Keys(before[node].list) ==> route(k) in before && route(k) != node
    requires Spread(before, after, node, route, Keys(before[node].list))
    ensures Find(after, route, k) == Find(before, prior, k)
  {
    if route(k) in after {
      var m := route(k);
      assert Lookup(after[m].list, k) ==
               if k in Keys(before[node].list) then Lookup(before[node].list, k) else Lookup(before[m].list, k);
    }
  }

  /** The data survives RemoveNode exactly when every survivor has room for what it inherits. */
  lemma RemoveConservesIff(before: Stores, node: string, order: seq<Entry>, prior: string -> string,
                           route: string -> string)
    requires Orphaned(before, node, order, prior, route)
    ensures (forall k :: Find(PutEach(before - {node}, route, order), route, k) == Find(before, prior, k))
            <==> RoomForAll(before, node, route)
  {
    var after := PutEach(before - {node}, route, order);
    PutEachStores(before, node, route, order);
    if RoomForAll(before, node, route) {
      RemoveConserves(before, node, order, prior, route);
    } else if forall k :: Find(after, route, k) == Find(before, prior, k) {
      var m :| m in before && m != node && !RoomAt(before, node, route, m);
      Overfull(before, after, node, prior, route, m);
      assert false;
    }
  }

  lemma Overfull(before: Stores, after: Stores, node: string, prior: string -> string, route: string -> string,
                 m: string)
    requires AllStores(before) && Placed(before, prior) && node in before && m in before && m != node
    requires forall k :: prior(k) != node ==> route(k) == prior(k)
    requires m in after && Store(after[m]) && after[m].capacity == before[m].capacity
    requires forall k :: Find(after, route, k) == Find(before, prior, k)
    ensures RoomAt(before, node, route, m)
  {
    var own, inherited := Keys(before[m].list), Inbound(before[node].list, route, m);
    forall k | k in own + inherited ensures k in Keys(after[m].list) {
      assert Find(after, route, k) == Find(before, prior, k);
    }
    assert own !! inherited;
    SubsetSize(own + inherited, Keys(after[m].list));
    KeysCount(before[m].list);
    KeysCount(after[m].list);
  }
}
