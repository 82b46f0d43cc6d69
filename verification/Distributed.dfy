/** core/distributed_cache.go: the ring, one LRU cache per node, and the migrations that keep
    them in step. */
module Distributed {
  import opened Wrappers
  import opened LruSpec
  import opened LruHeap
  import opened ConsistentHash
  import opened Migration

  /** The node list without the first occurrence of `node`. */
  function RemoveFirst(nodes: seq<string>, node: string): seq<string> {
    if nodes == [] then []
    else if nodes[0] == node then nodes[1..]
    else [nodes[0]] + RemoveFirst(nodes[1..], node)
  }

  lemma {:induction false} RemoveFirstAt(nodes: seq<string>, node: string, i: nat)
    requires i <= |nodes| && node !in nodes[..i] && (i < |nodes| ==> nodes[i] == node)
    ensures RemoveFirst(nodes, node) == if i < |nodes| then nodes[..i] + nodes[i + 1..] else nodes
  {
    if i > 0 {
      assert nodes[0] in nodes[..i];
      assert nodes[1..][..i - 1] == nodes[1..i];
      assert forall x :: x in nodes[1..i] ==> x in nodes[..i];
      RemoveFirstAt(nodes[1..], node, i - 1);
    }
  }

  /** The members whose stores the migration visits; an old owner called "" counts as none. */
  ghost function ScannedSet(owners: map<Hash, string>, oldSorted: seq<Hash>, node: string, members: set<string>)
    : set<string>
  {
    set n | n in members && n != "" && Scans(owners, oldSorted, node, n)
  }

  /** An old owner needs no further visit: it is nobody, the new node, no member, or visited. */
  ghost predicate Served(n: string, node: string, members: set<string>, done: set<string>) {
    n == "" || n == node || n !in members || n in done
  }

  /** The old owners of the first `i` new positions are served. */
  ghost predicate ServedUpTo(owners: map<Hash, string>, oldSorted: seq<Hash>, hashes: seq<Hash>, i: nat,
                             node: string, members: set<string>, done: set<string>)
  {
    i <= |hashes| && forall j :: 0 <= j < i ==> Served(OldOwner(owners, oldSorted, hashes[j]), node, members, done)
  }

  lemma ServedNext(owners: map<Hash, string>, oldSorted: seq<Hash>, hashes: seq<Hash>, i: nat,
                   node: string, members: set<string>, before: set<string>, done: set<string>)
    requires ServedUpTo(owners, oldSorted, hashes, i, node, members, before) && i < |hashes| && before <= done
    requires Served(OldOwner(owners, oldSorted, hashes[i]), node, members, done)
    ensures ServedUpTo(owners, oldSorted, hashes, i + 1, node, members, done)
  {
  }

  /** Midway through one store: the keys in `remaining` are still as they were read, and the
      others that are left do not belong to `to`. */
  ghost predicate Visiting(list: seq<Entry>, data: map<string, string>, remaining: set<string>,
                           route: string -> string, to: string)
  {
    && (forall k :: k in remaining ==> k in data && Lookup(list, k) == Some(data[k]))
    && (forall k :: Lookup(list, k).Some? && k !in remaining ==> route(k) != to)
  }

  /** Only moves from `n` were added. */
  ghost predicate GrownFrom(before: seq<Move>, moves: seq<Move>, n: string) {
    before <= moves && forall i :: |before| <= i < |moves| ==> moves[i].from == n
  }

  lemma VisitingStart(s: Lru, route: string -> string, to: string)
    ensures Visiting(s.list, Data(s), Data(s).Keys, route, to)
  {
  }

  lemma VisitingKey(list: seq<Entry>, data: map<string, string>, remaining: set<string>, route: string -> string,
                    to: string, key: string)
    requires Visiting(list, data, remaining, route, to) && key in remaining
    ensures key in data && Lookup(list, key) == Some(data[key])
  {
  }

  lemma VisitingNext(before: seq<Entry>, list: seq<Entry>, data: map<string, string>, remaining: set<string>,
                     route: string -> string, to: string, key: string, moved: bool)
    requires Visiting(before, data, remaining, route, to) && (moved <==> route(key) == to)
    requires forall k :: Lookup(list, k) == if moved && k == key then None else Lookup(before, k)
    ensures Visiting(list, data, remaining - {key}, route, to)
  {
  }

  lemma VisitingEnd(stores: Stores, from: string, data: map<string, string>, route: string -> string, to: string,
                    done: set<string>)
    requires from in stores && Visiting(stores[from].list, data, {}, route, to) && Exhausted(stores, to, route, done)
    ensures Exhausted(stores, to, route, done + {from})
  {
  }

  class DistributedCache {
    const hash: HashFunction
    const virtualNodes: nat
    var hashRing: map<Hash, string>
    var nodes: seq<string>
    var sortedHashes: seq<Hash>
    var localCaches: map<string, LruCache>
    var migratedKeys: nat

    ghost var changes: seq<Change>  // every membership change so far
    ghost var stores: Stores        // the state of every cache
    ghost var Repr: set<object>     // the memory of the caches

    // ----- The invariant -----

    ghost function CurrentRing(): Ring
      reads this`hashRing, this`sortedHashes
    {
      Ring(hashRing, sortedHashes)
    }

    /** The list is sorted and every listed position is in the map, where every position belongs to a
        member. The map may know positions that are no longer listed: see InStep. */
    ghost predicate RingValid()
      reads this`hashRing, this`sortedHashes, this`localCaches
    {
      && Sorted(sortedHashes) && (forall h :: h in sortedHashes ==> h in hashRing)
      && (forall h :: h in hashRing ==> hashRing[h] in localCaches)
      && (virtualNodes == 0 ==> hashRing == map[])
    }

    /** List and map are in step unless a node called "" was ever a member. */
    lemma InStep()
      requires Valid() && Recorded() && "" !in Names(changes)
      ensures Consistent(CurrentRing()) && Named(hashRing) && "" !in localCaches
    {
      EvolveNamed(hash, virtualNodes, changes);
    }

    /** The ring and the members are what the membership changes so far make of them. */
    ghost predicate Recorded()
      reads this`hashRing, this`sortedHashes, this`localCaches, this`changes
    {
      Evolve(hash, virtualNodes, changes) == Membership(CurrentRing(), localCaches.Keys)
    }

    ghost predicate CacheValid(c: LruCache)
      reads c, c.Repr
    {
      c.Valid() && c.capacity == STORE_CAPACITY && c.memoryLimit == 0 && !c.hasTtl
    }

    ghost predicate OwnAt(n: string)
      reads this`localCaches, this`stores, this`Repr, Repr
    {
      && n in localCaches && localCaches[n] in Repr && localCaches[n].Repr <= Repr
      && CacheValid(localCaches[n]) && n in stores && stores[n] == localCaches[n].State()
    }

    ghost predicate ApartAt(n: string, m: string)
      reads this`localCaches, this`stores, this`Repr, Repr
    {
      && n in localCaches && m in localCaches && localCaches[n] in Repr && localCaches[m] in Repr
      && localCaches[n].Repr !! localCaches[m].Repr
    }

    /** Every member has a valid cache, and the caches share no memory. */
    ghost predicate CachesValid()
      reads this`localCaches, this`stores, this`Repr, Repr
    {
      && this !in Repr && stores.Keys == localCaches.Keys
      && (forall n {:trigger OwnAt(n)} :: n in localCaches ==> OwnAt(n))
      && (forall n, m {:trigger ApartAt(n, m)} :: n in localCaches && m in localCaches && n != m ==> ApartAt(n, m))
    }

    ghost predicate Valid()
      reads this`hashRing, this`sortedHashes, this`localCaches, this`stores, this`Repr, Repr
      ensures Valid() ==> this !in Repr
    {
      RingValid() && CachesValid()
    }

    // ----- One store at a time -----

    method StoreSet(n: string, key: string, value: string)
      requires Valid() && n in localCaches
      modifies this`Repr, this`stores, Repr
      ensures Valid() && fresh(Repr - old(Repr))
      ensures stores == old(stores)[n := Put(old(stores)[n], key, value)]
    {
      assert OwnAt(n);
      var c := localCaches[n];
      c.Set(key, value);
      Repr, stores := Repr + c.Repr, stores[n := c.State()];
      OneChanged(n);
    }

    /** Work inside the cache of `n` leaves every other cache as it was. */
    twostate lemma OneChanged(n: string)
      requires old(Valid()) && n in old(localCaches) && localCaches == old(localCaches)
      requires unchanged(this`hashRing) && unchanged(this`sortedHashes)
      requires Repr == old(Repr) + localCaches[n].Repr && this !in localCaches[n].Repr
      requires forall o: object :: o in old(Repr) && o !in old(localCaches[n].Repr) ==> unchanged(o)
      requires CacheValid(localCaches[n]) && fresh(localCaches[n].Repr - old(localCaches[n].Repr))
      requires stores == old(stores)[n := localCaches[n].State()]
      ensures Valid()
    {
      forall m | m in localCaches && m != n
        ensures OwnAt(m) && ApartAt(m, n) && ApartAt(n, m) && localCaches[m].Repr == old(localCaches[m].Repr)
      {
        assert old(OwnAt(m)) && old(ApartAt(n, m));
      }
      forall a, b | a in localCaches && b in localCaches && a != b ensures ApartAt(a, b) {
        assert old(ApartAt(a, b));
      }
    }

    method StoreDelete(n: string, key: string)
      requires Valid() && n in localCaches
      modifies this`Repr, this`stores, Repr
      ensures Valid() && fresh(Repr - old(Repr))
      ensures stores == old(stores)[n := LruSpec.Delete(old(stores)[n], key)]
    {
      assert OwnAt(n);
      var c := localCaches[n];
      var _ := c.Delete(key);
      Repr, stores := Repr + c.Repr, stores[n := c.State()];
      OneChanged(n);
    }

    method StoreGet(n: string, key: string, now: int) returns (r: Option<string>)
      requires Valid() && n in localCaches
      modifies this`Repr, this`stores, Repr
      ensures Valid() && fresh(Repr - old(Repr))
      ensures stores == old(stores)[n := Fetch(old(stores)[n], key, now).0]
      ensures r == Lookup(old(stores)[n].list, key)
    {
      assert OwnAt(n);
      var c := localCaches[n];
      r := c.Get(key, now);
      Repr, stores := Repr + c.Repr, stores[n := c.State()];
      OneChanged(n);
    }

    /** GetAllData of one store; without a TTL map the clock is never consulted. */
    method StoreData(n: string) returns (data: map<string, string>)
      requires Valid() && n in localCaches
      ensures data == Data(stores[n])
    {
      assert OwnAt(n);
      data := localCaches[n].GetAllData(0);
    }

    lemma StoresSound()
      requires Valid()
      ensures AllStores(stores)
    {
      forall n | n in stores ensures Store(stores[n]) {
        assert OwnAt(n);
        localCaches[n].MapIsList();
      }
    }

    // ----- Routing -----

    method GetNodeForKey(key: string) returns (node: string)
      requires Valid() && sortedHashes != []
      ensures node == Route(CurrentRing(), hash(key)) && node in localCaches
    {
      var h := hash(key);
      var idx := Search(sortedHashes, h);
      if idx == |sortedHashes| {
        idx := 0;
      }
      var nodeHash := sortedHashes[idx];
      assert nodeHash == Successor(sortedHashes, h);
      node := hashRing[nodeHash];
    }

    method FindResponsibleNodeInOldRing(h: Hash, oldSorted: seq<Hash>) returns (node: string)
      requires Sorted(oldSorted)
      ensures node == OldOwner(hashRing, oldSorted, h)
    {
      if |oldSorted| == 0 {
        return "";
      }
      var idx := Search(oldSorted, h);
      if idx == |oldSorted| {
        idx := 0;
      }
      var target := oldSorted[idx];
      assert target == Successor(oldSorted, h);
      var remaining := hashRing.Keys;
      while remaining != {}
        invariant remaining <= hashRing.Keys
        invariant target in hashRing ==> target in remaining
        decreases remaining
      {
        var ringHash :| ringHash in remaining;
        if ringHash == target {
          return hashRing[ringHash];
        }
        remaining := remaining - {ringHash};
      }
      return "";
    }

    // ----- The ring fields -----

    method AddNodeToHashRing(node: string)
      modifies this`hashRing, this`sortedHashes
      ensures CurrentRing() == AddTo(old(CurrentRing()), hash, virtualNodes, node)
    {
      ghost var hashes := VirtualHashes(hash, node, virtualNodes);
      for i := 0 to virtualNodes
        invariant hashRing == Claim(old(hashRing), hashes[..i], node)
        invariant sortedHashes == old(sortedHashes) + hashes[..i]
      {
        var h := hash(Label(node, i));
        ClaimStep(old(hashRing), hashes, i, node);
        assert hashes[..i + 1] == hashes[..i] + [h];
        hashRing := hashRing[h := node];
        sortedHashes := sortedHashes + [h];
      }
      assert hashes[..virtualNodes] == hashes;
      sortedHashes := Sort(sortedHashes);
    }

    /** The positions a node owns, in the order the map yields them. */
    method PositionsOf(node: string) returns (hashes: seq<Hash>)
      ensures forall h :: h in hashes <==> h in hashRing && hashRing[h] == node
    {
      hashes := [];
      var remaining := hashRing.Keys;
      while remaining != {}
        invariant remaining <= hashRing.Keys
        invariant forall h :: h in hashes <==> h in hashRing && h !in remaining && hashRing[h] == node
        decreases remaining
      {
        var h :| h in remaining;
        remaining := remaining - {h};
        if hashRing[h] == node {
          hashes := hashes + [h];
        }
      }
    }

    method RemoveNodeFromHashRing(node: string)
      modifies this`hashRing, this`sortedHashes
      ensures CurrentRing() == RemoveFrom(old(CurrentRing()), node)
    {
      DeletePositions(node);
      var kept := [];
      for i := 0 to |sortedHashes|
        invariant hashRing == Without(old(hashRing), node) && sortedHashes == old(sortedHashes)
        invariant kept + Surviving(sortedHashes[i..], hashRing) == Surviving(sortedHashes, hashRing)
      {
        assert sortedHashes[i..] == [sortedHashes[i]] + sortedHashes[i + 1..];
        if OwnerAt(hashRing, sortedHashes[i]) != "" {
          kept := kept + [sortedHashes[i]];
        }
      }
      sortedHashes := kept;
    }

    method DeletePositions(node: string)
      modifies this`hashRing
      ensures hashRing == Without(old(hashRing), node)
    {
      var toRemove := PositionsOf(node);
      for i := 0 to |toRemove|
        invariant hashRing == old(hashRing) - (set h | h in toRemove[..i])
      {
        assert toRemove[..i + 1] == toRemove[..i] + [toRemove[i]];
        hashRing := hashRing - {toRemove[i]};
      }
      assert toRemove[..|toRemove|] == toRemove;
    }

    method RemoveNodeFromNodes(node: string)
      modifies this`nodes
      ensures nodes == RemoveFirst(old(nodes), node)
    {
      for i := 0 to |nodes|
        invariant nodes == old(nodes) && node !in nodes[..i]
      {
        if nodes[i] == node {
          RemoveFirstAt(nodes, node, i);
          nodes := nodes[..i] + nodes[i + 1..];
          return;
        }
        assert nodes[..i + 1] == nodes[..i] + [nodes[i]];
      }
      assert nodes[..|nodes|] == nodes;
      RemoveFirstAt(nodes, node, |nodes|);
    }

    // ----- Construction -----

    constructor (nodes: seq<string>, virtualNodes: nat, hash: HashFunction)
      ensures Valid() && fresh(Repr) && Recorded()
      ensures this.virtualNodes == virtualNodes && this.hash == hash && this.nodes == nodes
      ensures CurrentRing() == Build(hash, virtualNodes, nodes)
      ensures stores == map n | n in nodes :: Empty(STORE_CAPACITY, 0)
      ensures changes == Adds(nodes) && migratedKeys == 0
    {
      hide Build, Evolve, Sorted, Adds;
      this.hash, this.virtualNodes, this.nodes := hash, virtualNodes, nodes;
      hashRing, sortedHashes, localCaches, migratedKeys := map[], [], map[], 0;
      changes := Adds(nodes);
      new;
      Repr, stores := {}, map[];
      BuildHashRing();
      InstallAll();
      BuildIsRun(hash, virtualNodes, nodes);
      BuildValid(hash, virtualNodes, nodes);
    }

    method InstallAll()
      requires CachesValid() && localCaches == map[]
      modifies this`localCaches, this`stores, this`Repr
      ensures CachesValid() && fresh(Repr - old(Repr))
      ensures stores == map n | n in nodes :: Empty(STORE_CAPACITY, 0)
    {
      for i := 0 to |nodes|
        invariant CachesValid() && fresh(Repr - old(Repr))
        invariant forall n :: n in stores <==> n in nodes[..i]
        invariant forall n :: n in stores ==> stores[n] == Empty(STORE_CAPACITY, 0)
      {
        Install(nodes[i]);
        assert nodes[..i + 1] == nodes[..i] + [nodes[i]];
      }
      assert nodes[..|nodes|] == nodes;
    }

    method BuildHashRing()
      modifies this`hashRing, this`sortedHashes
      ensures CurrentRing() == Build(hash, virtualNodes, nodes)
    {
      hashRing := map[];
      sortedHashes := [];
      for i := 0 to |nodes|
        invariant CurrentRing() == Build(hash, virtualNodes, nodes[..i])
      {
        assert nodes[..i + 1][..i] == nodes[..i];
        AddNodeToHashRing(nodes[i]);
      }
      assert nodes[..|nodes|] == nodes;
    }

    /** A fresh empty cache for `node`, replacing the one it may have had. */
    method Install(node: string)
      requires CachesValid()
      modifies this`localCaches, this`stores, this`Repr
      ensures CachesValid() && fresh(Repr - old(Repr))
      ensures stores == Joined(old(stores), node) && localCaches.Keys == old(localCaches.Keys) + {node}
    {
      var c := new LruCache(STORE_CAPACITY, 0, false);
      localCaches := localCaches[node := c];
      Repr, stores := Repr + c.Repr, Joined(stores, node);
      Installed(node, c);
    }

    twostate lemma Installed(node: string, new c: LruCache)
      requires old(CachesValid()) && localCaches == old(localCaches)[node := c] && Repr == old(Repr) + c.Repr
      requires stores == Joined(old(stores), node)
      requires CacheValid(c) && fresh(c.Repr) && c.State() == Empty(STORE_CAPACITY, 0)
      requires forall o: object :: o in old(Repr) ==> unchanged(o)
      ensures CachesValid()
    {
      forall m | m in localCaches && m != node
        ensures OwnAt(m) && ApartAt(m, node) && ApartAt(node, m)
        ensures localCaches[m].Repr == old(localCaches[m].Repr)
      {
        assert old(OwnAt(m));
      }
      forall a, b | a in localCaches && b in localCaches && a != b ensures ApartAt(a, b) {
        assert a != node && b != node ==> old(ApartAt(a, b));
      }
    }

    // ----- Client operations -----

    method Set(key: string, value: string) returns (ok: bool)
      requires Valid() && sortedHashes != []
      modifies this`Repr, this`stores, Repr
      ensures Valid() && fresh(Repr - old(Repr)) && ok
      ensures var n := Route(CurrentRing(), hash(key));
              n in old(stores) && stores == old(stores)[n := Put(old(stores)[n], key, value)]
    {
      var node := GetNodeForKey(key);
      if node !in localCaches {
        return false;
      }
      StoreSet(node, key, value);
      ok := true;
    }

    method Get(key: string, now: int) returns (r: Option<string>, ok: bool)
      requires Valid() && sortedHashes != []
      modifies this`Repr, this`stores, Repr
      ensures Valid() && fresh(Repr - old(Repr)) && ok
      ensures var n := Route(CurrentRing(), hash(key));
              && n in old(stores)
              && stores == old(stores)[n := Fetch(old(stores)[n], key, now).0]
              && r == Find(old(stores), Router(CurrentRing(), hash), key)
    {
      var node := GetNodeForKey(key);
      if node !in localCaches {
        return None, false;
      }
      r := StoreGet(node, key, now);
      ok := true;
    }

    method Delete(key: string) returns (ok: bool)
      requires Valid() && sortedHashes != []
      modifies this`Repr, this`stores, Repr
      ensures Valid() && fresh(Repr - old(Repr)) && ok
      ensures var n := Route(CurrentRing(), hash(key));
              n in old(stores) && stores == old(stores)[n := LruSpec.Delete(old(stores)[n], key)]
    {
      var node := GetNodeForKey(key);
      if node !in localCaches {
        return false;
      }
      StoreDelete(node, key);
      ok := true;
    }

    // ----- Adding a node -----

    /** The key visits of the migration come in an order only the Go maps know; `moves` is the
        order taken. */
    method AddNode(node: string) returns (ghost moves: seq<Move>)
      requires Valid() && Recorded()
      modifies this, Repr
      ensures Valid() && fresh(Repr - old(Repr)) && Recorded()
      ensures nodes == old(nodes) + [node] && changes == old(changes) + [Add(node)]
      ensures CurrentRing() == AddTo(old(CurrentRing()), hash, virtualNodes, node)
      ensures stores == MoveAll(Joined(old(stores), node), node, moves)
      ensures var scanned := ScannedSet(hashRing, old(sortedHashes), node, localCaches.Keys);
              && Schedule(Joined(old(stores), node), node, moves, Router(CurrentRing(), hash), scanned)
              && Exhausted(stores, node, Router(CurrentRing(), hash), scanned)
      ensures migratedKeys == old(migratedKeys) + |moves|
    {
      hide MoveAll, Schedule, Exhausted, Route, Scans, AddTo, Evolve, Consistent, Named;
      var oldSorted := sortedHashes;
      assert Sorted(oldSorted) by { RingSorted(); }
      JoinRing(node);
      var count;
      count, moves := MigrateDataForAddedNode(node, oldSorted);
      migratedKeys := migratedKeys + count;
    }

    lemma RingSorted()
      requires RingValid()
      ensures Sorted(sortedHashes)
    {
    }

    /** The membership part of AddNode: the list, an empty cache, the virtual nodes. */
    method JoinRing(node: string)
      requires Valid() && Recorded()
      modifies this`nodes, this`localCaches, this`stores, this`Repr, this`hashRing, this`sortedHashes, this`changes
      ensures Valid() && fresh(Repr - old(Repr)) && Recorded()
      ensures nodes == old(nodes) + [node] && changes == old(changes) + [Add(node)]
      ensures CurrentRing() == AddTo(old(CurrentRing()), hash, virtualNodes, node)
      ensures stores == Joined(old(stores), node) && node in localCaches
      ensures hashRing != map[] ==> sortedHashes != []
    {
      hide Sort, CachesValid, Recorded, VirtualHashes, Sorted;
      nodes := nodes + [node];
      Install(node);
      AddNodeToHashRing(node);
      changes := changes + [Add(node)];
      AddListed(old(CurrentRing()), hash, virtualNodes, node);
      RecordedJoin(node);
    }

    twostate lemma RecordedJoin(node: string)
      requires old(Recorded()) && changes == old(changes) + [Add(node)]
      requires localCaches.Keys == old(localCaches.Keys) + {node}
      requires CurrentRing() == AddTo(old(CurrentRing()), hash, virtualNodes, node)
      ensures Recorded()
    {
      hide Evolve;
      EvolveNext(hash, virtualNodes, old(changes), Add(node));
    }

    method MigrateDataForAddedNode(node: string, oldSorted: seq<Hash>) returns (count: nat, ghost moves: seq<Move>)
      requires Valid() && node in localCaches && Sorted(oldSorted)
      requires hashRing != map[] ==> sortedHashes != []
      modifies this`Repr, this`stores, Repr
      ensures Valid() && fresh(Repr - old(Repr)) && count == |moves|
      ensures stores == MoveAll(old(stores), node, moves)
      ensures var scanned := ScannedSet(hashRing, oldSorted, node, localCaches.Keys);
              && Schedule(old(stores), node, moves, Router(CurrentRing(), hash), scanned)
              && Exhausted(stores, node, Router(CurrentRing(), hash), scanned)
    {
      ghost var route := Router(CurrentRing(), hash);
      ghost var scanned := ScannedSet(hashRing, oldSorted, node, localCaches.Keys);
      hide MoveAll, Schedule, Exhausted, Scans, Consistent, OwnAt, ApartAt, Route, OldOwner;
      ghost var done;
      var hashes := PositionsOf(node);
      assert hashes != [] ==> hashes[0] in hashes && hashes[0] in hashRing;
      count, moves, done := ScanAll(hashes, node, oldSorted, route, scanned);
      AllServed(node, oldSorted, hashes, done);
      ExhaustedWider(stores, node, route, done, scanned);
    }

    method ScanAll(hashes: seq<Hash>, node: string, oldSorted: seq<Hash>, ghost route: string -> string,
                   ghost scanned: set<string>)
      returns (count: nat, ghost moves: seq<Move>, ghost done: set<string>)
      requires Valid() && node in localCaches && Sorted(oldSorted) && (hashes != [] ==> sortedHashes != [])
      requires forall j :: 0 <= j < |hashes| ==> hashes[j] in hashRing && hashRing[hashes[j]] == node
      requires route == Router(CurrentRing(), hash)
          && scanned == ScannedSet(hashRing, oldSorted, node, localCaches.Keys)
      modifies this`Repr, this`stores, Repr
      ensures Valid() && fresh(Repr - old(Repr)) && count == |moves|
      ensures stores == MoveAll(old(stores), node, moves) && Schedule(old(stores), node, moves, route, scanned)
      ensures Exhausted(stores, node, route, done)
      ensures ServedUpTo(hashRing, oldSorted, hashes, |hashes|, node, localCaches.Keys, done)
    {
      count, moves, done := 0, [], {};
      assert stores == MoveAll(old(stores), node, []) && Schedule(old(stores), node, [], route, scanned);
      assert Exhausted(stores, node, route, {});
      assert ServedUpTo(hashRing, oldSorted, hashes, 0, node, localCaches.Keys, {});
      hide Valid, MoveAll, Schedule, Exhausted, Scans, Route, OldOwner, ServedUpTo, Served;
      for i := 0 to |hashes|
        invariant Valid() && fresh(Repr - old(Repr)) && count == |moves|
        invariant stores == MoveAll(old(stores), node, moves) && Schedule(old(stores), node, moves, route, scanned)
        invariant done <= scanned && Exhausted(stores, node, route, done)
        invariant ServedUpTo(hashRing, oldSorted, hashes, i, node, localCaches.Keys, done)
      {
        var more;
        ghost var before := done;
        more, moves, done := ScanOne(hashes[i], node, oldSorted, old(stores), moves, route, scanned, done);
        ServedNext(hashRing, oldSorted, hashes, i, node, localCaches.Keys, before, done);
        count := count + more;
      }
    }

    lemma AllServed(node: string, oldSorted: seq<Hash>, hashes: seq<Hash>, done: set<string>)
      requires forall h :: h in hashes <==> h in hashRing && hashRing[h] == node
      requires ServedUpTo(hashRing, oldSorted, hashes, |hashes|, node, localCaches.Keys, done)
      ensures forall n :: n in ScannedSet(hashRing, oldSorted, node, localCaches.Keys) && n != node ==> n in done
    {
      forall n | n in ScannedSet(hashRing, oldSorted, node, localCaches.Keys) && n != node ensures n in done {
        var p :| p in hashRing && hashRing[p] == node && OldOwner(hashRing, oldSorted, p) == n;
        assert p in hashes;
        var j :| 0 <= j < |hashes| && hashes[j] == p;
        assert Served(OldOwner(hashRing, oldSorted, hashes[j]), node, localCaches.Keys, done);
      }
    }

    /** The store of the old owner of one new position. */
    method ScanOne(h: Hash, node: string, oldSorted: seq<Hash>, ghost start: Stores, ghost before: seq<Move>,
                   ghost route: string -> string, ghost scanned: set<string>, ghost done: set<string>)
      returns (count: nat, ghost moves: seq<Move>, ghost done': set<string>)
      requires Valid() && node in localCaches && Sorted(oldSorted) && sortedHashes != []
      requires h in hashRing && hashRing[h] == node && route == Router(CurrentRing(), hash)
      requires scanned == ScannedSet(hashRing, oldSorted, node, localCaches.Keys) && done <= scanned
      requires stores == MoveAll(start, node, before) && Schedule(start, node, before, route, scanned)
      requires Exhausted(stores, node, route, done)
      modifies this`Repr, this`stores, Repr
      ensures Valid() && fresh(Repr - old(Repr)) && |moves| == |before| + count
      ensures stores == MoveAll(start, node, moves) && Schedule(start, node, moves, route, scanned)
      ensures done <= done' <= scanned && Exhausted(stores, node, route, done')
      ensures Served(OldOwner(hashRing, oldSorted, h), node, localCaches.Keys, done')
    {
      hide MoveAll, Schedule, Exhausted, Consistent, OwnAt, ApartAt, Route, OldOwner;
      count, moves, done' := 0, before, done;
      var from := FindResponsibleNodeInOldRing(h, oldSorted);
      if from == "" || from == node || from !in localCaches {
        return;
      }
      assert from in scanned;
      count, moves := MigrateFrom(from, node, start, before, route, scanned, done);
      done' := done + {from};
    }

    /** One key of a scanned store: if it now routes to `to`, Set there and Delete here. */
    method VisitKey(from: string, to: string, key: string, value: string, ghost start: Stores, ghost before: seq<Move>,
                    ghost route: string -> string, ghost scanned: set<string>, ghost done: set<string>)
      returns (moved: bool, ghost moves: seq<Move>)
      requires Valid() && from in localCaches && to in localCaches && from != to && from in scanned
          && sortedHashes != []
      requires from in stores && Lookup(stores[from].list, key) == Some(value) && route == Router(CurrentRing(), hash)
      requires stores == MoveAll(start, to, before) && Schedule(start, to, before, route, scanned)
      requires Exhausted(stores, to, route, done)
      modifies this`Repr, this`stores, Repr
      ensures Valid() && fresh(Repr - old(Repr))
      ensures moves == if moved then before + [Move(from, key)] else before
      ensures stores == MoveAll(start, to, moves) && Schedule(start, to, moves, route, scanned)
      ensures Exhausted(stores, to, route, done) && from in stores
      ensures moved <==> route(key) == to
      ensures forall k ::
                Lookup(stores[from].list, k) == if moved && k == key then None else Lookup(old(stores)[from].list, k)
    {
      hide Valid, MoveAll, MoveOne, Schedule, Exhausted, Route;
      moves := before;
      var target := GetNodeForKey(key);
      moved := target == to;
      if moved {
        MoveKey(from, to, key, value, done, route);
        ScheduleNext(start, to, moves, Move(from, key), route, scanned);
        moves := moves + [Move(from, key)];
      }
    }

    method MoveKey(from: string, to: string, key: string, value: string, ghost done: set<string>,
                   ghost route: string -> string)
      requires Valid() && from in localCaches && to in localCaches && from != to
      requires Lookup(stores[from].list, key) == Some(value) && Exhausted(stores, to, route, done)
      modifies this`Repr, this`stores, Repr
      ensures Valid() && fresh(Repr - old(Repr))
      ensures Enabled(old(stores), to, Move(from, key)) && stores == MoveOne(old(stores), to, Move(from, key))
      ensures Exhausted(stores, to, route, done) && from in stores
      ensures forall k :: Lookup(stores[from].list, k) == if k == key then None else Lookup(old(stores)[from].list, k)
    {
      StoresSound();
      MoveSource(stores, to, Move(from, key));
      ExhaustedKept(stores, to, Move(from, key), route, done);
      StoreSet(to, key, value);
      StoreDelete(from, key);
      assert stores == MoveOne(old(stores), to, Move(from, key));
    }

    method VisitOne(from: string, to: string, key: string, data: map<string, string>, ghost remaining: set<string>,
                    ghost start: Stores, ghost before: seq<Move>,
                    ghost route: string -> string, ghost scanned: set<string>, ghost done: set<string>)
      returns (moved: bool, ghost moves: seq<Move>)
      requires Valid() && from in localCaches && to in localCaches && from != to && from in scanned
          && sortedHashes != []
      requires key in remaining && key in data && from in stores
          && Visiting(stores[from].list, data, remaining, route, to)
      requires route == Router(CurrentRing(), hash)
      requires stores == MoveAll(start, to, before) && Schedule(start, to, before, route, scanned)
      requires Exhausted(stores, to, route, done)
      modifies this`Repr, this`stores, Repr
      ensures Valid() && fresh(Repr - old(Repr)) && moves == if moved then before + [Move(from, key)] else before
      ensures stores == MoveAll(start, to, moves) && Schedule(start, to, moves, route, scanned)
      ensures Exhausted(stores, to, route, done)
      ensures from in stores && Visiting(stores[from].list, data, remaining - {key}, route, to)
    {
      hide Valid, MoveAll, Schedule, Exhausted, Route, Visiting;
      ghost var list := stores[from].list;
      VisitingKey(list, data, remaining, route, to, key);
      moved, moves := VisitKey(from, to, key, data[key], start, before, route, scanned, done);
      VisitingNext(list, stores[from].list, data, remaining, route, to, key, moved);
    }

    /** One scanned store: the keys that now route to `to` move there. */
    method MigrateFrom(from: string, to: string, ghost start: Stores, ghost before: seq<Move>,
                       ghost route: string -> string, ghost scanned: set<string>, ghost done: set<string>)
      returns (count: nat, ghost moves: seq<Move>)
      requires Valid() && from in localCaches && to in localCaches && from != to && from in scanned
          && sortedHashes != []
      requires route == Router(CurrentRing(), hash)
      requires stores == MoveAll(start, to, before) && Schedule(start, to, before, route, scanned)
      requires Exhausted(stores, to, route, done)
      modifies this`Repr, this`stores, Repr
      ensures Valid() && fresh(Repr - old(Repr)) && |moves| == |before| + count && GrownFrom(before, moves, from)
      ensures stores == MoveAll(start, to, moves) && Schedule(start, to, moves, route, scanned)
      ensures Exhausted(stores, to, route, done + {from})
    {
      var data := StoreData(from);
      VisitingStart(stores[from], route, to);
      count, moves := VisitAll(from, to, data, start, before, route, scanned, done);
      VisitingEnd(stores, from, data, route, to, done);
    }

    method VisitAll(from: string, to: string, data: map<string, string>, ghost start: Stores, ghost before: seq<Move>,
                    ghost route: string -> string, ghost scanned: set<string>, ghost done: set<string>)
      returns (count: nat, ghost moves: seq<Move>)
      requires Valid() && from in localCaches && to in localCaches && from != to && from in scanned
          && sortedHashes != []
      requires from in stores && Visiting(stores[from].list, data, data.Keys, route, to)
      requires route == Router(CurrentRing(), hash)
      requires stores == MoveAll(start, to, before) && Schedule(start, to, before, route, scanned)
      requires Exhausted(stores, to, route, done)
      modifies this`Repr, this`stores, Repr
      ensures Valid() && fresh(Repr - old(Repr)) && |moves| == |before| + count && GrownFrom(before, moves, from)
      ensures stores == MoveAll(start, to, moves) && Schedule(start, to, moves, route, scanned)
      ensures from in stores && Visiting(stores[from].list, data, {}, route, to) && Exhausted(stores, to, route, done)
    {
      hide Valid, MoveAll, Schedule, Exhausted, Route, Visiting;
      count, moves := 0, before;
      var remaining := data.Keys;
      while remaining != {}
        invariant Valid() && fresh(Repr - old(Repr)) && |moves| == |before| + count && GrownFrom(before, moves, from)
        invariant stores == MoveAll(start, to, moves) && Schedule(start, to, moves, route, scanned)
        invariant remaining <= data.Keys && Exhausted(stores, to, route, done)
        invariant from in stores && Visiting(stores[from].list, data, remaining, route, to)
        decreases remaining
      {
        var key :| key in remaining;
        var moved;
        moved, moves := VisitOne(from, to, key, data, remaining, start, moves, route, scanned, done);
        remaining := remaining - {key};
        if moved {
          count := count + 1;
        }
      }
    }

    // ----- Removing a node -----

    /** Removing the last node while it holds data would route a key on an empty ring, which the
        source answers by indexing out of range. */
    method RemoveNode(node: string) returns (ok: bool, ghost order: seq<Entry>)
      requires Valid() && Recorded()
      requires node in stores && RemoveFrom(CurrentRing(), node).sorted == [] ==> stores[node].list == []
      modifies this, Repr
      ensures Valid() && fresh(Repr - old(Repr)) && Recorded()
      ensures ok <==> node in old(localCaches)
      ensures !ok ==> unchanged(this)
      ensures ok ==> nodes == RemoveFirst(old(nodes), node) && changes == old(changes) + [Remove(node)]
      ensures ok ==> CurrentRing() == RemoveFrom(old(CurrentRing()), node)
      ensures ok ==> node in old(stores) && IsOrder(order, Data(old(stores)[node]))
      ensures ok ==> stores == PutEach(old(stores) - {node}, Router(CurrentRing(), hash), order)
      ensures ok ==> migratedKeys == old(migratedKeys) + |order|
    {
      order := [];
      ok := node in localCaches;
      if ok {
        hide Valid, Data, IsOrder, PutEach, RemoveFrom, Route, Recorded, RemoveFirst;
        order := RemoveMember(node);
      }
    }

    method RemoveMember(node: string) returns (ghost order: seq<Entry>)
      requires Valid() && Recorded() && node in localCaches && node in stores
      requires RemoveFrom(CurrentRing(), node).sorted == [] ==> stores[node].list == []
      modifies this, Repr
      ensures Valid() && fresh(Repr - old(Repr)) && Recorded()
      ensures nodes == RemoveFirst(old(nodes), node) && changes == old(changes) + [Remove(node)]
      ensures CurrentRing() == RemoveFrom(old(CurrentRing()), node)
      ensures IsOrder(order, Data(old(stores)[node]))
      ensures stores == PutEach(old(stores) - {node}, Router(CurrentRing(), hash), order)
      ensures migratedKeys == old(migratedKeys) + |order|
    {
      hide Valid, Data, IsOrder, PutEach, RemoveFrom, Route, Recorded, RemoveFirst;
      var data := StoreData(node);
      NoData(stores[node]);
      RemoveNodeFromNodes(node);
      LeaveRing(node);
      var count;
      count, order := RedistributeData(data);
      migratedKeys := migratedKeys + count;
    }

    lemma NoData(s: Lru)
      ensures s.list == [] ==> Data(s) == map[]
    {
    }

    method LeaveRing(node: string)
      requires Valid() && Recorded() && node in localCaches
      modifies this`localCaches, this`stores, this`hashRing, this`sortedHashes, this`changes
      ensures Valid() && Recorded() && Repr == old(Repr)
      ensures changes == old(changes) + [Remove(node)] && stores == old(stores) - {node}
      ensures CurrentRing() == RemoveFrom(old(CurrentRing()), node)
    {
      hide Evolve, Surviving, OwnAt, ApartAt;
      localCaches := localCaches - {node};
      stores := stores - {node};
      RemoveNodeFromHashRing(node);
      EvolveNext(hash, virtualNodes, changes, Remove(node));
      changes := changes + [Remove(node)];
      SurvivingExact(old(sortedHashes), hashRing);
      Departed(node);
    }

    twostate lemma Departed(node: string)
      requires old(CachesValid()) && localCaches == old(localCaches) - {node} && stores == old(stores) - {node}
      requires Repr == old(Repr) && forall o: object :: o in Repr ==> unchanged(o)
      ensures CachesValid()
    {
      forall m | m in localCaches ensures OwnAt(m) {
        assert old(OwnAt(m));
      }
      forall a, b | a in localCaches && b in localCaches && a != b ensures ApartAt(a, b) {
        assert old(ApartAt(a, b));
      }
    }

    method RedistributeData(data: map<string, string>) returns (count: nat, ghost order: seq<Entry>)
      requires Valid() && (data != map[] ==> sortedHashes != [])
      modifies this`Repr, this`stores, Repr
      ensures Valid() && fresh(Repr - old(Repr)) && count == |order|
      ensures IsOrder(order, data) && stores == PutEach(old(stores), Router(CurrentRing(), hash), order)
    {
      count, order := 0, [];
      hide Valid, PutEach, IsOrder, Route;
      OrderNone(data);
      ghost var route := Router(CurrentRing(), hash);
      assert stores == PutEach(old(stores), route, []) by { PutEachNone(stores, route); }
      var remaining := data.Keys;
      while remaining != {}
        invariant Valid() && fresh(Repr - old(Repr)) && count == |order|
        invariant remaining <= data.Keys && IsOrder(order, data - remaining)
        invariant stores == PutEach(old(stores), route, order)
        decreases remaining
      {
        var key :| key in remaining;
        order := PutOne(key, data, route, remaining, old(stores), order);
        remaining := remaining - {key};
        count := count + 1;
      }
      assert data - {} == data;
    }

    method PutOne(key: string, data: map<string, string>, ghost route: string -> string, ghost remaining: set<string>,
                  ghost start: Stores, ghost order: seq<Entry>)
      returns (ghost longer: seq<Entry>)
      requires Valid() && sortedHashes != [] && route == Router(CurrentRing(), hash)
      requires key in remaining && remaining <= data.Keys && IsOrder(order, data - remaining)
      requires stores == PutEach(start, route, order)
      modifies this`Repr, this`stores, Repr
      ensures Valid() && fresh(Repr - old(Repr)) && |longer| == |order| + 1
      ensures IsOrder(longer, data - (remaining - {key})) && stores == PutEach(start, route, longer)
    {
      hide Valid, PutEach, IsOrder, Route;
      longer := order + [Entry(key, data[key])];
      OrderStep(order, data, remaining, key);
      var target := GetNodeForKey(key);
      assert target in stores by { StoresMembers(); }
      PutEachNext(start, route, order, Entry(key, data[key]));
      StoreSet(target, key, data[key]);
    }

    lemma StoresMembers()
      requires Valid()
      ensures stores.Keys == localCaches.Keys
    {
    }
  }

  /** Adding keeps the list sorted and within the map, and lists the new positions. */
  lemma AddListed(ring: Ring, hash: HashFunction, count: nat, node: string)
    requires Sorted(ring.sorted) && forall h :: h in ring.sorted ==> h in ring.owners
    ensures var r := AddTo(ring, hash, count, node);
            && Sorted(r.sorted) && (forall h :: h in r.sorted ==> h in r.owners)
            && (forall h :: h in r.owners ==>
                r.owners[h] == node || (h in ring.owners && r.owners[h] == ring.owners[h]))
            && (if count == 0 then r.owners == ring.owners else r.sorted != [])
  {
    var hashes := VirtualHashes(hash, node, count);
    SortSorts(ring.sorted + hashes);
    if count > 0 {
      assert hashes[0] in ring.sorted + hashes;
    }
  }

  lemma {:induction false} BuildValid(hash: HashFunction, count: nat, nodes: seq<string>)
    ensures var r := Build(hash, count, nodes);
            && Consistent(r) && (forall h :: h in r.owners ==> r.owners[h] in nodes)
            && (count == 0 ==> r.owners == map[])
  {
    if nodes != [] {
      BuildValid(hash, count, nodes[..|nodes| - 1]);
      AddConsistent(Build(hash, count, nodes[..|nodes| - 1]), hash, count, nodes[|nodes| - 1]);
    }
  }
}
