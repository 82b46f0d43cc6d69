/** AddNode and RemoveNode as a whole: the ring change and the migration that follows it. */
module Rebalance {
  import opened Wrappers
  import opened LruSpec
  import opened ConsistentHash
  import opened Migration
  import opened Distributed

  /** A cluster at rest: the ring is in order, its positions belong to members, and every stored
      key sits exactly at its owner. */
  ghost predicate AtRest(ring: Ring, hash: HashFunction, stores: Stores) {
    && Consistent(ring) && Named(ring.owners) && "" !in stores
    && (forall h :: h in ring.owners ==> ring.owners[h] in stores)
    && AllStores(stores) && Placed(stores, Router(ring, hash))
  }

  /** The node brings in no position that is taken. */
  ghost predicate NoneTaken(ring: Ring, hash: HashFunction, count: nat, node: string) {
    forall p :: p in VirtualHashes(hash, node, count) ==> p !in ring.owners
  }

  /** Collision-free labels bring in no taken position. */
  lemma FreshNoneTaken(ring: Ring, hash: HashFunction, count: nat, members: set<string>, node: string)
    requires IsRingOf(ring.owners, hash, count, members) && node !in members
    requires CollisionFree(hash, count, members + {node})
    ensures NoneTaken(ring, hash, count, node)
  {
    forall p | p in VirtualHashes(hash, node, count) ensures p !in ring.owners {
      if p in ring.owners {
        ClaimsApart(hash, count, members + {node}, ring.owners[p], node, p);
        assert false;
      }
    }
  }

  lemma RouteAfterAdd(ring: Ring, hash: HashFunction, count: nat, node: string, k: string)
    requires Consistent(ring)
    ensures var (prior, route) := (Router(ring, hash), Router(AddTo(ring, hash, count, node), hash));
            route(k) == prior(k) || route(k) == node
  {
    if ring.sorted == [] {
      var after := AddTo(ring, hash, count, node);
      AddConsistent(ring, hash, count, node);
      if after.sorted != [] {
        RouteSuccessor(after, hash(k));
        assert forall h :: h !in ring.owners by { assert forall h :: h in ring.owners <==> h in ring.sorted; }
      }
    } else {
      AddDisruption(ring, hash, count, node, hash(k));
    }
  }

  lemma IncomingIsScanned(ring: Ring, hash: HashFunction, count: nat, node: string, stores: Stores, k: string)
    requires AtRest(ring, hash, stores) && node !in stores && NoneTaken(ring, hash, count, node)
    requires k in Incoming(stores, node, Router(AddTo(ring, hash, count, node), hash))
    ensures Router(ring, hash)(k) in ScannedSet(AddTo(ring, hash, count, node).owners, ring.sorted, node,
        stores.Keys + {node})
  {
    var n :| n in stores && k in Keys(stores[n].list);
    assert Router(ring, hash)(k) == n;
    IncomingScanned(ring, hash, count, node, hash(k));
  }

  /** Any order in which AddNode's migration can visit the keys. */
  ghost predicate VisitOrder(ring: Ring, hash: HashFunction, count: nat, stores: Stores, node: string,
                             moves: seq<Move>)
  {
    var after := AddTo(ring, hash, count, node);
    var scanned := ScannedSet(after.owners, ring.sorted, node, stores.Keys + {node});
    && Schedule(Joined(stores, node), node, moves, Router(after, hash), scanned)
    && Exhausted(MoveAll(Joined(stores, node), node, moves), node, Router(after, hash), scanned)
  }

  lemma MigrationIsComplete(ring: Ring, hash: HashFunction, count: nat, stores: Stores, node: string, moves: seq<Move>)
    requires AtRest(ring, hash, stores) && node !in stores && NoneTaken(ring, hash, count, node)
    requires VisitOrder(ring, hash, count, stores, node, moves)
    ensures Migrated(stores, node, moves, Router(ring, hash), Router(AddTo(ring, hash, count, node), hash),
                     ScannedSet(AddTo(ring, hash, count, node).owners, ring.sorted, node, stores.Keys + {node}))
  {
    hide Route, AddTo, MoveAll, Schedule, Exhausted, Incoming, ScannedSet;
    var prior, route := Router(ring, hash), Router(AddTo(ring, hash, count, node), hash);
    forall k ensures route(k) == prior(k) || route(k) == node {
      RouteAfterAdd(ring, hash, count, node, k);
    }
    forall k | k in Incoming(stores, node, route)
      ensures prior(k) in ScannedSet(AddTo(ring, hash, count, node).owners, ring.sorted, node, stores.Keys + {node})
    {
      IncomingIsScanned(ring, hash, count, node, stores, k);
    }
  }

  /** AddNode of a fresh node that takes no position over, in any visiting order: if its keys fit,
      every key is again only at its owner, every lookup answers as before, and the count is the
      number of keys that changed hands. Only the old owners of the new positions were scanned. */
  lemma AddNodeCompletes(ring: Ring, hash: HashFunction, count: nat, stores: Stores, node: string, moves: seq<Move>)
    requires AtRest(ring, hash, stores) && node !in stores && node != "" && NoneTaken(ring, hash, count, node)
    requires VisitOrder(ring, hash, count, stores, node, moves)
    requires |Incoming(stores, node, Router(AddTo(ring, hash, count, node), hash))| <= STORE_CAPACITY
    ensures var (after, result) := (AddTo(ring, hash, count, node), MoveAll(Joined(stores, node), node, moves));
            && AtRest(after, hash, result)
            && (forall k :: Find(result, Router(after, hash), k) == Find(stores, Router(ring, hash), k))
            && |moves| == |Incoming(stores, node, Router(after, hash))|
  {
    hide MoveAll, Schedule, Exhausted, Incoming, ScannedSet, Route, Sort, Find;
    var after, result := AddTo(ring, hash, count, node), MoveAll(Joined(stores, node), node, moves);
    MigrationIsComplete(ring, hash, count, stores, node, moves);
    AddComplete(stores, node, moves, Router(ring, hash), Router(after, hash),
                ScannedSet(after.owners, ring.sorted, node, stores.Keys + {node}));
    AddConsistent(ring, hash, count, node);
    MoveAllStores(Joined(stores, node), node, moves);
  }

  /** AddNode of any node, new or member, over free or taken positions, with room or not: lookups
      answer as before exactly when the node had no data of its own to lose, has room for the keys it
      takes over from others, and the old owner of each of those keys was scanned. */
  lemma AddNodeConservesIff(ring: Ring, hash: HashFunction, count: nat, stores: Stores, node: string, moves: seq<Move>)
    requires AtRest(ring, hash, stores) && VisitOrder(ring, hash, count, stores, node, moves)
    ensures var (after, others) := (AddTo(ring, hash, count, node), stores - {node});
            var (prior, route) := (Router(ring, hash), Router(after, hash));
            Conserved(stores, prior, MoveAll(Joined(stores, node), node, moves), route)
            <==> && (node in stores ==> stores[node].list == [])
                 && |Incoming(others, node, route)| <= STORE_CAPACITY
                 && forall k :: k in Incoming(others, node, route) ==> Scans(after.owners, ring.sorted, node, prior(k))
  {
    hide Route, AddTo, MoveAll, Schedule, Exhausted, Scans, Conserved;
    var after := AddTo(ring, hash, count, node);
    var prior, route, scanned := Router(ring, hash), Router(after, hash), Visited(ring, hash, count, stores, node);
    IsRebalanced(ring, hash, count, stores, node, moves);
    AddConservesIff(stores, node, moves, prior, route, scanned);
    ScannedIsScans(ring, hash, count, stores, node);
  }

  /** The stores AddNode scans. */
  ghost function Visited(ring: Ring, hash: HashFunction, count: nat, stores: Stores, node: string): set<string> {
    ScannedSet(AddTo(ring, hash, count, node).owners, ring.sorted, node, stores.Keys + {node})
  }

  lemma IsRebalanced(ring: Ring, hash: HashFunction, count: nat, stores: Stores, node: string, moves: seq<Move>)
    requires AtRest(ring, hash, stores) && VisitOrder(ring, hash, count, stores, node, moves)
    ensures Rebalanced(stores, node, moves, Router(ring, hash), Router(AddTo(ring, hash, count, node), hash),
                       Visited(ring, hash, count, stores, node))
  {
    hide Route, AddTo, MoveAll, Schedule, Exhausted, ScannedSet;
    forall k ensures Router(AddTo(ring, hash, count, node), hash)(k) in {Router(ring, hash)(k), node} {
      RouteAfterAdd(ring, hash, count, node, k);
    }
  }

  lemma ScannedIsScans(ring: Ring, hash: HashFunction, count: nat, stores: Stores, node: string)
    requires AtRest(ring, hash, stores)
    ensures var (after, others) := (AddTo(ring, hash, count, node), stores - {node});
            var (prior, route) := (Router(ring, hash), Router(after, hash));
            AllScanned(others, node, prior, route, Visited(ring, hash, count, stores, node))
            <==> forall k :: k in Incoming(others, node, route) ==> Scans(after.owners, ring.sorted, node, prior(k))
  {
    hide Route, AddTo, Scans;
    var others := stores - {node};
    var prior, route := Router(ring, hash), Router(AddTo(ring, hash, count, node), hash);
    forall k | k in Incoming(others, node, route) ensures prior(k) in stores.Keys && prior(k) != "" {
      var n :| n in others && k in Keys(others[n].list) && route(k) == node;
      assert n in stores && k in Keys(stores[n].list);
    }
  }

  /** A fresh node that takes no position over keeps the data exactly when its keys fit. */
  lemma FreshNodeConservesIff(ring: Ring, hash: HashFunction, count: nat, stores: Stores, node: string,
                              moves: seq<Move>)
    requires AtRest(ring, hash, stores) && node !in stores && NoneTaken(ring, hash, count, node)
    requires VisitOrder(ring, hash, count, stores, node, moves)
    ensures var route := Router(AddTo(ring, hash, count, node), hash);
            Conserved(stores, Router(ring, hash), MoveAll(Joined(stores, node), node, moves), route)
            <==> |Incoming(stores, node, route)| <= STORE_CAPACITY
  {
    hide Route, AddTo, MoveAll, Schedule, Exhausted, ScannedSet, Conserved, Incoming, NoneTaken;
    var prior, route := Router(ring, hash), Router(AddTo(ring, hash, count, node), hash);
    IsRebalanced(ring, hash, count, stores, node, moves);
    assert stores - {node} == stores;
    AddConservesIff(stores, node, moves, prior, route, Visited(ring, hash, count, stores, node));
    forall k | k in Incoming(stores, node, route) ensures prior(k) in Visited(ring, hash, count, stores, node) {
      IncomingIsScanned(ring, hash, count, node, stores, k);
    }
  }

  /** Adding a member again, when no position changes its owner, keeps the data exactly when the
      member's store was empty. */
  lemma ReAddConservesIff(ring: Ring, hash: HashFunction, count: nat, stores: Stores, node: string, moves: seq<Move>)
    requires AtRest(ring, hash, stores) && node in stores && VisitOrder(ring, hash, count, stores, node, moves)
    requires AddTo(ring, hash, count, node).owners == ring.owners
    ensures Conserved(stores, Router(ring, hash), MoveAll(Joined(stores, node), node, moves),
                      Router(AddTo(ring, hash, count, node), hash))
            <==> stores[node].list == []
  {
    hide MoveAll, Schedule, Exhausted, ScannedSet, Conserved;
    var prior, route := Router(ring, hash), Router(AddTo(ring, hash, count, node), hash);
    forall k ensures prior(k) == route(k) {
      SameOwnersSameRoute(ring, AddTo(ring, hash, count, node), hash(k)) by {
        AddConsistent(ring, hash, count, node);
      }
    }
    hide Route, AddTo, Incoming;
    IsRebalanced(ring, hash, count, stores, node, moves);
    AddConservesIff(stores, node, moves, prior, route, Visited(ring, hash, count, stores, node));
    NothingIncoming(stores, node, prior, route);
  }

  lemma NothingIncoming(stores: Stores, node: string, prior: string -> string, route: string -> string)
    requires Placed(stores, prior) && forall k :: prior(k) == route(k)
    ensures Incoming(stores - {node}, node, route) == {}
  {
    assert Placed(stores - {node}, prior);
    assert Incoming(stores - {node}, node, route) == {};
  }

  /** A node all of whose positions were taken scans nobody but itself: whatever it takes over
      is lost to lookups. */
  lemma AllTakenStrands(ring: Ring, hash: HashFunction, count: nat, stores: Stores, node: string, n: string)
    requires AtRest(ring, hash, stores) && node !in stores && n != node
    requires forall p :: p in VirtualHashes(hash, node, count) ==> p in ring.owners
    ensures !Scans(AddTo(ring, hash, count, node).owners, ring.sorted, node, n)
  {
    var owners := AddTo(ring, hash, count, node).owners;
    forall p | p in owners && owners[p] == node ensures OldOwner(owners, ring.sorted, p) == node {
      TakenScansNothing(ring, hash, count, node, p);
    }
  }

  // ----- Inputs that lose data -----

  /** Every label hashes to the same position. */
  const SAME: HashFunction := key => 5

  /** A store holding one pair. */
  function OneEntry(key: string, value: string): Lru {
    Put(Empty(STORE_CAPACITY, 0), key, value)
  }

  lemma OneEntryHolds(key: string, value: string)
    ensures Store(OneEntry(key, value)) && OneEntry(key, value).list == [Entry(key, value)]
    ensures Lookup(OneEntry(key, value).list, key) == Some(value) && Keys(OneEntry(key, value).list) == {key}
  {
    PutStore(Empty(STORE_CAPACITY, 0), key, value);
    assert OneEntry(key, value).list == [Entry(key, value)] + [];
  }

  /** After the last AddNode its node owns the one position there is. */
  lemma SamePosition(ring: Ring, node: string)
    requires Consistent(ring) && forall h :: h in ring.owners ==> h == 5
    ensures var r := AddTo(ring, SAME, 1, node);
            && Consistent(r) && r.owners == map[5 := node] && r.sorted != [] && 5 in r.sorted
            && forall h :: Route(r, h) == node
  {
    var r := AddTo(ring, SAME, 1, node);
    AddConsistent(ring, SAME, 1, node);
    assert VirtualHashes(SAME, node, 1) == [5];
    assert 5 in r.owners;
    forall h ensures Route(r, h) == node {
      RouteSuccessor(r, h);
    }
  }

  /** "B" has joined last and owns the one position; "A" may have joined before. */
  function StrandRing(member: bool): Ring {
    Build(SAME, 1, if member then ["A", "B"] else ["B"])
  }

  function StrandStores(member: bool): Stores {
    var b := map["B" := OneEntry("k", "v")];
    if member then b["A" := Empty(STORE_CAPACITY, 0)] else b
  }

  lemma StrandRingIs(member: bool)
    ensures var ring := StrandRing(member);
            && Consistent(ring) && ring.owners == map[5 := "B"] && ring.sorted != [] && 5 in ring.sorted
            && (forall h :: Route(ring, h) == "B")
            && (forall h :: Route(AddTo(ring, SAME, 1, "A"), h) == "A")
            && AddTo(ring, SAME, 1, "A").owners == map[5 := "A"]
  {
    var first := Build(SAME, 1, if member then ["A"] else []);
    assert ["A", "B"][..1] == ["A"] && ["B"][..0] == [] && ["A"][..0] == [];
    SamePosition(EMPTY, "A");
    assert StrandRing(member) == AddTo(first, SAME, 1, "B");
    hide AddTo, Build, Route;
    SamePosition(first, "B");
    SamePosition(StrandRing(member), "A");
  }

  lemma StrandStoresAre(member: bool)
    ensures var stores := StrandStores(member);
            && AllStores(stores) && stores.Keys == (if member then {"A", "B"} else {"B"})
            && Lookup(stores["B"].list, "k") == Some("v")
            && (forall n, k :: n in stores && k in Keys(stores[n].list) ==> n == "B")
            && (member ==> stores["A"].list == [])
  {
    OneEntryHolds("k", "v");
    hide OneEntry;
  }

  /** The new node's one position was taken from "B": "B" is not scanned and keeps the key, and
      lookups ask "A". It makes no difference whether "A" is new or a member with an empty store. */
  lemma TakenPositionStrands(member: bool)
    ensures var (ring, stores) := (StrandRing(member), StrandStores(member));
            var (after, result) := (AddTo(ring, SAME, 1, "A"), MoveAll(Joined(stores, "A"), "A", []));
            && AtRest(ring, SAME, stores) && VisitOrder(ring, SAME, 1, stores, "A", [])
            && ("A" in stores ==> stores["A"].list == [])
            && Find(stores, Router(ring, SAME), "k") == Some("v")
            && Find(result, Router(after, SAME), "k") == None
  {
    StrandRingIs(member);
    StrandStoresAre(member);
    var ring, stores := StrandRing(member), StrandStores(member);
    hide StrandRing, StrandStores, AddTo, Route, Consistent;
    NoneScanned(ring, stores, "A");
    hide VisitOrder;
    assert MoveAll(Joined(stores, "A"), "A", []) == Joined(stores, "A");
    assert Joined(stores, "A")["A"].list == [];
  }

  lemma NoneScanned(ring: Ring, stores: Stores, node: string)
    requires Consistent(ring) && ring.owners == map[5 := "B"] && ring.sorted != []
    requires var after := AddTo(ring, SAME, 1, node);
             after.owners == map[5 := node] && forall h :: Route(after, h) == node
    ensures VisitOrder(ring, SAME, 1, stores, node, [])
  {
    var after := AddTo(ring, SAME, 1, node);
    RouteSuccessor(ring, 5);
    assert OldOwner(after.owners, ring.sorted, 5) == node;
    assert forall n :: n in ScannedSet(after.owners, ring.sorted, node, stores.Keys + {node}) ==> n == node;
  }

  /** Adding the only member again: its data is gone. */
  lemma ReAddLoses()
    ensures var (ring, stores) := (StrandRing(false), StrandStores(false));
            var (after, result) := (AddTo(ring, SAME, 1, "B"), MoveAll(Joined(stores, "B"), "B", []));
            && AtRest(ring, SAME, stores) && VisitOrder(ring, SAME, 1, stores, "B", [])
            && Find(stores, Router(ring, SAME), "k") == Some("v")
            && Find(result, Router(after, SAME), "k") == None
  {
    StrandRingIs(false);
    StrandStoresAre(false);
    var ring, stores := StrandRing(false), StrandStores(false);
    SamePosition(ring, "B");
    hide StrandRing, StrandStores, AddTo, Route, Consistent;
    NoneScanned(ring, stores, "B");
    hide VisitOrder;
    assert MoveAll(Joined(stores, "B"), "B", []) == Joined(stores, "B");
    assert Joined(stores, "B")["B"].list == [];
  }

  // ----- Removal -----

  lemma RouteAfterRemove(ring: Ring, hash: HashFunction, node: string, k: string)
    requires Consistent(ring) && Named(ring.owners)
    ensures var (prior, route) := (Router(ring, hash), Router(RemoveFrom(ring, node), hash));
            && (prior(k) != node ==> route(k) == prior(k))
            && (RemoveFrom(ring, node).sorted != [] ==>
                  (route(k) != node && exists h :: h in ring.owners && ring.owners[h] == route(k)))
  {
    hide Successor, Surviving, Sorted;
    var after := RemoveFrom(ring, node);
    if ring.sorted == [] {
      assert after.sorted == [] by { RemovedIsEmpty(ring, node); }
    } else if after.sorted == [] {
      LastNodeOwnsAll(ring, node, hash(k));
    } else {
      RemoveDisruption(ring, node, hash(k));
      RouteIsOwner(after, hash(k));
      var p :| p in after.owners && after.owners[p] == Route(after, hash(k));
      assert p in ring.owners && ring.owners[p] == after.owners[p];
    }
  }

  lemma RemovedIsEmpty(ring: Ring, node: string)
    requires ring.sorted == []
    ensures RemoveFrom(ring, node).sorted == []
  {
  }

  /** RemoveNode, in any order of the removed data: each key of the node finds a survivor, and
      the data survives exactly when every survivor has room for what it inherits. */
  lemma RemoveNodeConservesIff(ring: Ring, hash: HashFunction, stores: Stores, node: string, order: seq<Entry>)
    requires AtRest(ring, hash, stores) && node in stores && IsOrder(order, Data(stores[node]))
    requires RemoveFrom(ring, node).sorted == [] ==> stores[node].list == []
    ensures var (after, route) := (RemoveFrom(ring, node), Router(RemoveFrom(ring, node), hash));
            var result := PutEach(stores - {node}, route, order);
            && node !in result
            && ((forall k :: Find(result, route, k) == Find(stores, Router(ring, hash), k))
                <==> RoomForAll(stores, node, route))
            && (RoomForAll(stores, node, route) ==> AtRest(after, hash, result))
  {
    RemovalOrphans(ring, hash, stores, node, order);
    var prior, route := Router(ring, hash), Router(RemoveFrom(ring, node), hash);
    RemoveConservesIff(stores, node, order, prior, route);
    RemoveConsistentIff(ring, node);
    PutEachStores(stores, node, route, order);
    if RoomForAll(stores, node, route) {
      RemoveConserves(stores, node, order, prior, route);
    }
  }

  lemma RemovalOrphans(ring: Ring, hash: HashFunction, stores: Stores, node: string, order: seq<Entry>)
    requires AtRest(ring, hash, stores) && node in stores && IsOrder(order, Data(stores[node]))
    requires RemoveFrom(ring, node).sorted == [] ==> stores[node].list == []
    ensures Orphaned(stores, node, order, Router(ring, hash), Router(RemoveFrom(ring, node), hash))
  {
    hide Route, RemoveFrom, IsOrder, Data;
    var prior, route := Router(ring, hash), Router(RemoveFrom(ring, node), hash);
    forall k ensures prior(k) != node ==> route(k) == prior(k) {
      RouteAfterRemove(ring, hash, node, k);
    }
    forall k | k in Keys(stores[node].list) ensures route(k) in stores && route(k) != node {
      RouteAfterRemove(ring, hash, node, k);
    }
  }
}
