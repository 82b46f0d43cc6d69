/** The cache over a whole life: client calls and membership changes in any order, stores that evict,
    migrations that lose what does not fit. */
module History {
  import opened Wrappers
  import opened LruSpec
  import opened ConsistentHash
  import opened Migration
  import opened Distributed
  import opened Rebalance

  /** One call, with the order its loops over Go maps took. */
  datatype Event =
    | SetEvent(key: string, value: string)
    | GetEvent(key: string, now: int)
    | DeleteEvent(key: string)
    | AddEvent(node: string, moves: seq<Move>)
    | RemoveEvent(node: string, order: seq<Entry>)

  datatype World = World(ring: Ring, stores: Stores)

  /** Client calls need a ring with a position; removing the last node while it holds data panics. */
  ghost predicate Possible(hash: HashFunction, count: nat, w: World, e: Event) {
    match e
    case AddEvent(n, moves) => n != "" && VisitOrder(w.ring, hash, count, w.stores, n, moves)
    case RemoveEvent(n, order) =>
      && n in w.stores && IsOrder(order, Data(w.stores[n]))
      && (RemoveFrom(w.ring, n).sorted == [] ==> w.stores[n].list == [])
    case _ => w.ring.sorted != [] && Route(w.ring, hash(e.key)) in w.stores
  }

  ghost function Apply(hash: HashFunction, count: nat, w: World, e: Event): World
    requires Possible(hash, count, w, e)
  {
    match e
    case SetEvent(k, v) =>
      var n := Route(w.ring, hash(k)); w.(stores := w.stores[n := Put(w.stores[n], k, v)])
    case GetEvent(k, now) =>
      var n := Route(w.ring, hash(k)); w.(stores := w.stores[n := Fetch(w.stores[n], k, now).0])
    case DeleteEvent(k) =>
      var n := Route(w.ring, hash(k)); w.(stores := w.stores[n := LruSpec.Delete(w.stores[n], k)])
    case AddEvent(n, moves) =>
      World(AddTo(w.ring, hash, count, n), MoveAll(Joined(w.stores, n), n, moves))
    case RemoveEvent(n, order) =>
      var ring := RemoveFrom(w.ring, n);
      World(ring, PutEach(w.stores - {n}, Router(ring, hash), order))
  }

  /** The cache the constructor makes. */
  function Start(hash: HashFunction, count: nat, nodes: seq<string>): World {
    World(Build(hash, count, nodes), map n | n in nodes :: Empty(STORE_CAPACITY, 0))
  }

  ghost predicate Runs(hash: HashFunction, count: nat, w: World, events: seq<Event>)
    decreases |events|, 0
  {
    events == [] ||
    (var n := |events| - 1;
     Runs(hash, count, w, events[..n]) && Possible(hash, count, After(hash, count, w, events[..n]), events[n]))
  }

  ghost function After(hash: HashFunction, count: nat, w: World, events: seq<Event>): World
    requires Runs(hash, count, w, events)
    decreases |events|, 1
  {
    if events == [] then w
    else
      var n := |events| - 1;
      Apply(hash, count, After(hash, count, w, events[..n]), events[n])
  }

  /** The latest Set of each key not followed by a Delete. */
  function Latest(events: seq<Event>): map<string, string> {
    if events == [] then map[]
    else
      var seen := Latest(events[..|events| - 1]);
      match events[|events| - 1]
      case SetEvent(k, v) => seen[k := v]
      case DeleteEvent(k) => seen - {k}
      case _ => seen
  }

  /** Every node ever named. */
  function NodesOf(nodes: seq<string>, events: seq<Event>): set<string> {
    (set n | n in nodes) + set e | e in events && e.AddEvent? :: e.node
  }

  // ----- What every step keeps -----

  ghost predicate Sound(hash: HashFunction, count: nat, w: World, seen: map<string, string>) {
    && AtRest(w.ring, hash, w.stores) && IsRingOf(w.ring.owners, hash, count, w.stores.Keys)
    && AllCurrent(w.stores, seen, Router(w.ring, hash))
  }

  lemma ClientKeeps(hash: HashFunction, count: nat, w: World, seen: map<string, string>, n: string, s: Lru,
                    now: map<string, string>, key: string)
    requires Sound(hash, count, w, seen) && n in w.stores && n == Route(w.ring, hash(key))
    requires Store(s) && Current(s.list, now, Router(w.ring, hash), n) && Elsewhere(seen, now, key)
    ensures Sound(hash, count, w.(stores := w.stores[n := s]), now)
  {
    hide Route, Consistent, Current;
    OneStoreCurrent(w.stores, seen, Router(w.ring, hash), n, s, now, key);
    CurrentPlaced(w.stores[n := s], now, Router(w.ring, hash));
  }

  /** Whatever a ring change leaves of the data is still current. */
  lemma HomeCurrent(before: Stores, prior: string -> string, after: Stores, route: string -> string,
                    seen: map<string, string>)
    requires AllCurrent(before, seen, prior)
    requires forall n :: n in after ==> AtHome(before, prior, after[n].list, route, n)
    ensures AllCurrent(after, seen, route)
  {
    forall n | n in after ensures Current(after[n].list, seen, route, n) {
      assert AtHome(before, prior, after[n].list, route, n);
      forall k | Lookup(after[n].list, k).Some? ensures k in seen && Lookup(after[n].list, k) == Some(seen[k]) {
        assert Current(before[prior(k)].list, seen, prior, prior(k));
      }
    }
  }

  /** Adding a member again claims the positions it has. */
  lemma ReAddKeepsOwners(ring: Ring, hash: HashFunction, count: nat, members: set<string>, node: string)
    requires IsRingOf(ring.owners, hash, count, members) && node in members
    ensures AddTo(ring, hash, count, node).owners == ring.owners
  {
    assert forall h :: h in VirtualHashes(hash, node, count) ==> Claims(hash, count, node, h);
  }

  lemma CollisionFreeWithin(hash: HashFunction, count: nat, names: set<string>, fewer: set<string>)
    requires CollisionFree(hash, count, names) && fewer <= names
    ensures CollisionFree(hash, count, fewer)
  {
  }

  lemma AddScans(hash: HashFunction, count: nat, w: World, node: string)
    requires AtRest(w.ring, hash, w.stores) && IsRingOf(w.ring.owners, hash, count, w.stores.Keys)
    requires CollisionFree(hash, count, w.stores.Keys + {node})
    ensures AllScanned(w.stores - {node}, node, Router(w.ring, hash), Router(AddTo(w.ring, hash, count, node), hash),
                       Visited(w.ring, hash, count, w.stores, node))
  {
    var after := AddTo(w.ring, hash, count, node);
    var prior, route := Router(w.ring, hash), Router(after, hash);
    if node in w.stores {
      ReAddKeepsOwners(w.ring, hash, count, w.stores.Keys, node);
      AddConsistent(w.ring, hash, count, node);
      forall k ensures prior(k) == route(k) {
        SameOwnersSameRoute(w.ring, after, hash(k));
      }
      NothingIncoming(w.stores, node, prior, route);
    } else {
      FreshNoneTaken(w.ring, hash, count, w.stores.Keys, node);
      assert w.stores - {node} == w.stores;
      hide AddTo, Route, NoneTaken;
      forall k | k in Incoming(w.stores, node, route) ensures prior(k) in Visited(w.ring, hash, count, w.stores, node) {
        IncomingIsScanned(w.ring, hash, count, node, w.stores, k);
      }
    }
  }

  lemma AddSound(hash: HashFunction, count: nat, w: World, seen: map<string, string>, node: string, moves: seq<Move>)
    requires Sound(hash, count, w, seen) && node != "" && VisitOrder(w.ring, hash, count, w.stores, node, moves)
    requires CollisionFree(hash, count, w.stores.Keys + {node})
    ensures Sound(hash, count, World(AddTo(w.ring, hash, count, node), MoveAll(Joined(w.stores, node), node, moves)),
        seen)
  {
    hide MoveAll, Route, AddTo, AllScanned, Placed, AtHome;
    var ring, stores := AddTo(w.ring, hash, count, node), MoveAll(Joined(w.stores, node), node, moves);
    var prior, route := Router(w.ring, hash), Router(ring, hash);
    AddScans(hash, count, w, node);
    IsRebalanced(w.ring, hash, count, w.stores, node, moves);
    AddKeepsPlaced(w.stores, node, moves, prior, route, Visited(w.ring, hash, count, w.stores, node));
    HomeCurrent(w.stores, prior, stores, route, seen);
    CurrentPlaced(stores, seen, route);
    AddRingOf(w.ring, hash, count, w.stores.Keys, node);
    AddConsistent(w.ring, hash, count, node);
  }

  lemma RemoveSound(hash: HashFunction, count: nat, w: World, seen: map<string, string>, node: string,
                    order: seq<Entry>)
    requires Sound(hash, count, w, seen) && Possible(hash, count, w, RemoveEvent(node, order))
    ensures Sound(hash, count, Apply(hash, count, w, RemoveEvent(node, order)), seen)
  {
    hide Route, Placed, AtHome, PutEach, IsOrder, Data, RemoveFrom;
    var ring := RemoveFrom(w.ring, node);
    var prior, route := Router(w.ring, hash), Router(ring, hash);
    var stores := PutEach(w.stores - {node}, route, order);
    RemovalOrphans(w.ring, hash, w.stores, node, order);
    RemoveKeepsPlaced(w.stores, node, order, prior, route);
    HomeCurrent(w.stores, prior, stores, route, seen);
    CurrentPlaced(stores, seen, route);
    RemoveRingOf(w.ring, hash, count, w.stores.Keys, node);
    RemoveConsistentIff(w.ring, node);
  }

  lemma StepSound(hash: HashFunction, count: nat, w: World, events: seq<Event>, e: Event)
    requires Sound(hash, count, w, Latest(events)) && Possible(hash, count, w, e)
    requires e.AddEvent? ==> CollisionFree(hash, count, w.stores.Keys + {e.node})
    ensures Sound(hash, count, Apply(hash, count, w, e), Latest(events + [e]))
  {
    var seen := Latest(events);
    assert (events + [e])[..|events|] == events;
    match e
    case AddEvent(n, moves) => AddSound(hash, count, w, seen, n, moves);
    case RemoveEvent(n, order) => RemoveSound(hash, count, w, seen, n, order);
    case _ =>
      hide Sound, Put, LruSpec.Delete, Fetch, Current;
      ClientSound(hash, count, w, seen, e);
  }

  lemma ClientSound(hash: HashFunction, count: nat, w: World, seen: map<string, string>, e: Event)
    requires Sound(hash, count, w, seen) && Possible(hash, count, w, e) && !e.AddEvent? && !e.RemoveEvent?
    ensures Sound(hash, count, Apply(hash, count, w, e),
                  match e case SetEvent(k, v) => seen[k := v] case DeleteEvent(k) => seen - {k} case _ => seen)
  {
    hide Put, LruSpec.Delete, Fetch, Route, Consistent, IsRingOf;
    var route, n := Router(w.ring, hash), Route(w.ring, hash(e.key));
    var s := w.stores[n];
    assert Current(s.list, seen, route, n);
    hide Current;
    match e
    case SetEvent(k, v) =>
      PutStore(s, k, v);
      PutCurrent(s, seen, route, n, k, v);
      ClientKeeps(hash, count, w, seen, n, Put(s, k, v), seen[k := v], k);
    case GetEvent(k, now) =>
      FetchKeeps(s, k, now, k);
      FetchCurrent(s, seen, route, n, k, now);
      ClientKeeps(hash, count, w, seen, n, Fetch(s, k, now).0, seen, k);
    case DeleteEvent(k) =>
      DeleteStore(s, k);
      DeleteCurrent(s, seen, route, n, k);
      ClientKeeps(hash, count, w, seen, n, LruSpec.Delete(s, k), seen - {k}, k);
  }

  // ----- Whole lives -----

  lemma EmptyCurrent(nodes: seq<string>, route: string -> string)
    ensures var stores: Stores := map n | n in nodes :: Empty(STORE_CAPACITY, 0);
            AllStores(stores) && Placed(stores, route) && AllCurrent(stores, map[], route)
  {
  }

  lemma StartSound(hash: HashFunction, count: nat, nodes: seq<string>)
    requires "" !in nodes && CollisionFree(hash, count, set n | n in nodes)
    ensures Sound(hash, count, Start(hash, count, nodes), map[])
  {
    BuildIsRing(hash, count, nodes);
    EmptyCurrent(nodes, Router(Build(hash, count, nodes), hash));
    assert Start(hash, count, nodes).stores.Keys == set n | n in nodes;
    hide Build, Route, Consistent, AllStores, Placed, AllCurrent;
  }

  /** After any run of client calls, additions, repeated additions and removals without collisions,
      every stored key sits at its owner with the value last set. */
  lemma {:induction false} RunSound(hash: HashFunction, count: nat, nodes: seq<string>, events: seq<Event>)
    requires "" !in nodes && CollisionFree(hash, count, NodesOf(nodes, events))
    requires Runs(hash, count, Start(hash, count, nodes), events)
    ensures var w := After(hash, count, Start(hash, count, nodes), events);
            Sound(hash, count, w, Latest(events)) && w.stores.Keys <= NodesOf(nodes, events)
  {
    hide Sound, Apply, Possible, CollisionFree;
    if events == [] {
      CollisionFreeWithin(hash, count, NodesOf(nodes, events), set n | n in nodes);
      StartSound(hash, count, nodes);
    } else {
      var n := |events| - 1;
      var w := After(hash, count, Start(hash, count, nodes), events[..n]);
      NodesStep(nodes, events);
      CollisionFreeWithin(hash, count, NodesOf(nodes, events), NodesOf(nodes, events[..n]));
      RunSound(hash, count, nodes, events[..n]);
      if events[n].AddEvent? {
        CollisionFreeWithin(hash, count, NodesOf(nodes, events), w.stores.Keys + {events[n].node});
      }
      assert events == events[..n] + [events[n]];
      StepSound(hash, count, w, events[..n], events[n]);
      StepMembers(hash, count, w, Latest(events[..n]), events[n]);
    }
  }

  lemma NodesStep(nodes: seq<string>, events: seq<Event>)
    requires events != []
    ensures var n := |events| - 1;
            && NodesOf(nodes, events[..n]) <= NodesOf(nodes, events)
            && (events[n].AddEvent? ==> events[n].node in NodesOf(nodes, events))
  {
    var n := |events| - 1;
    assert forall e :: e in events[..n] ==> e in events;
    assert events[n] in events;
  }

  lemma StepMembers(hash: HashFunction, count: nat, w: World, seen: map<string, string>, e: Event)
    requires Sound(hash, count, w, seen) && Possible(hash, count, w, e)
    ensures Apply(hash, count, w, e).stores.Keys <= w.stores.Keys + if e.AddEvent? then {e.node} else {}
  {
    hide Put, LruSpec.Delete, Fetch, Route, MoveAll, PutEach, AddTo, RemoveFrom;
    match e
    case AddEvent(n, moves) =>
      JoinedStores(w.stores, n);
      MoveAllStores(Joined(w.stores, n), n, moves);
    case RemoveEvent(n, order) =>
      PutEachStores(w.stores, n, Router(RemoveFrom(w.ring, n), hash), order);
    case _ =>
  }

  /** A found value is that of the latest Set not followed by a Delete, through evictions, migrations
      and resets alike; a lookup can only be wrong by missing. */
  lemma FoundIsLatest(hash: HashFunction, count: nat, nodes: seq<string>, events: seq<Event>, key: string)
    requires "" !in nodes && CollisionFree(hash, count, NodesOf(nodes, events))
    requires Runs(hash, count, Start(hash, count, nodes), events)
    ensures var w := After(hash, count, Start(hash, count, nodes), events);
            && AtRest(w.ring, hash, w.stores)
            && match Find(w.stores, Router(w.ring, hash), key)
               case Some(value) => key in Latest(events) && value == Latest(events)[key]
               case None => true
  {
    RunSound(hash, count, nodes, events);
    var w := After(hash, count, Start(hash, count, nodes), events);
    var n := Route(w.ring, hash(key));
    assert n in w.stores ==> Current(w.stores[n].list, Latest(events), Router(w.ring, hash), n);
  }
}
