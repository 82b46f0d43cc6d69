/** When the cache forgets nothing: as long as the keys ever set fit into one store, calls, additions and
    removals in any order leave every lookup what a plain map would answer. */
module Retention {
  import opened Wrappers
  import opened LruSpec
  import opened ConsistentHash
  import opened Migration
  import opened Rebalance
  import opened History

  function EverSet(events: seq<Event>): set<string> {
    set e | e in events && e.SetEvent? :: e.key
  }

  /** The nodes that are in the cache. */
  function Members(nodes: seq<string>, events: seq<Event>): set<string> {
    if events == [] then set n | n in nodes
    else
      var before := Members(nodes, events[..|events| - 1]);
      match events[|events| - 1]
      case AddEvent(n, _) => before + {n}
      case RemoveEvent(n, _) => before - {n}
      case _ => before
  }

  /** No node is added while it is a member. */
  predicate FreshAdds(nodes: seq<string>, events: seq<Event>) {
    if events == [] then true
    else
      var front, e := events[..|events| - 1], events[|events| - 1];
      FreshAdds(nodes, front) && (e.AddEvent? ==> e.node !in Members(nodes, front))
  }

  /** Every key that was set and not deleted is found with its value, in stores of equal size. */
  ghost predicate Full(hash: HashFunction, w: World, seen: map<string, string>) {
    && (forall n :: n in w.stores ==> w.stores[n].capacity == STORE_CAPACITY)
    && forall k :: k in seen ==> Answers(hash, w, seen, k)
  }

  ghost predicate Answers(hash: HashFunction, w: World, seen: map<string, string>, k: string)
    requires k in seen
  {
    Find(w.stores, Router(w.ring, hash), k) == Some(seen[k])
  }

  // ----- Sizes -----

  lemma StoredIsSeen(hash: HashFunction, count: nat, w: World, seen: map<string, string>, n: string)
    requires Sound(hash, count, w, seen) && n in w.stores
    ensures Keys(w.stores[n].list) <= seen.Keys && Distinct(w.stores[n].list)
    ensures |Keys(w.stores[n].list)| == |w.stores[n].list|
  {
    hide Route, Consistent, IsRingOf, Placed, Named;
    assert Current(w.stores[n].list, seen, Router(w.ring, hash), n);
    assert Store(w.stores[n]);
    KeysCount(w.stores[n].list);
  }

  lemma HasRoom(hash: HashFunction, count: nat, w: World, seen: map<string, string>, n: string, key: string,
                ever: set<string>)
    requires Sound(hash, count, w, seen) && Full(hash, w, seen) && n in w.stores
    requires seen.Keys <= ever && key in ever && |ever| <= STORE_CAPACITY
    ensures key in Keys(w.stores[n].list) || |w.stores[n].list| < w.stores[n].capacity
  {
    hide Sound, Keys;
    StoredIsSeen(hash, count, w, seen, n);
    if key !in Keys(w.stores[n].list) {
      StrictSubset(Keys(w.stores[n].list), ever, key);
    }
  }

  lemma IncomingFits(hash: HashFunction, count: nat, w: World, seen: map<string, string>, node: string,
                     route: string -> string, ever: set<string>)
    requires Sound(hash, count, w, seen) && seen.Keys <= ever
    ensures |Incoming(w.stores, node, route)| <= |ever|
  {
    hide Sound;
    forall n | n in w.stores {
      StoredIsSeen(hash, count, w, seen, n);
    }
    SubsetSize(Incoming(w.stores, node, route), ever);
  }

  lemma SurvivorsFit(hash: HashFunction, count: nat, w: World, seen: map<string, string>, node: string,
                     route: string -> string, ever: set<string>)
    requires Sound(hash, count, w, seen) && Full(hash, w, seen) && node in w.stores
    requires seen.Keys <= ever && |ever| <= STORE_CAPACITY
    ensures RoomForAll(w.stores, node, route)
  {
    hide Full, Sound, Keys, Route;
    forall m | m in w.stores && m != node ensures RoomAt(w.stores, node, route, m) {
      StoredIsSeen(hash, count, w, seen, m);
      StoredIsSeen(hash, count, w, seen, node);
      var own, more := Keys(w.stores[m].list), Inbound(w.stores[node].list, route, m);
      assert own !! more by { PlacedApart(hash, count, w, seen, m, node); }
      assert more <= Keys(w.stores[node].list);
      SubsetSize(own + more, ever);
      assert |own + more| == |own| + |more|;
      assert w.stores[m].capacity == STORE_CAPACITY by { FullCapacity(hash, w, seen, m); }
    }
  }

  lemma FullCapacity(hash: HashFunction, w: World, seen: map<string, string>, n: string)
    requires Full(hash, w, seen) && n in w.stores
    ensures w.stores[n].capacity == STORE_CAPACITY
  {
  }

  lemma PlacedApart(hash: HashFunction, count: nat, w: World, seen: map<string, string>, m: string, n: string)
    requires Sound(hash, count, w, seen) && m in w.stores && n in w.stores && m != n
    ensures Keys(w.stores[m].list) !! Keys(w.stores[n].list)
  {
    hide Route, Consistent, IsRingOf, Keys, AllCurrent;
    forall k | k in Keys(w.stores[m].list) ensures k !in Keys(w.stores[n].list) {
      assert Router(w.ring, hash)(k) == m;
    }
  }

  // ----- What every step keeps -----

  lemma CallFull(hash: HashFunction, count: nat, w: World, seen: map<string, string>, n: string, s: Lru,
                 now: map<string, string>, key: string)
    requires Full(hash, w, seen) && n in w.stores && n == Route(w.ring, hash(key)) && s.capacity == STORE_CAPACITY
    requires Elsewhere(seen, now, key)
    requires forall k :: k != key ==> Lookup(s.list, k) == Lookup(w.stores[n].list, k)
    requires key in now ==> Lookup(s.list, key) == Some(now[key])
    ensures Full(hash, w.(stores := w.stores[n := s]), now)
  {
    hide Route, Lookup;
    var after := w.(stores := w.stores[n := s]);
    forall k | k in now ensures Answers(hash, after, now, k) {
      if k != key {
        assert Answers(hash, w, seen, k);
      }
    }
  }

  lemma SetFull(hash: HashFunction, count: nat, w: World, seen: map<string, string>, key: string, value: string,
                ever: set<string>)
    requires Sound(hash, count, w, seen) && Full(hash, w, seen)
    requires seen.Keys <= ever && key in ever && |ever| <= STORE_CAPACITY
    requires Possible(hash, count, w, SetEvent(key, value))
    ensures Full(hash, Apply(hash, count, w, SetEvent(key, value)), seen[key := value])
  {
    hide Put, Full, Route, Placed, Consistent, IsRingOf, AllCurrent;
    var n := Route(w.ring, hash(key));
    var s := w.stores[n];
    assert Store(s);
    HasRoom(hash, count, w, seen, n, key, ever);
    FullCapacity(hash, w, seen, n);
    PutStore(s, key, value);
    forall k { PutRoom(s, key, value, k); }
    CallFull(hash, count, w, seen, n, Put(s, key, value), seen[key := value], key);
  }

  lemma GetFull(hash: HashFunction, count: nat, w: World, seen: map<string, string>, key: string, now: int)
    requires Sound(hash, count, w, seen) && Full(hash, w, seen) && Possible(hash, count, w, GetEvent(key, now))
    ensures Full(hash, Apply(hash, count, w, GetEvent(key, now)), seen)
  {
    var n := Route(w.ring, hash(key));
    var s := w.stores[n];
    assert Fetch(s, key, now).0.capacity == s.capacity;
    hide Fetch, Full, Route, Placed, Consistent, IsRingOf, AllCurrent;
    assert Store(s);
    FullCapacity(hash, w, seen, n);
    forall k { FetchKeeps(s, key, now, k); }
    assert key in seen ==> Lookup(s.list, key) == Some(seen[key]) by {
      if key in seen { FullAt(hash, w, seen, key); }
    }
    CallFull(hash, count, w, seen, n, Fetch(s, key, now).0, seen, key);
  }

  lemma FullAt(hash: HashFunction, w: World, seen: map<string, string>, k: string)
    requires Full(hash, w, seen) && k in seen
    ensures Find(w.stores, Router(w.ring, hash), k) == Some(seen[k])
  {
    assert Answers(hash, w, seen, k);
  }

  lemma DeleteFull(hash: HashFunction, count: nat, w: World, seen: map<string, string>, key: string)
    requires Sound(hash, count, w, seen) && Full(hash, w, seen) && Possible(hash, count, w, DeleteEvent(key))
    ensures Full(hash, Apply(hash, count, w, DeleteEvent(key)), seen - {key})
  {
    hide LruSpec.Delete, Full, Route, Placed, Consistent, IsRingOf, AllCurrent;
    var n := Route(w.ring, hash(key));
    var s := w.stores[n];
    assert Store(s);
    FullCapacity(hash, w, seen, n);
    DeleteStore(s, key);
    forall k { LookupDrop(s.list, {key}, k); }
    CallFull(hash, count, w, seen, n, LruSpec.Delete(s, key), seen - {key}, key);
  }

  /** Whatever keeps all lookups and the store sizes keeps the cache full. */
  lemma KeptFull(hash: HashFunction, w: World, after: World, seen: map<string, string>)
    requires Full(hash, w, seen) && forall n :: n in after.stores ==> after.stores[n].capacity == STORE_CAPACITY
    requires forall k :: Find(after.stores, Router(after.ring, hash), k) == Find(w.stores, Router(w.ring, hash), k)
    ensures Full(hash, after, seen)
  {
    hide Find, Route;
    forall k | k in seen ensures Answers(hash, after, seen, k) {
      assert Answers(hash, w, seen, k);
    }
  }

  lemma AddFull(hash: HashFunction, count: nat, w: World, seen: map<string, string>, node: string, moves: seq<Move>,
                ever: set<string>)
    requires Sound(hash, count, w, seen) && Full(hash, w, seen) && seen.Keys <= ever && |ever| <= STORE_CAPACITY
    requires Possible(hash, count, w, AddEvent(node, moves)) && node !in w.stores
    requires CollisionFree(hash, count, w.stores.Keys + {node})
    ensures Full(hash, Apply(hash, count, w, AddEvent(node, moves)), seen)
  {
    hide Route, MoveAll, Placed, Consistent, AllCurrent, VisitOrder, AddTo, Find, Full, CollisionFree, AllStores;
    FreshNoneTaken(w.ring, hash, count, w.stores.Keys, node);
    IncomingFits(hash, count, w, seen, node, Router(AddTo(w.ring, hash, count, node), hash), ever);
    AddNodeCompletes(w.ring, hash, count, w.stores, node, moves);
    JoinedStores(w.stores, node);
    MoveAllStores(Joined(w.stores, node), node, moves);
    forall n | n in w.stores { FullCapacity(hash, w, seen, n); }
    KeptFull(hash, w, Apply(hash, count, w, AddEvent(node, moves)), seen);
  }

  lemma RemoveFull(hash: HashFunction, count: nat, w: World, seen: map<string, string>, node: string,
                   order: seq<Entry>, ever: set<string>)
    requires Sound(hash, count, w, seen) && Full(hash, w, seen) && seen.Keys <= ever && |ever| <= STORE_CAPACITY
    requires Possible(hash, count, w, RemoveEvent(node, order))
    ensures Full(hash, Apply(hash, count, w, RemoveEvent(node, order)), seen)
  {
    hide Route, PutEach, Placed, Consistent, AllCurrent, RemoveFrom, Find, Full, RoomForAll, AllStores, IsOrder;
    var route := Router(RemoveFrom(w.ring, node), hash);
    SurvivorsFit(hash, count, w, seen, node, route, ever);
    RemoveNodeConservesIff(w.ring, hash, w.stores, node, order);
    PutEachStores(w.stores, node, route, order);
    forall n | n in w.stores { FullCapacity(hash, w, seen, n); }
    KeptFull(hash, w, Apply(hash, count, w, RemoveEvent(node, order)), seen);
  }

  // ----- Whole lives -----

  lemma {:induction false} LatestEver(events: seq<Event>)
    ensures Latest(events).Keys <= EverSet(events)
  {
    if events != [] {
      LatestEver(events[..|events| - 1]);
      assert events[|events| - 1] in events;
    }
  }

  lemma StepMembers(hash: HashFunction, count: nat, w: World, seen: map<string, string>, e: Event)
    requires Sound(hash, count, w, seen) && Possible(hash, count, w, e)
    ensures Apply(hash, count, w, e).stores.Keys == match e
              case AddEvent(n, _) => w.stores.Keys + {n}
              case RemoveEvent(n, _) => w.stores.Keys - {n}
              case _ => w.stores.Keys
  {
    hide Put, LruSpec.Delete, Fetch, Route, MoveAll, PutEach, AddTo, RemoveFrom, Placed, Consistent, AllCurrent;
    match e
    case AddEvent(n, moves) =>
      JoinedStores(w.stores, n);
      MoveAllStores(Joined(w.stores, n), n, moves);
    case RemoveEvent(n, order) =>
      PutEachStores(w.stores, n, Router(RemoveFrom(w.ring, n), hash), order);
    case _ =>
  }

  lemma StepFull(hash: HashFunction, count: nat, w: World, events: seq<Event>, e: Event, ever: set<string>)
    requires Sound(hash, count, w, Latest(events)) && Full(hash, w, Latest(events)) && Possible(hash, count, w, e)
    requires EverSet(events + [e]) <= ever && |ever| <= STORE_CAPACITY
    requires e.AddEvent? ==> e.node !in w.stores && CollisionFree(hash, count, w.stores.Keys + {e.node})
    ensures Full(hash, Apply(hash, count, w, e), Latest(events + [e]))
  {
    var seen := Latest(events);
    LatestEver(events);
    assert (events + [e])[..|events|] == events && e in events + [e];
    assert seen.Keys <= ever by {
      forall x | x in events ensures x in events + [e] { }
    }
    hide Sound, Full, Possible, CollisionFree, Apply;
    match e
    case SetEvent(k, v) => SetFull(hash, count, w, seen, k, v, ever);
    case GetEvent(k, now) => GetFull(hash, count, w, seen, k, now);
    case DeleteEvent(k) => DeleteFull(hash, count, w, seen, k);
    case AddEvent(n, moves) => AddFull(hash, count, w, seen, n, moves, ever);
    case RemoveEvent(n, order) => RemoveFull(hash, count, w, seen, n, order, ever);
  }

  lemma StartFull(hash: HashFunction, count: nat, nodes: seq<string>)
    ensures Full(hash, Start(hash, count, nodes), map[])
    ensures Start(hash, count, nodes).stores.Keys == set n | n in nodes
  {
  }

  lemma EverPrefix(events: seq<Event>)
    requires events != []
    ensures EverSet(events[..|events| - 1]) <= EverSet(events)
  {
    assert forall e :: e in events[..|events| - 1] ==> e in events;
  }

  lemma {:induction false} RunFull(hash: HashFunction, count: nat, nodes: seq<string>, events: seq<Event>,
                                   ever: set<string>)
    requires "" !in nodes && CollisionFree(hash, count, NodesOf(nodes, events)) && FreshAdds(nodes, events)
    requires Runs(hash, count, Start(hash, count, nodes), events)
    requires EverSet(events) <= ever && |ever| <= STORE_CAPACITY
    ensures var w := After(hash, count, Start(hash, count, nodes), events);
            Full(hash, w, Latest(events)) && w.stores.Keys == Members(nodes, events)
  {
    hide Sound, Full, Apply, Possible, CollisionFree, Start, EverSet;
    if events == [] {
      StartFull(hash, count, nodes);
    } else {
      var n := |events| - 1;
      var w := After(hash, count, Start(hash, count, nodes), events[..n]);
      NodesStep(nodes, events);
      EverPrefix(events);
      CollisionFreeWithin(hash, count, NodesOf(nodes, events), NodesOf(nodes, events[..n]));
      RunSound(hash, count, nodes, events[..n]);
      RunFull(hash, count, nodes, events[..n], ever);
      if events[n].AddEvent? {
        CollisionFreeWithin(hash, count, NodesOf(nodes, events), w.stores.Keys + {events[n].node});
      }
      assert events == events[..n] + [events[n]];
      StepFull(hash, count, w, events[..n], events[n], ever);
      StepMembers(hash, count, w, Latest(events[..n]), events[n]);
    }
  }

  /** While the keys ever set are no more than one store holds and no member is added again, the cache is a
      map: after any run of calls, additions and removals without collisions, a lookup finds the value of the
      latest Set not followed by a Delete, and nothing if there is none. */
  lemma NothingForgotten(hash: HashFunction, count: nat, nodes: seq<string>, events: seq<Event>, key: string)
    requires "" !in nodes && CollisionFree(hash, count, NodesOf(nodes, events)) && FreshAdds(nodes, events)
    requires Runs(hash, count, Start(hash, count, nodes), events) && |EverSet(events)| <= STORE_CAPACITY
    ensures var w := After(hash, count, Start(hash, count, nodes), events); var latest := Latest(events);
            Find(w.stores, Router(w.ring, hash), key) == if key in latest then Some(latest[key]) else None
  {
    var w := After(hash, count, Start(hash, count, nodes), events);
    RunFull(hash, count, nodes, events, EverSet(events));
    FoundIsLatest(hash, count, nodes, events, key);
    hide Full, Find, Route;
    if key in Latest(events) {
      FullAt(hash, w, Latest(events), key);
    }
  }
}
