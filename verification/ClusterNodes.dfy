/** The processes of a cluster (distributed/distributed_node.go and
    distributed/cluster_coordinator.go). Each has its own ring, its own address map and its own
    store; a request reaches the owner of its key by at most one forward. The cluster is one
    object whose fields are indexed by node, because a forwarded request changes another node. */
module ClusterNodes {
  import opened Wrappers
  import opened LruSpec
  import opened LruMemory
  import opened ConsistentHash
  import opened Migration
  import NetworkMigration

  /** What one process knows: its ring with the members behind it, and clusterNodes. */
  datatype View = View(membership: Membership, addresses: map<string, string>)

  /** `at` says which process answers at an address. */
  datatype Cluster = Cluster(hash: HashFunction, views: map<string, View>, at: map<string, string>, stores: Stores)

  datatype Target = Local | Forward(node: string) | NoAddress | Unreachable

  /** GetNodeForKey at `entry`, then the lookup in clusterNodes. */
  function Resolve(c: Cluster, entry: string, key: string): Target
    requires entry in c.views
  {
    var v := c.views[entry];
    var owner := Route(v.membership.ring, c.hash(key));
    if owner == entry then Local
    else if owner !in v.addresses then NoAddress
    else if v.addresses[owner] !in c.at then Unreachable
    else Forward(c.at[v.addresses[owner]])
  }

  datatype Reply = Done | Found(value: string) | Missing | Failed

  /** A reply and the number of forwards it took. */
  datatype Outcome = Outcome(reply: Reply, forwards: nat)

  /** The store that serves the request, if any; forwarding is assumed to get through. */
  function Server(c: Cluster, entry: string, key: string): Option<string>
    requires entry in c.views
  {
    match Resolve(c, entry, key)
    case Local => if entry in c.stores then Some(entry) else None
    case Forward(n) => if n in c.stores then Some(n) else None
    case _ => None
  }

  function Hops(c: Cluster, entry: string, key: string): nat
    requires entry in c.views
  {
    match Resolve(c, entry, key)
    case Local => 0
    case NoAddress => 0
    case _ => 1
  }

  /** Set through `entry`. A forwarded PUT with an empty value is refused by the receiver. */
  function SetVia(c: Cluster, entry: string, key: string, value: string): (r: (Cluster, Outcome))
    requires entry in c.views
    ensures r.0.views == c.views && r.0.hash == c.hash && r.0.at == c.at
  {
    match Server(c, entry, key)
    case None => (c, Outcome(Failed, Hops(c, entry, key)))
    case Some(n) =>
      if Resolve(c, entry, key).Forward? && value == "" then (c, Outcome(Failed, 1))
      else (c.(stores := c.stores[n := Put(c.stores[n], key, value)]), Outcome(Done, Hops(c, entry, key)))
  }

  function GetVia(c: Cluster, entry: string, key: string, now: int): (r: (Cluster, Outcome))
    requires entry in c.views
    ensures r.0.views == c.views && r.0.hash == c.hash && r.0.at == c.at
  {
    match Server(c, entry, key)
    case None => (c, Outcome(Failed, Hops(c, entry, key)))
    case Some(n) =>
      var (s, r) := Fetch(c.stores[n], key, now);
      (c.(stores := c.stores[n := s]),
       Outcome(if r.Some? then Found(r.value) else Missing, Hops(c, entry, key)))
  }

  function DeleteVia(c: Cluster, entry: string, key: string): (r: (Cluster, Outcome))
    requires entry in c.views
    ensures r.0.views == c.views && r.0.hash == c.hash && r.0.at == c.at
  {
    match Server(c, entry, key)
    case None => (c, Outcome(Failed, Hops(c, entry, key)))
    case Some(n) =>
      (c.(stores := c.stores[n := LruSpec.Delete(c.stores[n], key)]), Outcome(Done, Hops(c, entry, key)))
  }

  // ----- Location transparency -----

  /** Every process knows the address of `member`, and that member answers there. */
  ghost predicate Known(c: Cluster, entry: string, member: string) {
    entry in c.views && member in c.views[entry].addresses
    && c.views[entry].addresses[member] in c.at && c.at[c.views[entry].addresses[member]] == member
  }

  ghost predicate Agrees(a: Ring, ring: Ring) {
    Consistent(a) && a.owners == ring.owners
  }

  /** The rings of all processes are in step and have the same owners (their position lists may differ
      by repeats), every process knows every owner's address, and every owner has a store. */
  ghost predicate Complete(c: Cluster, ring: Ring) {
    && Consistent(ring) && ring.sorted != []
    && c.views.Keys == c.stores.Keys
    && (forall e :: e in c.views ==> Agrees(c.views[e].membership.ring, ring))
    && (forall h :: h in ring.owners ==> ring.owners[h] in c.stores)
    && forall e, h :: e in c.views && h in ring.owners ==> Known(c, e, ring.owners[h])
  }

  lemma EntryRoute(c: Cluster, ring: Ring, entry: string, h: Hash)
    requires Complete(c, ring) && entry in c.views
    ensures Route(c.views[entry].membership.ring, h) == Route(ring, h)
  {
    assert Agrees(c.views[entry].membership.ring, ring);
    SameOwnersSameRoute(c.views[entry].membership.ring, ring, h);
  }

  lemma OwnerKnown(c: Cluster, ring: Ring, entry: string, h: Hash)
    requires Complete(c, ring) && entry in c.views
    ensures Known(c, entry, Route(ring, h)) && Route(ring, h) in c.stores && entry in c.stores
  {
    RouteIsOwner(ring, h);
    hide Route, Consistent;
    var p :| p in ring.owners && ring.owners[p] == Route(ring, h);
    assert Known(c, entry, ring.owners[p]);
  }

  lemma ServerIsOwner(c: Cluster, ring: Ring, entry: string, key: string)
    requires Complete(c, ring) && entry in c.views
    ensures Server(c, entry, key) == Some(Route(ring, c.hash(key))) && Hops(c, entry, key) <= 1
    ensures Hops(c, entry, key) == 0 <==> Route(ring, c.hash(key)) == entry
  {
    hide Complete, Route;
    EntryRoute(c, ring, entry, c.hash(key));
    OwnerKnown(c, ring, entry, c.hash(key));
  }

  lemma ForwardIff(c: Cluster, ring: Ring, entry: string, key: string)
    requires Complete(c, ring) && entry in c.views
    ensures Resolve(c, entry, key).Forward? <==> Route(ring, c.hash(key)) != entry
  {
    hide Complete, Route;
    EntryRoute(c, ring, entry, c.hash(key));
    OwnerKnown(c, ring, entry, c.hash(key));
  }

  /** Get and Delete have the same effect and reply through every process. */
  lemma SameEverywhere(c: Cluster, ring: Ring, e1: string, e2: string, key: string, now: int)
    requires Complete(c, ring) && e1 in c.views && e2 in c.views
    ensures GetVia(c, e1, key, now).0 == GetVia(c, e2, key, now).0
    ensures GetVia(c, e1, key, now).1.reply == GetVia(c, e2, key, now).1.reply
    ensures DeleteVia(c, e1, key).0 == DeleteVia(c, e2, key).0
    ensures DeleteVia(c, e1, key).1.reply == DeleteVia(c, e2, key).1.reply
    ensures GetVia(c, e1, key, now).1.forwards <= 1 && DeleteVia(c, e1, key).1.forwards <= 1
  {
    hide Complete, Route, Resolve, Hops, Server, LruSpec.Delete, Fetch;
    ServerIsOwner(c, ring, e1, key);
    ServerIsOwner(c, ring, e2, key);
  }

  /** Set replies alike through two processes unless the value is empty and exactly one of them
      owns the key. */
  lemma SetSameIff(c: Cluster, ring: Ring, e1: string, e2: string, key: string, value: string)
    requires Complete(c, ring) && e1 in c.views && e2 in c.views
    ensures SetVia(c, e1, key, value).1.forwards <= 1
    ensures SetVia(c, e1, key, value).1.reply == SetVia(c, e2, key, value).1.reply
            <==> value != "" || (Route(ring, c.hash(key)) == e1 <==> Route(ring, c.hash(key)) == e2)
    ensures value != "" ==> SetVia(c, e1, key, value).0 == SetVia(c, e2, key, value).0
  {
    hide Complete, Route, Server, Resolve, Hops, Put;
    ServerIsOwner(c, ring, e1, key);
    ServerIsOwner(c, ring, e2, key);
    ForwardIff(c, ring, e1, key);
    ForwardIff(c, ring, e2, key);
  }

  // ----- Reads see the latest write -----

  datatype Request =
    | SetReq(entry: string, key: string, value: string)
    | GetReq(entry: string, key: string, now: int)
    | DeleteReq(entry: string, key: string)

  function Serve(c: Cluster, r: Request): (Cluster, Outcome)
    requires r.entry in c.views
  {
    match r
    case SetReq(e, k, v) => SetVia(c, e, k, v)
    case GetReq(e, k, now) => GetVia(c, e, k, now)
    case DeleteReq(e, k) => DeleteVia(c, e, k)
  }

  /** What a client may expect: the latest accepted Set of each key not followed by a Delete. */
  function Expect(seen: map<string, string>, r: Request, o: Outcome): map<string, string> {
    if o.reply.Failed? then seen
    else match r
      case SetReq(_, k, v) => seen[k := v]
      case GetReq(_, _, _) => seen
      case DeleteReq(_, k) => seen - {k}
  }

  /** The requests one after another, each through its own process. */
  function ServeAll(c: Cluster, rs: seq<Request>): (Cluster, map<string, string>)
    requires forall r :: r in rs ==> r.entry in c.views
    ensures ServeAll(c, rs).0.views == c.views && ServeAll(c, rs).0.hash == c.hash && ServeAll(c, rs).0.at == c.at
  {
    if rs == [] then (c, map[])
    else
      var n := |rs| - 1;
      var (mid, seen) := ServeAll(c, rs[..n]);
      assert rs[n] in rs;
      var (after, o) := Serve(mid, rs[n]);
      (after, Expect(seen, rs[n], o))
  }

  /** Stored pairs sit at their owner and carry the expected value. */
  ghost predicate UpToDate(c: Cluster, ring: Ring, seen: map<string, string>) {
    AllStores(c.stores) && AllCurrent(c.stores, seen, Router(ring, c.hash))
  }

  lemma ServeStep(c: Cluster, ring: Ring, seen: map<string, string>, r: Request)
    requires Complete(c, ring) && UpToDate(c, ring, seen) && r.entry in c.views
    ensures var (after, o) := Serve(c, r);
            && Complete(after, ring) && UpToDate(after, ring, Expect(seen, r, o))
            && (r.GetReq? && o.reply.Found? ==> r.key in seen && o.reply.value == seen[r.key])
  {
    hide Complete, Known, Put, LruSpec.Delete, Fetch, Resolve, Server, Hops, Route, UpToDate;
    ServerIsOwner(c, ring, r.entry, r.key);
    OwnerKnown(c, ring, r.entry, c.hash(r.key));
    ServeComplete(c, ring, r);
    var n := Route(ring, c.hash(r.key));
    match r
    case SetReq(e, k, v) => SetStep(c, ring, seen, n, k, v);
    case GetReq(e, k, now) => GetStep(c, ring, seen, n, k, now);
    case DeleteReq(e, k) => DeleteStep(c, ring, seen, n, k);
  }

  /** Requests change stores only. */
  lemma ServeComplete(c: Cluster, ring: Ring, r: Request)
    requires Complete(c, ring) && r.entry in c.views
    ensures Complete(Serve(c, r).0, ring)
  {
    hide Put, LruSpec.Delete, Fetch, Resolve, Consistent;
  }

  lemma SetStep(c: Cluster, ring: Ring, seen: map<string, string>, n: string, k: string, v: string)
    requires UpToDate(c, ring, seen) && n == Route(ring, c.hash(k)) && n in c.stores
    ensures UpToDate(c.(stores := c.stores[n := Put(c.stores[n], k, v)]), ring, seen[k := v])
  {
    hide Put, Route, Current;
    var route := Router(ring, c.hash);
    PutStore(c.stores[n], k, v);
    PutCurrent(c.stores[n], seen, route, n, k, v);
    OneStoreCurrent(c.stores, seen, route, n, Put(c.stores[n], k, v), seen[k := v], k);
  }

  lemma GetStep(c: Cluster, ring: Ring, seen: map<string, string>, n: string, k: string, now: int)
    requires UpToDate(c, ring, seen) && n == Route(ring, c.hash(k)) && n in c.stores
    ensures UpToDate(c.(stores := c.stores[n := Fetch(c.stores[n], k, now).0]), ring, seen)
    ensures var r := Fetch(c.stores[n], k, now).1; r.Some? ==> k in seen && r.value == seen[k]
  {
    hide Fetch, Route, Current;
    var route := Router(ring, c.hash);
    FetchKeeps(c.stores[n], k, now, k);
    FetchCurrent(c.stores[n], seen, route, n, k, now);
    CurrentValue(c.stores[n].list, seen, route, n, k);
    OneStoreCurrent(c.stores, seen, route, n, Fetch(c.stores[n], k, now).0, seen, k);
  }

  lemma DeleteStep(c: Cluster, ring: Ring, seen: map<string, string>, n: string, k: string)
    requires UpToDate(c, ring, seen) && n == Route(ring, c.hash(k)) && n in c.stores
    ensures UpToDate(c.(stores := c.stores[n := LruSpec.Delete(c.stores[n], k)]), ring, seen - {k})
  {
    hide LruSpec.Delete, Route, Current;
    var route := Router(ring, c.hash);
    DeleteStore(c.stores[n], k);
    DeleteCurrent(c.stores[n], seen, route, n, k);
    OneStoreCurrent(c.stores, seen, route, n, LruSpec.Delete(c.stores[n], k), seen - {k}, k);
  }

  lemma CurrentValue(list: seq<Entry>, seen: map<string, string>, route: string -> string, n: string, k: string)
    requires Current(list, seen, route, n)
    ensures Lookup(list, k).Some? ==> k in seen && Lookup(list, k).value == seen[k]
  {
  }

  lemma {:induction false} ServeAllStep(c: Cluster, ring: Ring, rs: seq<Request>)
    requires Complete(c, ring) && UpToDate(c, ring, map[])
    requires forall r :: r in rs ==> r.entry in c.views
    ensures Complete(ServeAll(c, rs).0, ring) && UpToDate(ServeAll(c, rs).0, ring, ServeAll(c, rs).1)
  {
    hide Complete, UpToDate, Serve, Expect;
    if rs != [] {
      var n := |rs| - 1;
      assert rs[n] in rs;
      ServeAllStep(c, ring, rs[..n]);
      ServeStep(ServeAll(c, rs[..n]).0, ring, ServeAll(c, rs[..n]).1, rs[n]);
    }
  }

  /** Through whichever processes the requests go, a found value is that of the latest accepted
      Set not followed by a Delete, even though the stores evict. */
  lemma ReadsLatest(c: Cluster, ring: Ring, rs: seq<Request>, entry: string, key: string, now: int)
    requires Complete(c, ring) && entry in c.views
    requires forall n :: n in c.stores ==> Store(c.stores[n]) && c.stores[n].list == []
    requires forall r :: r in rs ==> r.entry in c.views
    ensures var (after, seen) := ServeAll(c, rs); var o := GetVia(after, entry, key, now).1;
            && o.forwards <= 1 && o.reply != Failed && o.reply != Done
            && (o.reply.Found? ==> key in seen && o.reply.value == seen[key])
  {
    assert UpToDate(c, ring, map[]);
    hide Complete, Route, UpToDate, Fetch, Resolve, Serve, Expect;
    ServeAllStep(c, ring, rs);
    LatestRead(ServeAll(c, rs).0, ring, ServeAll(c, rs).1, entry, key, now);
  }

  lemma LatestRead(c: Cluster, ring: Ring, seen: map<string, string>, entry: string, key: string, now: int)
    requires Complete(c, ring) && UpToDate(c, ring, seen) && entry in c.views
    ensures var o := GetVia(c, entry, key, now).1;
            && o.forwards <= 1 && o.reply != Failed && o.reply != Done
            && (o.reply.Found? ==> key in seen && o.reply.value == seen[key])
  {
    hide Complete, Route, UpToDate, Fetch, Resolve, Server, Hops;
    ServeStep(c, ring, seen, GetReq(entry, key, now));
    ServerIsOwner(c, ring, entry, key);
    OwnerKnown(c, ring, entry, c.hash(key));
  }

  // ----- What is stored is found -----

  /** A Get through any process answers from the owner's store: the value there, or Missing if there is
      none; the stored pairs stay as they were. */
  lemma GetFinds(c: Cluster, ring: Ring, entry: string, key: string, now: int)
    requires Complete(c, ring) && AllStores(c.stores) && entry in c.views
    ensures var n := Route(ring, c.hash(key)); var (after, o) := GetVia(c, entry, key, now);
            && n in c.stores
            && o.reply == (match Lookup(c.stores[n].list, key) case Some(v) => Found(v) case None => Missing)
            && after.stores.Keys == c.stores.Keys && AllStores(after.stores)
            && forall m, k :: m in c.stores ==> Lookup(after.stores[m].list, k) == Lookup(c.stores[m].list, k)
  {
    hide Complete, Route, Fetch, Server, Resolve, Hops, AllStores;
    var n := Route(ring, c.hash(key));
    OwnerKnown(c, ring, entry, c.hash(key));
    ServerIsOwner(c, ring, entry, key);
    FetchStores(c.stores, n, key, now);
  }

  lemma FetchStores(stores: Stores, n: string, key: string, now: int)
    requires AllStores(stores) && n in stores
    ensures var (s, r) := Fetch(stores[n], key, now);
            && r == Lookup(stores[n].list, key) && AllStores(stores[n := s])
            && forall m, k :: m in stores ==> Lookup(stores[n := s][m].list, k) == Lookup(stores[m].list, k)
  {
    hide Fetch, Store, Lookup;
    forall k { FetchKeeps(stores[n], key, now, k); }
  }

  /** A Set is refused exactly when its value is empty and it has to be forwarded; an accepted one leaves
      the value at the owner, and no Set touches another store. */
  lemma SetStores(c: Cluster, ring: Ring, entry: string, key: string, value: string)
    requires Complete(c, ring) && AllStores(c.stores) && entry in c.views
    ensures var n := Route(ring, c.hash(key)); var (after, o) := SetVia(c, entry, key, value);
            && n in c.stores && after.stores.Keys == c.stores.Keys && AllStores(after.stores)
            && (o.reply == Done <==> value != "" || n == entry) && (o.reply != Done ==> after == c)
            && (o.reply == Done ==> Lookup(after.stores[n].list, key) == Some(value))
            && forall m :: m in c.stores && m != n ==> after.stores[m] == c.stores[m]
  {
    hide Complete, Route, Put, Server, Resolve, Hops, Store;
    var n := Route(ring, c.hash(key));
    OwnerKnown(c, ring, entry, c.hash(key));
    ServerIsOwner(c, ring, entry, key);
    ForwardIff(c, ring, entry, key);
    PutStore(c.stores[n], key, value);
    PutFound(c.stores[n], key, value);
  }

  lemma PutFound(s: Lru, key: string, value: string)
    requires Store(s)
    ensures Lookup(Put(s, key, value).list, key) == Some(value)
  {
  }

  /** A Delete is never refused; it leaves the key out of the owner's store and all other pairs in. */
  lemma DeleteRemoves(c: Cluster, ring: Ring, entry: string, key: string)
    requires Complete(c, ring) && AllStores(c.stores) && entry in c.views
    ensures var n := Route(ring, c.hash(key)); var (after, o) := DeleteVia(c, entry, key);
            && n in c.stores && o.reply == Done && after.stores.Keys == c.stores.Keys && AllStores(after.stores)
            && forall m, k :: m in c.stores ==>
                 Lookup(after.stores[m].list, k) == if m == n && k == key then None else Lookup(c.stores[m].list, k)
  {
    hide Complete, Route, LruSpec.Delete, Server, Resolve, Hops, Store;
    var n := Route(ring, c.hash(key));
    OwnerKnown(c, ring, entry, c.hash(key));
    ServerIsOwner(c, ring, entry, key);
    DeleteStore(c.stores[n], key);
    forall k { DeleteLookup(c.stores[n], key, k); }
  }

  lemma DeleteLookup(s: Lru, key: string, k: string)
    ensures Lookup(LruSpec.Delete(s, key).list, k) == if k == key then None else Lookup(s.list, k)
  {
    LookupDrop(s.list, {key}, k);
  }

  /** An accepted Set through one process is found by the next Get through any other, and a deleted key
      is not. */
  ghost predicate SetsAreFound(c: Cluster, ring: Ring, e1: string, e2: string, key: string, value: string, now: int)
    requires e1 in c.views && e2 in c.views
  {
    var (after, o) := SetVia(c, e1, key, value);
    && (o.reply == Done <==> value != "" || Route(ring, c.hash(key)) == e1)
    && (o.reply == Done ==> GetVia(after, e2, key, now).1.reply == Found(value))
    && GetVia(DeleteVia(c, e1, key).0, e2, key, now).1.reply == Missing
  }

  lemma SetThenGet(c: Cluster, ring: Ring, e1: string, e2: string, key: string, value: string, now: int)
    requires Complete(c, ring) && AllStores(c.stores) && e1 in c.views && e2 in c.views
    ensures SetsAreFound(c, ring, e1, e2, key, value, now)
  {
    hide Complete, Route, SetVia, GetVia, DeleteVia, AllStores;
    SetStores(c, ring, e1, key, value);
    DeleteRemoves(c, ring, e1, key);
    if SetVia(c, e1, key, value).1.reply == Done {
      FoundAfter(c, ring, SetReq(e1, key, value), e2, Some(value), now);
    }
    FoundAfter(c, ring, DeleteReq(e1, key), e2, None, now);
  }

  lemma FoundAfter(c: Cluster, ring: Ring, r: Request, e: string, value: Option<string>, now: int)
    requires Complete(c, ring) && r.entry in c.views && e in c.views
    requires var after := Serve(c, r).0; var n := Route(ring, c.hash(r.key));
             AllStores(after.stores) && (n in after.stores ==> Lookup(after.stores[n].list, r.key) == value)
    ensures GetVia(Serve(c, r).0, e, r.key, now).1.reply == if value.Some? then Found(value.value) else Missing
  {
    ServeComplete(c, ring, r);
    assert Serve(c, r).0.hash == c.hash && e in Serve(c, r).0.views;
    hide Complete, Route, GetVia, Serve, AllStores;
    GetFinds(Serve(c, r).0, ring, e, r.key, now);
  }

  /** And so after whatever the cluster was asked before, through whichever processes. */
  lemma RunThenSetThenGet(c: Cluster, ring: Ring, rs: seq<Request>, e1: string, e2: string, key: string, value: string,
                          now: int)
    requires Complete(c, ring) && e1 in c.views && e2 in c.views
    requires forall n :: n in c.stores ==> Store(c.stores[n]) && c.stores[n].list == []
    requires forall r :: r in rs ==> r.entry in c.views
    ensures SetsAreFound(ServeAll(c, rs).0, ring, e1, e2, key, value, now)
  {
    assert UpToDate(c, ring, map[]);
    hide Complete, Serve, Expect, Store, SetsAreFound;
    ServeAllStep(c, ring, rs);
    SetThenGet(ServeAll(c, rs).0, ring, e1, e2, key, value, now);
  }

  // ----- With room for all keys -----

  /** Every key that was set and not deleted is at its owner, and each store can hold `size` entries. */
  ghost predicate Full(c: Cluster, ring: Ring, seen: map<string, string>, size: nat) {
    && (forall n :: n in c.stores ==> size <= c.stores[n].capacity)
    && forall k :: k in seen ==> AtOwner(c, ring, seen, k)
  }

  ghost predicate AtOwner(c: Cluster, ring: Ring, seen: map<string, string>, k: string)
    requires k in seen
  {
    var n := Route(ring, c.hash(k));
    n in c.stores && Lookup(c.stores[n].list, k) == Some(seen[k])
  }

  /** One store changes, and only in what it has for `key`. */
  lemma OneStoreFull(c: Cluster, ring: Ring, seen: map<string, string>, size: nat, n: string, s: Lru,
                     now: map<string, string>, key: string)
    requires Full(c, ring, seen, size) && n in c.stores && n == Route(ring, c.hash(key)) && size <= s.capacity
    requires Elsewhere(seen, now, key) && (key in now ==> Lookup(s.list, key) == Some(now[key]))
    requires forall k :: k != key ==> Lookup(s.list, k) == Lookup(c.stores[n].list, k)
    ensures Full(c.(stores := c.stores[n := s]), ring, now, size)
  {
    hide Route, Lookup;
    var after := c.(stores := c.stores[n := s]);
    forall k | k in now ensures AtOwner(after, ring, now, k) {
      if k != key {
        assert AtOwner(c, ring, seen, k);
      }
    }
  }

  lemma RoomAtOwner(s: Lru, seen: map<string, string>, route: string -> string, n: string, key: string,
                    ever: set<string>)
    requires Store(s) && Current(s.list, seen, route, n) && |ever| <= s.capacity && seen.Keys <= ever && key in ever
    ensures key in Keys(s.list) || |s.list| < s.capacity
  {
    KeysCount(s.list);
    assert Keys(s.list) <= seen.Keys;
    hide Keys;
    if key !in Keys(s.list) {
      StrictSubset(Keys(s.list), ever, key);
    }
  }

  lemma SetFull(c: Cluster, ring: Ring, seen: map<string, string>, n: string, k: string, v: string,
                ever: set<string>)
    requires UpToDate(c, ring, seen) && Full(c, ring, seen, |ever|) && seen.Keys <= ever && k in ever
    requires n == Route(ring, c.hash(k)) && n in c.stores
    ensures Full(c.(stores := c.stores[n := Put(c.stores[n], k, v)]), ring, seen[k := v], |ever|)
  {
    hide Put, Route, Current, Store, AtOwner, Keys, Lookup;
    var s := c.stores[n];
    RoomAtOwner(s, seen, Router(ring, c.hash), n, k, ever);
    PutStore(s, k, v);
    assert |ever| <= s.capacity;
    forall x { PutRoom(s, k, v, x); }
    hide UpToDate, Full;
    OneStoreFull(c, ring, seen, |ever|, n, Put(s, k, v), seen[k := v], k);
  }

  lemma GetFull(c: Cluster, ring: Ring, seen: map<string, string>, n: string, k: string, now: int, size: nat)
    requires UpToDate(c, ring, seen) && Full(c, ring, seen, size) && n == Route(ring, c.hash(k)) && n in c.stores
    ensures Full(c.(stores := c.stores[n := Fetch(c.stores[n], k, now).0]), ring, seen, size)
  {
    var s := c.stores[n];
    assert Fetch(s, k, now).0.capacity == s.capacity;
    hide Fetch, Route, Current, Store;
    forall x { FetchKeeps(s, k, now, x); }
    assert k in seen ==> AtOwner(c, ring, seen, k);
    OneStoreFull(c, ring, seen, size, n, Fetch(s, k, now).0, seen, k);
  }

  lemma DeleteFull(c: Cluster, ring: Ring, seen: map<string, string>, n: string, k: string, size: nat)
    requires UpToDate(c, ring, seen) && Full(c, ring, seen, size) && n == Route(ring, c.hash(k)) && n in c.stores
    ensures Full(c.(stores := c.stores[n := LruSpec.Delete(c.stores[n], k)]), ring, seen - {k}, size)
  {
    hide LruSpec.Delete, Route, Current, Store, AtOwner;
    var s := c.stores[n];
    DeleteStore(s, k);
    forall x { DeleteLookup(s, k, x); }
    OneStoreFull(c, ring, seen, size, n, LruSpec.Delete(s, k), seen - {k}, k);
  }

  lemma ServeFull(c: Cluster, ring: Ring, seen: map<string, string>, r: Request, ever: set<string>)
    requires Complete(c, ring) && UpToDate(c, ring, seen) && Full(c, ring, seen, |ever|) && r.entry in c.views
    requires seen.Keys <= ever && (r.SetReq? ==> r.key in ever)
    ensures var (after, o) := Serve(c, r); var now := Expect(seen, r, o);
            Full(after, ring, now, |ever|) && now.Keys <= ever
  {
    hide Complete, Known, Put, LruSpec.Delete, Fetch, Resolve, Server, Hops, Route, UpToDate, Full;
    ServerIsOwner(c, ring, r.entry, r.key);
    OwnerKnown(c, ring, r.entry, c.hash(r.key));
    var n := Route(ring, c.hash(r.key));
    match r
    case SetReq(e, k, v) => SetFull(c, ring, seen, n, k, v, ever);
    case GetReq(e, k, now) => GetFull(c, ring, seen, n, k, now, |ever|);
    case DeleteReq(e, k) => DeleteFull(c, ring, seen, n, k, |ever|);
  }

  function EverSet(rs: seq<Request>): set<string> {
    set r | r in rs && r.SetReq? :: r.key
  }

  lemma {:induction false} ServeAllFull(c: Cluster, ring: Ring, rs: seq<Request>, ever: set<string>)
    requires Complete(c, ring) && UpToDate(c, ring, map[]) && Full(c, ring, map[], |ever|)
    requires (forall r :: r in rs ==> r.entry in c.views) && EverSet(rs) <= ever
    ensures var (after, seen) := ServeAll(c, rs); Full(after, ring, seen, |ever|) && seen.Keys <= ever
  {
    hide Complete, UpToDate, Full, Serve, Expect;
    if rs != [] {
      var n := |rs| - 1;
      assert rs[n] in rs && EverSet(rs[..n]) <= EverSet(rs);
      ServeAllFull(c, ring, rs[..n], ever);
      ServeAllStep(c, ring, rs[..n]);
      ServeFull(ServeAll(c, rs[..n]).0, ring, ServeAll(c, rs[..n]).1, rs[n], ever);
    }
  }

  /** While no more keys are set than each store can hold, the cluster is a map: a Get through any process
      answers the value of the latest accepted Set not followed by a Delete, and Missing if there is none. */
  lemma ClusterIsMap(c: Cluster, ring: Ring, rs: seq<Request>, entry: string, key: string, now: int)
    requires Complete(c, ring) && entry in c.views
    requires forall n :: n in c.stores ==>
               Store(c.stores[n]) && c.stores[n].list == [] && |EverSet(rs)| <= c.stores[n].capacity
    requires forall r :: r in rs ==> r.entry in c.views
    ensures var (after, seen) := ServeAll(c, rs);
            GetVia(after, entry, key, now).1.reply == if key in seen then Found(seen[key]) else Missing
  {
    assert UpToDate(c, ring, map[]) && Full(c, ring, map[], |EverSet(rs)|);
    hide Complete, Route, Serve, Expect, Store, EverSet, GetVia;
    ServeAllStep(c, ring, rs);
    ServeAllFull(c, ring, rs, EverSet(rs));
    var (after, seen) := ServeAll(c, rs);
    GetFinds(after, ring, entry, key, now);
    assert key in seen ==> AtOwner(after, ring, seen, key);
    assert Current(after.stores[Route(ring, c.hash(key))].list, seen, Router(ring, c.hash), Route(ring, c.hash(key)));
  }

  // ----- The processes at work -----

  /** What a PUT of the migration does: stored and said so, stored but reported as failed, or not stored. */
  datatype PutOutcome = Stored | Unreported | Refused

  ghost predicate OnlyFrom(events: seq<NetworkMigration.Event>, n: string) {
    forall e :: e in events ==> e.src == n
  }

  class Network {
    const hash: HashFunction
    const virtualNodes: nat
    var views: map<string, View>
    var at: map<string, string>
    var stores: Stores          // the localCache of every process
    var migratedKeys: map<string, nat>

    ghost function Now(): Cluster
      reads this
    {
      Cluster(hash, views, at, stores)
    }

    /** Every process has a store and a ring it can route on. */
    ghost predicate Up(entry: string)
      reads this
    {
      entry in views && entry in stores && entry in migratedKeys && views[entry].membership.ring.sorted != []
    }

    constructor (hash: HashFunction, virtualNodes: nat)
      ensures this.hash == hash && this.virtualNodes == virtualNodes
      ensures views == map[] && at == map[] && stores == map[] && migratedKeys == map[]
    {
      this.hash, this.virtualNodes := hash, virtualNodes;
      views, at, stores, migratedKeys := map[], map[], map[], map[];
    }

    /** NewDistributedNode: the ring is built from the configured addresses in the order in which
        the Go map lists them; non-positive sizes fall back to the defaults. */
    method NewDistributedNode(id: string, address: string, clusterNodes: map<string, string>, listed: seq<string>,
                              cacheSize: int, configured: int)
      requires (set n | n in listed) == clusterNodes.Keys
      requires virtualNodes == if configured > 0 then configured else 150
      modifies this
      ensures views
          == old(views)[id := View(Membership(Build(hash, virtualNodes, listed), clusterNodes.Keys), clusterNodes)]
      ensures stores == old(stores)[id := Empty(if cacheSize <= 0 then 1000 else cacheSize, 0)]
      ensures at == old(at)[address := id] && migratedKeys == old(migratedKeys)[id := 0]
    {
      var ring := EMPTY;
      for i := 0 to |listed|
        invariant ring == Build(hash, virtualNodes, listed[..i])
        invariant views == old(views) && stores == old(stores) && at == old(at) && migratedKeys == old(migratedKeys)
      {
        assert listed[..i + 1][..i] == listed[..i];
        ring := AddTo(ring, hash, virtualNodes, listed[i]);
      }
      assert listed[..|listed|] == listed;
      var size := if cacheSize <= 0 then 1000 else cacheSize;
      views := views[id := View(Membership(ring, clusterNodes.Keys), clusterNodes)];
      stores := stores[id := Empty(size, 0)];
      at := at[address := id];
      migratedKeys := migratedKeys[id := 0];
    }

    method Set(entry: string, key: string, value: string) returns (o: Outcome)
      requires Up(entry)
      modifies this`stores
      ensures (Now(), o) == SetVia(old(Now()), entry, key, value)
    {
      var target := Route(views[entry].membership.ring, hash(key));
      if target == entry {
        stores := stores[entry := Put(stores[entry], key, value)];
        return Outcome(Done, 0);
      }
      if target !in views[entry].addresses {
        return Outcome(Failed, 0);
      }
      var address := views[entry].addresses[target];
      if address !in at || at[address] !in stores || value == "" {
        return Outcome(Failed, 1);
      }
      SetLocal(at[address], key, value);
      o := Outcome(Done, 1);
    }

    method Get(entry: string, key: string, now: int) returns (o: Outcome)
      requires Up(entry)
      modifies this`stores
      ensures (Now(), o) == GetVia(old(Now()), entry, key, now)
    {
      var target := Route(views[entry].membership.ring, hash(key));
      var server, hops := entry, 0;
      if target != entry {
        if target !in views[entry].addresses {
          return Outcome(Failed, 0);
        }
        var address := views[entry].addresses[target];
        if address !in at || at[address] !in stores {
          return Outcome(Failed, 1);
        }
        server, hops := at[address], 1;
      }
      var r := GetLocal(server, key, now);
      o := Outcome(if r.Some? then Found(r.value) else Missing, hops);
    }

    method Delete(entry: string, key: string) returns (o: Outcome)
      requires Up(entry)
      modifies this`stores
      ensures (Now(), o) == DeleteVia(old(Now()), entry, key)
    {
      var target := Route(views[entry].membership.ring, hash(key));
      if target == entry {
        DeleteLocal(entry, key);
        return Outcome(Done, 0);
      }
      if target !in views[entry].addresses {
        return Outcome(Failed, 0);
      }
      var address := views[entry].addresses[target];
      if address !in at || at[address] !in stores {
        return Outcome(Failed, 1);
      }
      DeleteLocal(at[address], key);
      o := Outcome(Done, 1);
    }

    method SetLocal(n: string, key: string, value: string)
      requires n in stores
      modifies this`stores
      ensures stores == old(stores)[n := Put(old(stores)[n], key, value)]
    {
      stores := stores[n := Put(stores[n], key, value)];
    }

    method GetLocal(n: string, key: string, now: int) returns (r: Option<string>)
      requires n in stores
      modifies this`stores
      ensures stores == old(stores)[n := Fetch(old(stores)[n], key, now).0] && r == Fetch(old(stores)[n], key, now).1
    {
      var (s, found) := Fetch(stores[n], key, now);
      stores := stores[n := s];
      r := found;
    }

    method DeleteLocal(n: string, key: string)
      requires n in stores
      modifies this`stores
      ensures stores == old(stores)[n := LruSpec.Delete(old(stores)[n], key)]
    {
      stores := stores[n := LruSpec.Delete(stores[n], key)];
    }

    method AddClusterNode(n: string, id: string, address: string)
      requires n in views
      modifies this`views
      ensures views == old(views)[n := old(views)[n].(addresses := old(views)[n].addresses[id := address])]
    {
      views := views[n := views[n].(addresses := views[n].addresses[id := address])];
    }

    method RemoveClusterNode(n: string, id: string)
      requires n in views
      modifies this`views
      ensures views == old(views)[n := old(views)[n].(addresses := old(views)[n].addresses - {id})]
    {
      views := views[n := views[n].(addresses := views[n].addresses - {id})];
    }

    // ----- Membership changes -----

    /** hashRing.AddNode at one process; the ring's own per-node caches stay empty here. */
    method ChangeRing(n: string, change: Change)
      requires n in views
      modifies this`views
      ensures views
          == old(views)[n := old(views)[n].(membership := Step(old(views)[n].membership, hash, virtualNodes, change))]
    {
      views := views[n := views[n].(membership := Step(views[n].membership, hash, virtualNodes, change))];
    }

    /** The process that is asked to admit `id` changes its ring and migrates, but does not record
        the address. */
    method AddNodeToCluster(n: string, id: string, put: string -> PutOutcome)
      returns (ghost events: seq<NetworkMigration.Event>, ghost t: NetworkMigration.State)
      requires n in views && n in stores && n in migratedKeys && virtualNodes > 0
      requires Sorted(views[n].membership.ring.sorted)
      modifies this`views, this`stores, this`migratedKeys
      ensures views
          == old(views)[n := old(views)[n].(membership := Step(old(views)[n].membership, hash, virtualNodes, Add(id)))]
      ensures MigratedTo(n, id, old(stores), events, t)
      ensures migratedKeys == old(migratedKeys)[n := old(migratedKeys)[n] + t.workers[n].migrated]
    {
      ChangeRing(n, Add(id));
      RingGrows(old(views)[n].membership, id);
      events, t := PerformNetworkDataMigration(n, id, put);
    }

    /** A process told of the change by broadcast also records the address. */
    method SyncAddNode(n: string, id: string, address: string, put: string -> PutOutcome)
      returns (ghost events: seq<NetworkMigration.Event>, ghost t: NetworkMigration.State)
      requires n in views && n in stores && n in migratedKeys && virtualNodes > 0
      requires Sorted(views[n].membership.ring.sorted)
      modifies this`views, this`stores, this`migratedKeys
      ensures views == old(views)[n := View(Step(old(views)[n].membership, hash, virtualNodes, Add(id)),
                                            old(views)[n].addresses[id := address])]
      ensures MigratedTo(n, id, old(stores), events, t)
      ensures migratedKeys == old(migratedKeys)[n := old(migratedKeys)[n] + t.workers[n].migrated]
    {
      AddClusterNode(n, id, address);
      ChangeRing(n, Add(id));
      RingGrows(old(views)[n].membership, id);
      events, t := PerformNetworkDataMigration(n, id, put);
    }

    method SyncRemoveNode(n: string, id: string) returns (ok: bool)
      requires n in views
      modifies this`views
      ensures ok <==> id in old(views)[n].membership.members
      ensures views == if ok then old(views)[n := View(Step(old(views)[n].membership, hash, virtualNodes, Remove(id)),
                                                      old(views)[n].addresses - {id})]
                       else old(views)
    {
      if id !in views[n].membership.members {
        return false;
      }
      ChangeRing(n, Remove(id));
      RemoveClusterNode(n, id);
      ok := true;
    }

    lemma RingGrows(m: Membership, id: string)
      requires virtualNodes > 0
      ensures Step(m, hash, virtualNodes, Add(id)).ring.sorted != []
    {
      SortSorts(m.ring.sorted + VirtualHashes(hash, id, virtualNodes));
    }

    // ----- Network data migration -----

    ghost function RouteOf(n: string): string -> string
      requires n in views
      reads this
    {
      var ring, h := views[n].membership.ring, hash;
      key => Route(ring, h(key))
    }

    /** The stores came about by a run of the migration protocol in which `n` alone moved, and `n`
        has finished. */
    ghost predicate MigratedTo(n: string, id: string, before: Stores, events: seq<NetworkMigration.Event>,
                               t: NetworkMigration.State)
      requires n in views
      reads this
    {
      && NetworkMigration.Run(NetworkMigration.State(before, map[]), id, RouteOf(n), events, t)
      && t.stores == stores && n in t.workers && NetworkMigration.Idle(t.workers[n])
      && OnlyFrom(events, n)
    }

    method PerformNetworkDataMigration(n: string, id: string, put: string -> PutOutcome)
      returns (ghost events: seq<NetworkMigration.Event>, ghost t: NetworkMigration.State)
      requires Up(n)
      modifies this`stores, this`migratedKeys
      ensures MigratedTo(n, id, old(stores), events, t)
      ensures migratedKeys == old(migratedKeys)[n := old(migratedKeys)[n] + t.workers[n].migrated]
    {
      hide NetworkMigration.Run, Data, Route;
      var data := Data(stores[n]);
      NetworkMigration.RunStart(stores, id, RouteOf(n), n);
      var count;
      count, events, t := MigrateAll(n, id, data, put, NetworkMigration.State(stores, map[]), RouteOf(n),
                                     [NetworkMigration.Start(n)],
                                     NetworkMigration.State(stores,
                                                            map[n := NetworkMigration.Worker(data, None, {}, 0)]));
      migratedKeys := migratedKeys[n := migratedKeys[n] + count];
    }

    method MigrateAll(n: string, id: string, data: map<string, string>, put: string -> PutOutcome,
                      ghost start: NetworkMigration.State, ghost route: string -> string,
                      ghost before: seq<NetworkMigration.Event>, ghost first: NetworkMigration.State)
      returns (count: nat, ghost events: seq<NetworkMigration.Event>, ghost t: NetworkMigration.State)
      requires Up(n) && route == RouteOf(n)
      requires NetworkMigration.Run(start, id, route, before, first) && first.stores == stores && OnlyFrom(before, n)
      requires n in first.workers && first.workers[n] == NetworkMigration.Worker(data, None, {}, 0)
      modifies this`stores
      ensures NetworkMigration.Run(start, id, route, events, t) && t.stores == stores && OnlyFrom(events, n)
      ensures n in t.workers && NetworkMigration.Idle(t.workers[n]) && t.workers[n].migrated == count
    {
      hide NetworkMigration.Run, NetworkMigration.Apply, NetworkMigration.Enabled, OnlyFrom;
      count, events, t := 0, before, first;
      var remaining := data.Keys;
      while remaining != {}
        invariant remaining <= data.Keys && stores.Keys == old(stores.Keys)
        invariant NetworkMigration.Run(start, id, route, events, t) && t.stores == stores && OnlyFrom(events, n)
        invariant n in t.workers && t.workers[n].pending == data - (data.Keys - remaining)
        invariant t.workers[n].deleting == None && t.workers[n].migrated == count
        decreases remaining
      {
        var key :| key in remaining;
        var moved;
        moved, events, t := MigrateKey(n, id, key, data[key], put(key), start, route, events, t);
        remaining := remaining - {key};
        if moved {
          count := count + 1;
        }
      }
    }

    /** One key: routed elsewhere it stays; otherwise PUT it, and delete it if the PUT succeeded. */
    method MigrateKey(n: string, id: string, key: string, value: string, outcome: PutOutcome,
                      ghost start: NetworkMigration.State, ghost route: string -> string,
                      ghost events: seq<NetworkMigration.Event>, ghost t: NetworkMigration.State)
      returns (moved: bool, ghost events': seq<NetworkMigration.Event>, ghost t': NetworkMigration.State)
      requires Up(n) && route == RouteOf(n)
      requires NetworkMigration.Run(start, id, route, events, t) && t.stores == stores
      requires n in t.workers && key in t.workers[n].pending && t.workers[n].pending[key] == value
      requires t.workers[n].deleting == None
      requires OnlyFrom(events, n)
      modifies this`stores
      ensures NetworkMigration.Run(start, id, route, events', t') && t'.stores == stores
          && stores.Keys == old(stores.Keys)
      ensures n in t'.workers && t'.workers[n].pending == t.workers[n].pending - {key} && t'.workers[n].deleting == None
      ensures t'.workers[n].migrated == t.workers[n].migrated + (if moved then 1 else 0)
      ensures OnlyFrom(events', n)
    {
      hide Put, LruSpec.Delete, NetworkMigration.Run;
      moved := false;
      var target := Route(views[n].membership.ring, hash(key));
      if target != id {
        ghost var skip := NetworkMigration.Skip(n, key);
        NetworkMigration.RunNext(start, id, route, events, t, skip);
        events', t' := events + [skip], NetworkMigration.Apply(t, id, route, skip);
        return;
      }
      var applied := id in stores && outcome != Refused && value != "";
      moved := applied && outcome == Stored;
      ghost var send := NetworkMigration.Send(n, key, applied, moved);
      NetworkMigration.RunNext(start, id, route, events, t, send);
      events', t' := events + [send], NetworkMigration.Apply(t, id, route, send);
      if applied {
        stores := stores[id := Put(stores[id], key, value)];
      }
      if moved {
        ghost var del := NetworkMigration.DeleteLocal(n);
        NetworkMigration.RunNext(start, id, route, events', t', del);
        events', t' := events' + [del], NetworkMigration.Apply(t', id, route, del);
        stores := stores[n := LruSpec.Delete(stores[n], key)];
      }
    }
  }

  // ----- A new node's address -----

  /** The cluster once `id` is up at `address`, `n` has admitted it with AddNodeToCluster, and all others
      have had SyncAddNode; where the data went makes no difference to who can be reached. */
  function Admitted(c: Cluster, n: string, id: string, address: string, count: nat): Cluster {
    c.(views := map e | e in c.views ::
         View(Step(c.views[e].membership, c.hash, count, Add(id)),
              if e == n then c.views[e].addresses else c.views[e].addresses[id := address]),
       at := c.at[address := id],
       stores := c.stores[id := Empty(STORE_CAPACITY, 0)])
  }

  lemma AdmittedRoute(c: Cluster, ring: Ring, n: string, id: string, address: string, count: nat, e: string,
                      key: string)
    requires Complete(c, ring) && e in c.views
    ensures Route(Admitted(c, n, id, address, count).views[e].membership.ring, c.hash(key))
            == Route(AddTo(ring, c.hash, count, id), c.hash(key))
  {
    AddConsistent(c.views[e].membership.ring, c.hash, count, id);
    AddConsistent(ring, c.hash, count, id);
    SameOwnersSameRoute(AddTo(c.views[e].membership.ring, c.hash, count, id), AddTo(ring, c.hash, count, id),
        c.hash(key));
  }

  /** After a node was admitted into a complete cluster, every process serves every key from its new
      owner, except the one that was asked: it serves the new node's keys exactly if it knew the
      address beforehand, and otherwise fails without trying. */
  lemma AddressGap(c: Cluster, ring: Ring, n: string, id: string, address: string, count: nat, e: string, key: string)
    requires Complete(c, ring) && n in c.views && e in c.views && id !in c.views && address !in c.at
    ensures var after := Admitted(c, n, id, address, count);
            var owner := Route(AddTo(ring, c.hash, count, id), c.hash(key));
            && (Server(after, e, key) == Some(owner) <==> (e == n && owner == id ==> Known(after, n, id)))
            && (e == n && owner == id ==> (Resolve(after, n, key) == NoAddress <==> id !in c.views[n].addresses))
  {
    var after := Admitted(c, n, id, address, count);
    var owner := Route(AddTo(ring, c.hash, count, id), c.hash(key));
    AdmittedRoute(c, ring, n, id, address, count, e, key);
    AdmittedKnows(c, ring, n, id, address, count, e, c.hash(key));
    hide Complete, AddTo, Route, Known, Step, Admitted;
    AdmittedAddresses(c, n, id, address, count, e);
    ServerWhen(after, e, key, owner);
  }

  lemma AdmittedAddresses(c: Cluster, n: string, id: string, address: string, count: nat, e: string)
    requires e in c.views
    ensures var after := Admitted(c, n, id, address, count);
            && e in after.views && after.stores.Keys == c.stores.Keys + {id}
            && (e == n ==> after.views[e].addresses == c.views[e].addresses)
  {
  }

  /** Who serves a request, in terms of what the entry process knows. */
  lemma ServerWhen(c: Cluster, e: string, key: string, owner: string)
    requires e in c.views && e in c.stores && owner in c.stores
    requires Route(c.views[e].membership.ring, c.hash(key)) == owner
    ensures Server(c, e, key) == Some(owner) <==> e == owner || Known(c, e, owner)
    ensures Resolve(c, e, key) == NoAddress <==> e != owner && owner !in c.views[e].addresses
  {
    hide Route;
  }

  lemma AdmittedKnows(c: Cluster, ring: Ring, n: string, id: string, address: string, count: nat, e: string, h: Hash)
    requires Complete(c, ring) && n in c.views && e in c.views && id !in c.views && address !in c.at
    ensures var after := Admitted(c, n, id, address, count);
            var owner := Route(AddTo(ring, c.hash, count, id), h);
            && owner in after.stores && e in after.stores
            && (owner != id || e != n ==> Known(after, e, owner))
  {
    hide Complete, AddTo, Route, Step, Known, Admitted, Consistent;
    var owner := Route(AddTo(ring, c.hash, count, id), h);
    assert Consistent(ring) && ring.sorted != [] by { RingOf(c, ring); }
    AddDisruption(ring, c.hash, count, id, h);
    OwnerKnown(c, ring, e, h);
    AdmittedAddresses(c, n, id, address, count, e);
    if owner != id {
      StillKnown(c, n, id, address, count, e, owner);
    } else if e != n {
      NowKnown(c, n, id, address, count, e);
    }
  }

  lemma RingOf(c: Cluster, ring: Ring)
    requires Complete(c, ring)
    ensures Consistent(ring) && ring.sorted != []
  {
  }

  lemma StillKnown(c: Cluster, n: string, id: string, address: string, count: nat, e: string, owner: string)
    requires Known(c, e, owner) && owner != id && address !in c.at
    ensures Known(Admitted(c, n, id, address, count), e, owner)
  {
    hide Step;
  }

  lemma NowKnown(c: Cluster, n: string, id: string, address: string, count: nat, e: string)
    requires e in c.views && e != n
    ensures Known(Admitted(c, n, id, address, count), e, id)
  {
    hide Step;
  }

  // ----- Configured clusters -----

  /** Processes that were configured with the same nodes and addresses, and whose Go maps listed the
      nodes in whatever order, make a complete cluster. */
  lemma ConfiguredIsComplete(c: Cluster, count: nat, addresses: map<string, string>, listed: map<string, seq<string>>,
                             first: seq<string>)
    requires c.views.Keys == c.stores.Keys == listed.Keys == addresses.Keys
    requires forall e :: e in listed ==> (set m | m in listed[e]) == addresses.Keys
    requires (set m | m in first) == addresses.Keys && "" !in first && first != [] && count > 0
    requires forall e :: e in c.views ==>
               c.views[e] == View(Membership(Build(c.hash, count, listed[e]), addresses.Keys), addresses)
    requires forall m :: m in addresses ==> addresses[m] in c.at && c.at[addresses[m]] == m
    requires CollisionFree(c.hash, count, addresses.Keys)
    ensures Complete(c, Build(c.hash, count, first))
  {
    hide Build, Consistent, CollisionFree, Known;
    var ring := Build(c.hash, count, first);
    BuildNotEmpty(c.hash, count, first);
    forall e | e in c.views ensures Agrees(c.views[e].membership.ring, ring) {
      ListedRing(c.hash, count, listed[e], first, addresses.Keys);
    }
    ListedRing(c.hash, count, first, first, addresses.Keys);
    forall e, m | e in c.views && m in addresses ensures Known(c, e, m) {
      ConfiguredKnown(c, addresses, e, m);
    }
  }

  lemma ConfiguredKnown(c: Cluster, addresses: map<string, string>, e: string, m: string)
    requires e in c.views && c.views[e].addresses == addresses && m in addresses
    requires addresses[m] in c.at && c.at[addresses[m]] == m
    ensures Known(c, e, m)
  {
  }

  lemma ListedRing(hash: HashFunction, count: nat, a: seq<string>, b: seq<string>, names: set<string>)
    requires (set n | n in a) == names && (set n | n in b) == names && "" !in b && CollisionFree(hash, count, names)
    ensures Agrees(Build(hash, count, a), Build(hash, count, b)) && Consistent(Build(hash, count, b))
    ensures forall h :: h in Build(hash, count, b).owners ==> Build(hash, count, b).owners[h] in names
  {
    SameMembers(a, b);
    BuildIsRing(hash, count, a);
    BuildIsRing(hash, count, b);
    hide Build, Consistent, CollisionFree, Claims;
    RingOfUnique(Build(hash, count, a).owners, Build(hash, count, b).owners, hash, count, names);
  }
}
