# A verified model of the distributed cache

This project models the stateful cores of the cache in Dafny and proves what they promise. Every file
verifies with `dafny verify dfyconfig.toml`; nothing here runs the Go program.

What is modelled, and where:

| file | models |
|---|---|
| `LruSpec.dfy` | the LRU store as a value: recency list, counters, TTL map, every operation a function |
| `LruHeap.dfy` | the same store on the heap: hash map, doubly linked list with sentinels, eviction loop |
| `LruMemory.dfy`, `LruInclusion.dfy`, `LruBatch.dfy` | eviction, memory accounting, stack inclusion and batches over whole runs |
| `LruRecency.dfy`, `LruDeadlines.dfy` | which keys are stored, answered and expired, and what is counted, told from the operations |
| `ConsistentHash.dfy` | the hash ring: binary search, clockwise routing, membership changes, construction |
| `Migration.dfy` | moving stored pairs when the ring changes, for every order in which a Go map can be visited |
| `Distributed.dfy` | the cache object over ring, sorted positions and one LRU store for each node |
| `Rebalance.dfy` | AddNode and RemoveNode as a whole: ring change and migration together |
| `History.dfy` | whole lives of the cache: client calls and membership changes in any order |
| `Retention.dfy` | whole lives in which the keys fit: nothing is forgotten |
| `NetworkMigration.dfy` | PUT-then-delete migration between processes, interleaved, with PUTs that fail or only seem to |
| `ClusterNodes.dfy` | the processes: routing with at most one forward, membership messages, the migration loop |
| `Client.dfy` | failure counters, healthy list, round-robin cursor, retry loop |
| `PreferenceRing.dfy` | replica preference lists on the tutorial's virtual-node ring |
| `SingleFlight.dfy` | double-checked loading behind a lock for each key, thread by thread |
| `WriteBack.dfy` | the write-back cache as one map |
| `WriteBackRaces.dfy` | its unlocked Get, step by step among the locked operations |
| `Multilevel.dfy` | the two-level cache in front of a database |
| `MultilevelTimes.dfy` | its lifetimes: how long a copy is served, and how stale an answer can be |

Hashing is an arbitrary function from strings to 32-bit positions. Where labels are assumed not to
collide, the assumption covers a finite set of names and is written out; most results hold without it.
Where a Go map is ranged over, the order is left open and the result is proved for every order. Clock
readings are parameters. Classes follow the Go structs field by field; each method is proved equal to a
function of the old state, and the theorems are about those functions, single steps and whole runs.

## Where the code does less than it seems to

Each of these is a theorem, with the exact condition or a concrete input, mostly both.

- AddNode keeps the data exactly when three things hold: the node's own store was empty if it was a member
  already, there is room for the keys it takes over, and the old owner of each of these keys was scanned
  (`Rebalance.AddNodeConservesIff`). The last fails when a position was taken over: the old owner is looked up
  in the new map, which names the new node itself (`Rebalance.TakenPositionStrands`, for a new node and for a
  member with an empty store; `Rebalance.AllTakenStrands`). Without taken positions only room counts for a new
  node (`Rebalance.FreshNodeConservesIff`) and only the emptied store for a member
  (`Rebalance.ReAddConservesIff`, `Rebalance.ReAddLoses`).
- RemoveNode keeps the data exactly when every survivor has room (`Rebalance.RemoveNodeConservesIff`).
- A node named "" puts position list and map out of step on the next removal
  (`ConsistentHash.RemoveConsistentIff`, `ConsistentHash.EmptyNameUnlisted`).
- An expired Get does not give memory back (`LruMemory.UsageExact`, `LruBatch.ExpiredServed`), and overwriting a
  key never evicts, so the memory limit can be exceeded (`LruMemory.LimitAfterPut`, `LruMemory.LimitOvershoot`).
- A plain Set does not renew a deadline, and neither eviction nor a Delete of a key that is not stored clears it: a key set
  anew can be unreadable at once (`LruDeadlines.DeadlineKept`, `LruDeadlines.ReadBackIff`).
- GetMulti serves expired entries (`LruBatch.GetMultiIffFresh`, `LruBatch.ExpiredServed`).
- A process that migrates to itself deletes what it has just stored (`NetworkMigration.TransferKeepsIff`,
  `NetworkMigration.SelfMigrationLoses`).
- The process asked to admit a node does not record its address and cannot serve the keys it gives away, while
  all others can (`ClusterNodes.AddressGap`).
- A Set with an empty value succeeds at the owner and fails through anybody else (`ClusterNodes.SetSameIff`).
- With a failure threshold below one, a node starts out healthy although its count has reached the
  threshold (`Client.InitialSoundIff`). Every error counts as a network error, so the retry loop never
  gives up early, although the comments speak of business errors; the model follows the code.
- The write-back Get takes no lock, so a Set between its accesses leaves a stale value in the cache until the key is
  written again. The cache stays coherent exactly when, at each fill, the latest Set or Delete of the key since the Get looked
  left in place what it had read (`WriteBackRaces.CoherentIff`, `WriteBackRaces.StaleAfterSet`,
  `WriteBackRaces.StaleFromEmpty`).
- After a direct database write a two-level cache can answer the old value for both lifetimes together, not only the
  longer one (`MultilevelTimes.StalenessBound`, `MultilevelTimes.BoundTight`).
- A full local level can grow past its size: it is sure to keep it exactly when the key is there already, or
  some entry was used before this instant and the oldest is not called "" (`Multilevel.SizeKeptIff`,
  `Multilevel.SameInstantOvershoots`).

## Model

| member | source | states |
|---|---|---|
| LruHeap.LruCache.constructor | core/lrucache.go:79-115 | an empty store for a positive capacity; only the cleanup constructor makes a TTL map |
| LruHeap.LruCache.ChainIsMap | core/lrucache.go:176-200 | in every valid state the nodes linked between the sentinels are exactly the map's nodes, and prev undoes next |
| LruHeap.LruCache.MapIsList | core/lrucache.go:216-250 | the map's keys are exactly the keys of the recency list, each once |
| LruHeap.LruCache.Find | core/lrucache.go:221-222 | a map lookup answers what a scan of the recency list would |
| LruHeap.LruCache.AddToHead | core/lrucache.go:176-181 | the node becomes the first after the head sentinel and the rest of the chain keeps its order |
| LruHeap.LruCache.RemoveNode | core/lrucache.go:184-187 | exactly this node leaves the chain |
| LruHeap.LruCache.MoveToHead | core/lrucache.go:190-193 | the node moves to the front, the others keep their order |
| LruHeap.LruCache.RemoveTail | core/lrucache.go:196-200 | the last node before the tail sentinel is cut off and returned |
| LruHeap.LruCache.SetInternal | core/lrucache.go:216-250 | refines Put on the recency list: refusal, update and insertion with eviction, with all counters |
| LruHeap.LruCache.MakeRoom | core/lrucache.go:228-243 | the eviction loop terminates below capacity and refines Evict |
| LruHeap.LruCache.Set | core/lrucache.go:210-214 | refines Put |
| LruHeap.LruCache.SetWithTTL | core/lrucache.go:202-207 | refines Put and records the deadline; it needs the TTL map the other constructors do not make |
| LruHeap.LruCache.Get | core/lrucache.go:253-282 | refines Fetch: miss, expired entry and hit, with recency and statistics; what that means is `LruRecency.HitMovesToFront`, `LruRecency.RecencyLaw` and `LruDeadlines.AnswersIff` |
| LruHeap.LruCache.Delete | core/lrucache.go:285-302 | refines Delete and reports whether the key was there |
| LruHeap.LruCache.SetMulti | core/lrucache.go:329-336 | refines Put for each pair, in some order of the map |
| LruHeap.LruCache.GetMulti | core/lrucache.go:338-357 | refines one TTL-blind fetch for each key; what it answers is `LruDeadlines.GetMultiExact`, and each hit moves to the front by `LruRecency.HitMovesToFront` |
| LruHeap.LruCache.DeleteMulti | core/lrucache.go:359-381 | refines one Delete for each key; the count is the number of keys that were there |
| LruHeap.LruCache.CleanupExpiredKeys | core/lrucache.go:133-157 | whatever the visiting order, exactly the entries past their deadline leave list, map, TTL map and memoryUsage |
| LruHeap.LruCache.GetAllData | core/lrucache.go:384-403 | the pairs that have not expired, with recency and counters untouched |
| LruMemory.EvictExact | core/lrucache.go:228-243 | eviction keeps the longest prefix next to which the new entry fits both limits: it drops the shortest least-recent suffix |
| LruMemory.EvictKeepsDrift | core/lrucache.go:236-242 | eviction gives back exactly the memory of what it drops and ends below capacity |
| LruMemory.UsageExact | core/lrucache.go:170-173 | after any run memoryUsage is the sum over the live entries plus exactly what expired Gets leaked |
| LruMemory.MemoryBound | core/lrucache.go:216-250 | after any run of a memory-limited store usage is exact, there is at most one entry for each 64 bytes of the limit, and usage is at most capacity times the limit |
| LruMemory.LimitAfterPut | core/lrucache.go:218-227 | from every reachable state a Set of a new key ends within the limit, a refused one leaves the usage, and an overwrite ends within it if and only if the new value fits next to the other entries |
| LruMemory.LimitOvershoot | core/lrucache.go:222-227 | a concrete run that exceeds the limit through the update branch |
| LruInclusion.NextSub | core/lrucache.go:221-250 | one Set keeps a smaller store's list an ordered sublist of the larger's, and without repeated keys their size difference within the capacity difference |
| LruInclusion.StackInclusion | core/lrucache.go:216-302 | over any Set/Get/Delete run the smaller store's recency list is an ordered sublist of the larger's, and each of its hits is the same hit there |
| LruBatch.SetMultiExact | core/lrucache.go:329-336 | a batch of any size leaves exactly the most recent entries of batch and old list together |
| LruBatch.SetMultiAnyOrder | core/lrucache.go:329-336 | a batch that fits the capacity is stored completely in every map order |
| LruBatch.GetMultiIffFresh | core/lrucache.go:338-357 | GetMulti equals sequential Gets in results, recency and statistics if and only if no requested key is cached past its deadline |
| LruBatch.ExpiredServed | core/lrucache.go:266-277 | one entry past its deadline: GetMulti returns it, Get drops it and keeps charging for it |
| LruRecency.HitMovesToFront | core/lrucache.go:253-357 | a hit, through Get or GetMulti, puts the entry first and leaves the others in their order |
| LruRecency.RecencyLaw | core/lrucache.go:210-302 | after any Set/Get/Delete run a key is stored, and answered with the value last set, if and only if since some Set or hit of it it was not deleted and at no moment as many other keys as the capacity had been used and not deleted; the operations alone decide |
| LruRecency.OrderedByUse | core/lrucache.go:190-193 | the recency list is ordered by the time of last use |
| LruRecency.HitSaves | core/lrucache.go:278-281 | a concrete run in which a hit saves the older key from the next eviction |
| LruDeadlines.CleanupExact | core/lrucache.go:133-157 | Cleanup takes out exactly the keys whose deadline is before now, entry and deadline |
| LruDeadlines.DeleteMultiExact | core/lrucache.go:359-381 | the listed keys leave with their deadlines, the rest keeps its order, and the count is the number of different keys that were stored |
| LruDeadlines.GetMultiExact | core/lrucache.go:338-357 | GetMulti answers exactly the listed keys that are stored, with their values, and changes nothing that is stored |
| LruDeadlines.DeadlineKept | core/lrucache.go:202-302 | after any run a key has the deadline of its latest SetWithTTL, unless it was since deleted while stored, met expired, or cleaned up; plain Sets and evictions leave it |
| LruDeadlines.AnswersIff | core/lrucache.go:253-403 | after any run Get answers what is stored unless that deadline has passed, which removes it; GetAllData returns exactly what such Gets would answer |
| LruDeadlines.ReadBackIff | core/lrucache.go:216-282 | what a plain Set stored is read back if and only if it was not refused and no deadline from before has passed |
| LruDeadlines.StatsExact | core/lrucache.go:253-357 | over any run every key asked for counts once, as a hit if answered and as a miss if not |
| ConsistentHash.Search | core/distributed_cache.go:90-92 | binary search finds the first position not below the hash |
| ConsistentHash.SuccessorIsFirst | core/distributed_cache.go:86-103 | the position found, wrap-around included, is the one at the least clockwise distance |
| ConsistentHash.RouteIs | core/distributed_cache.go:86-103 | a key's node is the owner of the first position clockwise, however the ring came about |
| ConsistentHash.LabelInjective | core/distributed_cache.go:180-183 | virtual nodes of any names and numbers have different labels |
| ConsistentHash.AddConsistent | core/distributed_cache.go:179-190 | adding a node keeps the list sorted and in step with the map |
| ConsistentHash.RemoveConsistentIff | core/distributed_cache.go:193-216 | removing a node keeps list and map in step if and only if no surviving position belongs to "" |
| ConsistentHash.EmptyNameUnlisted | core/distributed_cache.go:209-215 | two nodes, one called "": removing the other empties the list but not the map |
| ConsistentHash.EvolveNamed | core/distributed_cache.go:106-216 | over any run of additions and removals without the name "", collisions included, list and map stay in step |
| ConsistentHash.AddDisruption | core/distributed_cache.go:106-132 | a key keeps its node or goes to the new one, collisions included |
| ConsistentHash.RemoveDisruption | core/distributed_cache.go:135-164 | a key that did not belong to the removed node keeps its node; none stays with the removed one |
| ConsistentHash.IncomingScanned | core/distributed_cache.go:333-373 | the old owner of every hash the new node takes over is the old owner of one of its new positions |
| ConsistentHash.TakenScansNothing | core/distributed_cache.go:376-401 | for a position that was taken over, the lookup of the old owner yields the new node |
| ConsistentHash.RingIsMembership | core/distributed_cache.go:166-216 | after any run of additions and removals the ring holds exactly the virtual nodes of the current members, sorted and in step |
| ConsistentHash.RoutingAgrees | core/distributed_cache.go:166-216 | runs that end with the same members route every key alike |
| ConsistentHash.AddRemoveRestores | core/distributed_cache.go:179-216 | adding and removing a node restores both map and list if and only if it took no occupied position |
| ConsistentHash.BuildIsRun | core/distributed_cache.go:167-176 | building from a list equals adding its nodes one by one |
| ConsistentHash.BuildOrderIrrelevant | distributed/distributed_node.go:49-60 | processes that list the same nodes in different orders build the same map and route alike |
| Migration.ScheduleProgress | core/distributed_cache.go:348-370 | along any schedule, as long as the new node's keys fit, every moved key is at the new node and every other key where it was |
| Migration.AddComplete | core/distributed_cache.go:333-373 | with room, each key ends up at its owner and nowhere else, lookups answer as before, and moves equal the keys that changed hands |
| Migration.AddConservesIff | core/distributed_cache.go:106-132 | for any node, positions and room: the data is kept if and only if the node's own store was empty, it has room for the keys it takes over, and the old owner of each was scanned |
| Migration.AddKeepsPlaced | core/distributed_cache.go:333-373 | with room or not, if all old owners were scanned every stored key is at its owner with the value it had |
| Migration.ReAddIff | core/distributed_cache.go:117-126 | adding a member again with all its moves, when no route changes, loses nothing if and only if its store was empty |
| Migration.RemoveConserves | core/distributed_cache.go:409-420 | with room at the survivors each key of the removed node is at its new owner only, and lookups answer as before |
| Migration.RemoveConservesIff | core/distributed_cache.go:135-164 | the data survives a removal if and only if every survivor has room for what it inherits |
| Migration.RemoveKeepsPlaced | core/distributed_cache.go:409-420 | with room or not, after a removal every stored key is at its owner with the value it had |
| Distributed.DistributedCache.constructor | core/distributed_cache.go:58-73 | the ring built from the nodes, an empty store of capacity 1000 for each |
| Distributed.DistributedCache.InStep | core/distributed_cache.go:166-216 | in every state of the object the list and the map hold the same positions, unless a node called "" was ever added |
| Distributed.DistributedCache.GetNodeForKey | core/distributed_cache.go:77-103 | the member that owns the key |
| Distributed.DistributedCache.FindResponsibleNodeInOldRing | core/distributed_cache.go:376-401 | the old successor's owner in the present map, "" if it is gone, for any map order |
| Distributed.DistributedCache.BuildHashRing | core/distributed_cache.go:167-176 | replaces the ring by the one built from the node list |
| Distributed.DistributedCache.AddNodeToHashRing | core/distributed_cache.go:179-190 | claims the node's positions, occupied ones too, and sorts the list |
| Distributed.DistributedCache.RemoveNodeFromHashRing | core/distributed_cache.go:193-216 | deletes the node's positions from the map and keeps the listed positions that still have an owner |
| Distributed.DistributedCache.RemoveNodeFromNodes | core/distributed_cache.go:423-430 | deletes the first listing of the node |
| Distributed.DistributedCache.Set | core/distributed_cache.go:234-250 | stores at the owner, changes no other store, never fails on a non-empty ring |
| Distributed.DistributedCache.Get | core/distributed_cache.go:253-269 | answers what the owner's store holds, changes only its recency and statistics |
| Distributed.DistributedCache.Delete | core/distributed_cache.go:272-288 | deletes at the owner, changes no other store |
| Distributed.DistributedCache.AddNode | core/distributed_cache.go:106-132 | the ring gains the node, the stores follow a schedule over the scanned nodes until none holds a key of the new node, and the count is the number of moves |
| Distributed.DistributedCache.MigrateDataForAddedNode | core/distributed_cache.go:333-373 | for any map orders, a schedule over the old owners of the new positions that leaves them without keys of the new node |
| Distributed.DistributedCache.MigrateFrom | core/distributed_cache.go:352-369 | all further moves come from the scanned store, which is left without keys of the new node; the count is their number |
| Distributed.DistributedCache.RemoveNode | core/distributed_cache.go:135-164 | fails without effect for a non-member; otherwise the node leaves ring and stores and its pairs are set at their new owners in some order |
| Distributed.DistributedCache.RedistributeData | core/distributed_cache.go:409-420 | every pair is set at its present owner, counted once, in any map order |
| Rebalance.FreshNoneTaken | core/distributed_cache.go:181-186 | collision-free labels of a fresh node meet no occupied position |
| Rebalance.AddNodeCompletes | core/distributed_cache.go:106-132 | AddNode of a fresh node whose keys fit leaves every key exactly at its owner with its value, for any map order, though only old owners were scanned; the count is the number of keys moved |
| Rebalance.AddNodeConservesIff | core/distributed_cache.go:106-132 | AddNode of any node, member or not, over free or taken positions, with room or not: lookups answer as before if and only if the node had no data to lose, has room, and all old owners were scanned |
| Rebalance.FreshNodeConservesIff | core/distributed_cache.go:106-132 | a new node that takes no position keeps the data if and only if its keys fit |
| Rebalance.ReAddConservesIff | core/distributed_cache.go:117-126 | adding a member again, when no position changes its owner, keeps the data if and only if its store was empty |
| Rebalance.ReAddLoses | core/distributed_cache.go:117-126 | adding the only member again loses its key |
| Rebalance.TakenPositionStrands | core/distributed_cache.go:345-350 | a node that takes over the one position, be it new or a member with an empty store: a key that was found is found no more |
| Rebalance.AllTakenStrands | core/distributed_cache.go:345-350 | a node all of whose positions were occupied scans no other node |
| Rebalance.RemoveNodeConservesIff | core/distributed_cache.go:135-164 | the data survives RemoveNode if and only if the survivors have room, and then every key is exactly at its owner |
| History.StepSound | core/distributed_cache.go:106-288 | every client call, addition, repeated addition and removal keeps each stored key at its owner with the value last set |
| History.RunSound | core/distributed_cache.go:58-288 | so does every collision-free run from the constructor |
| History.FoundIsLatest | core/distributed_cache.go:253-269 | after any such run a found value is that of the latest Set not followed by a Delete, through evictions, migrations and resets |
| Retention.NothingForgotten | core/distributed_cache.go:106-288 | while no more keys are ever set than one store holds and no member is added again, the cache is a map: after any collision-free run of calls, additions and removals a lookup finds the latest Set not followed by a Delete, or nothing if there is none |
| NetworkMigration.StepSafe | distributed/cluster_coordinator.go:246-263 | each step, failed and falsely failed PUTs included, keeps every stored pair in some store |
| NetworkMigration.RunSafe | distributed/cluster_coordinator.go:238-302 | so does every interleaving of any number of sources |
| NetworkMigration.NothingLost | distributed/cluster_coordinator.go:238-302 | from the start: with room at the new node, no run of the other sources loses, alters or invents a pair |
| NetworkMigration.FinishedSource | distributed/cluster_coordinator.go:246-263 | a finished source holds, of the new node's keys, exactly those whose PUT reported a failure |
| NetworkMigration.SourceDrained | distributed/cluster_coordinator.go:246-263 | if all PUTs succeed it holds none |
| NetworkMigration.WorkerTold | distributed/cluster_coordinator.go:238-273 | the keys counted as migrated are those deleted after a reported success since the source last started, the failed ones those with a reported failure |
| NetworkMigration.TransferKeepsIff | distributed/cluster_coordinator.go:251-259 | PUT then delete keeps a key if and only if source and target differ or a third store has it |
| NetworkMigration.SelfMigrationLoses | distributed/cluster_coordinator.go:249-262 | a run of three successful steps after which a key is nowhere |
| NetworkMigration.StaleCopyLost | distributed/cluster_coordinator.go:276-302 | with room, a PUT leaves every pair of the target in place if and only if the target had no copy or an equal one |
| ClusterNodes.ServerIsOwner | distributed/distributed_node.go:83-149 | with equal rings and complete addresses each entry node reaches the owner, with no forward if and only if it is the owner |
| ClusterNodes.ConfiguredIsComplete | distributed/distributed_node.go:47-80 | processes configured with the same nodes have such rings and addresses, in whatever order their Go maps listed the nodes |
| ClusterNodes.SameEverywhere | distributed/distributed_node.go:106-149 | Get and Delete have one effect and one reply through all entry nodes, with at most one forward |
| ClusterNodes.SetSameIff | distributed/distributed_node.go:83-103 | Set replies alike through two nodes if and only if the value is not empty or both or neither own the key |
| ClusterNodes.ReadsLatest | distributed/distributed_node.go:83-149 | after any requests through any nodes a found value is that of the latest accepted Set not followed by a Delete, evictions included |
| ClusterNodes.GetFinds | distributed/distributed_node.go:106-126 | a Get through any process answers the value in the store of the key's owner, Missing if there is none, and changes nothing that is stored |
| ClusterNodes.SetStores | distributed/distributed_node.go:83-103 | a Set is refused if and only if its value is empty and it must be forwarded; an accepted one leaves the value at the owner, and no other store changes |
| ClusterNodes.DeleteRemoves | distributed/distributed_node.go:129-149 | a Delete is accepted everywhere and takes exactly this key from its owner |
| ClusterNodes.RunThenSetThenGet | distributed/distributed_node.go:83-149 | after any run of requests through any processes, an accepted Set through one process is found by the next Get through any other, and a deleted key is Missing |
| ClusterNodes.ClusterIsMap | distributed/distributed_node.go:83-149 | while no more keys are set than each store holds, every Get through any process answers the latest accepted Set not followed by a Delete, or Missing if there is none |
| ClusterNodes.Network.NewDistributedNode | distributed/distributed_node.go:47-80 | a process with a ring built from the configured nodes in any order and a store of the configured size or 1000 |
| ClusterNodes.Network.Set | distributed/distributed_node.go:83-103 | stores locally or forwards once; a missing address fails without a forward |
| ClusterNodes.Network.Get | distributed/distributed_node.go:106-126 | local lookup or one forward; what it answers is `ClusterNodes.GetFinds` |
| ClusterNodes.Network.Delete | distributed/distributed_node.go:129-149 | the same for Delete |
| ClusterNodes.Network.SetLocal | distributed/distributed_node.go:265-268 | changes this process's store only |
| ClusterNodes.Network.GetLocal | distributed/distributed_node.go:271-273 | reads this process's store only |
| ClusterNodes.Network.DeleteLocal | distributed/distributed_node.go:276-278 | changes this process's store only |
| ClusterNodes.Network.AddClusterNode | distributed/distributed_node.go:297-302 | records one address at one process |
| ClusterNodes.Network.RemoveClusterNode | distributed/distributed_node.go:305-310 | forgets one address at one process |
| ClusterNodes.Network.AddNodeToCluster | distributed/cluster_coordinator.go:47-79 | the ring gains the node, the addresses do not, and the stores come from a finished run of the migration protocol |
| ClusterNodes.Network.SyncAddNode | distributed/cluster_coordinator.go:192-215 | ring and addresses gain the node, and the stores come from a finished run of the migration protocol |
| ClusterNodes.Network.SyncRemoveNode | distributed/cluster_coordinator.go:218-235 | ring and addresses lose a member; a non-member is refused without effect; no data moves |
| ClusterNodes.Network.PerformNetworkDataMigration | distributed/cluster_coordinator.go:238-273 | the loop is a run of the protocol by this process alone, up to its end, for any outcome of each PUT; the counter grows by the deletes |
| ClusterNodes.Network.MigrateKey | distributed/cluster_coordinator.go:249-262 | one key: skipped, sent and deleted, or kept after a reported failure; a target that is not up fails |
| ClusterNodes.AddressGap | distributed/cluster_coordinator.go:53-75 | after a node was admitted at one process and synchronised to all others, every process serves every key from its new owner, except the first for the new node's keys unless it knew the address |
| Client.InitialSoundIff | distributed/client.go:574-615 | the constructor starts with healthy equal to below-threshold if and only if the threshold is positive or there are no nodes |
| Client.HealthInvariant | distributed/client.go:638-730 | over any run of successes, failures and checks a node is healthy exactly while its count is below the threshold, and the active list is the seed list |
| Client.CountIsStreak | distributed/client.go:638-730 | over any run, for any threshold, a node's count is the number of its failures and failed checks since its last success or recovery, told from the events; it is unhealthy if and only if there are some and they reach the threshold |
| Client.OfferedIff | distributed/client.go:618-635 | with a positive threshold a node is offered if and only if fewer failures than that came since, or every node has reached it |
| Client.RunClient | distributed/client.go:323-390 | every run of attempts and checks, for any threshold, keeps the cursor a valid index and the active list the seed list; with a positive threshold healthy stays equal to below-threshold |
| Client.ClientInvariant | distributed/client.go:71-105 | the same for every state reachable from the constructor |
| Client.ClientStreak | distributed/client.go:323-390 | the same for a client's own attempts and checks from its constructor on |
| Client.FilterAppend | distributed/client.go:622-627 | the healthy list is built in the order of the active list |
| Client.PickReady | distributed/client.go:369-390 | the node picked is on the healthy list and the cursor stays valid |
| Client.FairRotation | distributed/client.go:381-389 | while the healthy list stays the same, as many picks as it is long are that list rotated: each entry exactly once |
| Client.RetryBound | distributed/client.go:323-355 | with one healthy node that always answers, failures are at most the others' remaining counts to the threshold, and a larger retry count succeeds |
| Client.RetryBoundTight | distributed/client.go:323-355 | a case in which the bound is met and that many retries do not suffice |
| Client.RetryIsRun | distributed/client.go:323-355 | a call asks the nodes picked one after another until one answers or the retries are used up, and leaves the client as exactly these attempts do |
| Client.NodeManager.constructor | distributed/client.go:574-600 | all nodes healthy with no failures, the active list a copy of the seeds |
| Client.NodeManager.GetHealthyNodes | distributed/client.go:618-635 | the healthy active nodes in order, or all seeds |
| Client.NodeManager.MarkSuccess | distributed/client.go:638-650 | resets the count, healthy or not, marks healthy, lists the node again; over runs this is `Client.CountIsStreak` |
| Client.NodeManager.MarkFailure | distributed/client.go:653-666 | counts and marks unhealthy from the threshold on |
| Client.NodeManager.EnsureNodeInActiveList | distributed/client.go:669-675 | appends the node unless listed |
| Client.NodeManager.CheckSingleNode | distributed/client.go:705-730 | a failed check counts like a failure; a good one resets only an unhealthy node |
| Client.DistributedClient.constructor | distributed/client.go:71-105 | zero retry count and threshold become three |
| Client.DistributedClient.GetNextNode | distributed/client.go:358-366 | plain round-robin |
| Client.DistributedClient.GetNextHealthyNode | distributed/client.go:369-390 | round-robin over the healthy list with its fallback |
| Client.DistributedClient.ExecuteWithRetry | distributed/client.go:323-355 | the loop refines the retry machine, for any threshold: outcome, number of failures, counters and cursor |
| PreferenceRing.WalkUnique | tutorial/04-consistent-hash/virtual_nodes.go:182-193 | a set of positions can be walked clockwise from a hash in one order only |
| PreferenceRing.PreferenceWithout | tutorial/04-consistent-hash/virtual_nodes.go:99-131 | without a node's positions every preference list is the old one with that node struck out |
| PreferenceRing.PreferenceExact | tutorial/04-consistent-hash/virtual_nodes.go:164-196 | the list has every node that owns a position exactly once, and the key's own node first |
| PreferenceRing.PreferenceNearest | tutorial/04-consistent-hash/virtual_nodes.go:182-193 | a node comes before another because one of its positions is nearer clockwise to the key than all of the other's |
| PreferenceRing.ReplicasAfterRemoval | tutorial/04-consistent-hash/virtual_nodes.go:164-196 | after a removal a key keeps its replicas, or loses that one and gains the next of its list |
| PreferenceRing.PreferenceUnique | tutorial/04-consistent-hash/virtual_nodes.go:92-95 | the map determines the sorted list |
| PreferenceRing.InsertionOrderIrrelevant | tutorial/04-consistent-hash/virtual_nodes.go:46-96 | the order in which nodes joined a collision-free ring leaves no trace in any preference list |
| PreferenceRing.PlaceExact | tutorial/04-consistent-hash/virtual_nodes.go:69-90 | each virtual node gets a position of its own and no position changes hands, re-hashing included |
| PreferenceRing.CollisionFreeSettles | tutorial/04-consistent-hash/virtual_nodes.go:69-90 | labels that meet nothing are placed where they hash, without re-hashing |
| PreferenceRing.VirtualHashRing.FindPosition | tutorial/04-consistent-hash/virtual_nodes.go:70-78 | the re-hash loop finds the first free candidate |
| PreferenceRing.VirtualHashRing.AddNode | tutorial/04-consistent-hash/virtual_nodes.go:46-96 | striking the new node from each list gives the old list; a known ID changes nothing; a weight buys a hundredth of the configured positions for each unit, rounded down, no weight buys them all |
| PreferenceRing.VirtualHashRing.RemoveNode | tutorial/04-consistent-hash/virtual_nodes.go:99-131 | each list is the old one without the node, for any map order |
| PreferenceRing.VirtualHashRing.GetNode | tutorial/04-consistent-hash/virtual_nodes.go:134-161 | the owner of the first position clockwise, which heads the key's list; none on an empty ring |
| PreferenceRing.VirtualHashRing.GetNodes | tutorial/04-consistent-hash/virtual_nodes.go:164-196 | a prefix of the key's list without repeats, as long as the smaller of `count` and the number of nodes with a position, headed by the node of GetNode |
| SingleFlight.StepExclusive | tutorial/03-problems/breakdown.go:164-180 | each step keeps one lock for each key and the holder of each lock the only call inside |
| SingleFlight.OneInside | tutorial/03-problems/breakdown.go:172-174 | at most one call for each key is between lock and unlock |
| SingleFlight.StepBalanced | tutorial/03-problems/breakdown.go:157-191 | each step keeps loads in balance with expiries and the present entry |
| SingleFlight.LoadsExact | tutorial/03-problems/breakdown.go:157-191 | over any interleaving the loader of a key succeeds, by the events, exactly as often as its entry expired, plus one for the entry there or about to be, less one if it was there at first |
| SingleFlight.SingleLoad | tutorial/03-problems/breakdown.go:157-191 | a key that does not expire is loaded successfully at most once, never if cached before, and every return without error has that value |
| SingleFlight.ReturnsWhatWasAsked | tutorial/03-problems/breakdown.go:157-191 | a finished call returned a value of the key it was asked for, cached at the start or loaded for that key; it returned its own loader's value if that gave one, and an error if and only if that failed |
| SingleFlight.NoDeadlock | tutorial/03-problems/breakdown.go:163-174 | in every reachable state with an unfinished call some call can go on |
| WriteBack.StepRefines | tutorial/02-patterns/write_back.go:43-131 | each operation does to the overlaid database what it does to a plain map, and the cache stays in agreement |
| WriteBack.RunRefines | tutorial/02-patterns/write_back.go:43-196 | over any run, flushes at any point included, all replies are those of a plain map |
| WriteBack.FlushCommits | tutorial/02-patterns/write_back.go:107-131 | after a final flush the database is that map and nothing is dirty |
| WriteBack.UnflushedLostIff | tutorial/02-patterns/write_back.go:63-85 | a key survives a stop without flush if and only if it is clean or the database has that value already |
| WriteBack.StopKeeps | tutorial/02-patterns/write_back.go:63-131 | what a stop without Close leaves: the map as of the last flush, less what was deleted since |
| WriteBackRaces.RunTracked | tutorial/02-patterns/write_back.go:43-131 | in every run the latest Set or Delete of a key since a Get looked tells what the overlaid database has for it |
| WriteBackRaces.LateFillIff | tutorial/02-patterns/write_back.go:51-58 | a fill keeps the cache coherent if and only if that Set or Delete, if any, left the value read in place |
| WriteBackRaces.CoherentIff | tutorial/02-patterns/write_back.go:43-131 | over whole runs, with any number of Gets under way, the cache is coherent throughout if and only if each fill is of that kind |
| WriteBackRaces.StaleAfterSet | tutorial/02-patterns/write_back.go:46-60 | look, read, Set, fill: the next Get returns the value before the Set |
| WriteBackRaces.StaleFromEmpty | tutorial/02-patterns/write_back.go:46-60 | the same from an empty database, with a flush before the read |
| WriteBack.WriteBackCache.Get | tutorial/02-patterns/write_back.go:43-61 | answers from the overlaid database and leaves it unchanged |
| WriteBack.WriteBackCache.Set | tutorial/02-patterns/write_back.go:65-85 | updates the overlaid database at one key without touching the database |
| WriteBack.WriteBackCache.Delete | tutorial/02-patterns/write_back.go:88-104 | removes one key from the overlaid database |
| WriteBack.WriteBackCache.Flush | tutorial/02-patterns/write_back.go:107-131 | for any map order the database becomes the overlaid database, which is unchanged, and nothing is dirty |
| WriteBack.WriteBackCache.AutoFlush | tutorial/02-patterns/write_back.go:176-196 | the same as Flush |
| WriteBack.WriteBackCache.GetDirtyCount | tutorial/02-patterns/write_back.go:134-145 | the number of dirty keys |
| WriteBack.WriteBackCache.Close | tutorial/02-patterns/write_back.go:148-158 | flushes; a second call panics in the source and is excluded |
| Multilevel.SizeKeptIff | tutorial/05-multilevel/local_cache.go:78-93 | whatever eviction may choose, a Set keeps the local level within its size if and only if there is room, the key is there, or some entry was used before now and the oldest is not "" |
| Multilevel.SameInstantOvershoots | tutorial/05-multilevel/local_cache.go:156-174 | a level of size one that holds two entries after two Sets at one instant |
| Multilevel.StepCoherent | tutorial/05-multilevel/multilevel_cache.go:118-194 | in every configuration each call answers as the database would and keeps both levels equal to it |
| Multilevel.RunCoherent | tutorial/05-multilevel/multilevel_cache.go:118-194 | over any run, with any clock, expiry and evictions, all replies are the database's, and requests are hits of one kind or unknown keys |
| Multilevel.DirectWriteSeenIff | tutorial/05-multilevel/multilevel_cache.go:118-144 | a write behind the cache's back is seen if and only if no live copy is cached or it changes nothing |
| MultilevelTimes.EntriesTold | tutorial/05-multilevel/multilevel_cache.go:118-183 | over any run with direct database writes, each cached copy is the one last filled in, told from replies and hit counters, and expires its own level's lifetime after that; use times and access counts likewise |
| MultilevelTimes.AnsweredFrom | tutorial/05-multilevel/multilevel_cache.go:118-161 | an answer of a level is what it was last filled with, not after that level's lifetime; any other is the database's |
| MultilevelTimes.SeenAfterFills | tutorial/05-multilevel/multilevel_cache.go:118-161 | a Get later than the last filling of each level plus its lifetime answers what the database holds |
| MultilevelTimes.StalenessBound | tutorial/05-multilevel/multilevel_cache.go:118-183 | a direct write is answered by every Get more than both lifetimes later, unless the key was written again |
| MultilevelTimes.BoundTight | tutorial/05-multilevel/multilevel_cache.go:128-141 | for any lifetimes, the shared one longer, a run that still answers the old value at that bound |
| MultilevelTimes.ServedLocally | tutorial/05-multilevel/multilevel_cache.go:118-161 | a copy filled into the local level answers every Get up to the end of its lifetime, unless dropped, evicted or overwritten |
| MultilevelTimes.ServedFromShared | tutorial/05-multilevel/multilevel_cache.go:118-161 | a copy filled into the shared level answers, without asking the database, up to the end of its own lifetime, unless dropped or overwritten |
| Multilevel.LocalCache.Get | tutorial/05-multilevel/local_cache.go:49-75 | answers if and only if the key is there and now is not after its deadline; a hit is touched, anything else changes no entry; counted as hit or miss |
| Multilevel.LocalCache.EvictLRU | tutorial/05-multilevel/local_cache.go:156-174 | for any map order evicts an entry of least last access before now, unless there is none or it is called "" |
| Multilevel.LocalCache.Set | tutorial/05-multilevel/local_cache.go:78-93 | evicts at capacity even for a known key, then stores with a new deadline |
| Multilevel.LocalCache.CleanupExpired | tutorial/05-multilevel/local_cache.go:177-193 | keeps exactly the live entries |
| Multilevel.SharedCache.Get | tutorial/05-multilevel/distributed_cache.go:50-73 | answers if and only if the key is there and now is not after its deadline; counted as hit or miss and as one network call |
| Multilevel.SharedCache.Set | tutorial/05-multilevel/distributed_cache.go:76-91 | stores with a new deadline |
| Multilevel.SharedCache.CleanupExpired | tutorial/05-multilevel/distributed_cache.go:293-309 | keeps exactly the live entries |
| Multilevel.MultilevelCache.constructor | tutorial/05-multilevel/multilevel_cache.go:86-115 | exactly the enabled levels exist, empty |
| Multilevel.MultilevelCache.Get | tutorial/05-multilevel/multilevel_cache.go:118-161 | refines the level-by-level read with back-fill, a proper eviction and metrics; on coherent levels it answers what a direct database lookup would, on others see `MultilevelTimes.AnsweredFrom` |
| Multilevel.MultilevelCache.Set | tutorial/05-multilevel/multilevel_cache.go:164-183 | writes the database and updates, with a proper eviction, or drops both copies, keeping coherent levels coherent |
| Multilevel.MultilevelCache.Delete | tutorial/05-multilevel/multilevel_cache.go:186-194 | drops both copies and leaves the database alone |

## Left out

- Distributed.DistributedCache.Set: atomic here, as are Get and Delete; the source releases the ring lock between routing and storing.
- Distributed.DistributedCache.RemoveNode: removing the last node while it holds data indexes an empty list and panics in the source; excluded.
- Rebalance.AddNodeConservesIff: starts, like the other theorems on data, from a cluster without a member called ""; what that name does to the ring is `ConsistentHash.RemoveConsistentIff`.
- LruHeap.LruCache.SetInternal: memory is counted in characters of the string and without wrap-around at 64 bits; the source counts bytes in an int64.
- LruHeap.LruCache.CleanupExpiredKeys: one step with one clock reading; the ticker, the goroutine and Close are left out.
- PreferenceRing.VirtualHashRing.AddNode: requires that the re-hash loop ends for every virtual node, which the source does not guarantee; nodes appear by their ID, of which the ring keeps one object each.
- ClusterNodes.Network.AddNodeToCluster: the broadcast to the other processes is their own SyncAddNode step, and the ring's own per-node caches, which a process never fills, are not modelled.
- ClusterNodes.Network.PerformNetworkDataMigration: the address given for the new node is taken to be its own, and a process sees the others' stores change only between its own migrations; interleaving with other sources is in `NetworkMigration`.
- ClusterNodes.Network: the processes are fields of one object and their stores are values, so aliasing between a process and its store is not captured.
- WriteBackRaces.CoherentIff: the accesses of a Get fall between the locked operations, never inside one.
- Network removal of a node moves no data in the source, so nothing is claimed about conservation there.
- Multilevel.MultilevelCache.Set: the configuration cannot change after construction; in the source the caller keeps a pointer to it.
- Multilevel.LocalCache.Set: one clock reading for each call, where the source takes several.
- SingleFlight.SingleLoad: expiry is a step that removes the entry; a loader that panics is not modelled.
- Client.DistributedClient.ExecuteWithRetry: requires at least one node; without nodes the source indexes an empty list. `Client.RetryBound` is about the state a positive threshold leads to and has no background checks during the call.
- Overflow of counters, positions in time and node weights.
- HTTP, JSON, request handlers, configuration files, start-up and shutdown, printing.
- SHA-1 (section 6.1 of FIPS 180-4) and other hashes: uninterpreted.
- Load balance, hit rates and other figures that no code path decides.
- The cluster manager, monitoring, the rebalance stub, the other tutorial programs: easy members, or the same cores again.
