/** Migration between processes (distributed/cluster_coordinator.go): every source walks a
    snapshot of its own store, PUTs the keys of the new node to it and deletes each key whose
    PUT came back as a success. Sources interleave freely, step by step. */
module NetworkMigration {
  import opened Wrappers
  import opened LruSpec
  import opened Migration

  /** Where a source stands in performNetworkDataMigration. */
  datatype Worker = Worker(pending: map<string, string>,  // snapshot entries still to visit
                           deleting: Option<string>,      // PUT succeeded, local delete to come
                           failed: set<string>,           // PUT reported a failure
                           migrated: nat)

  datatype State = State(stores: Stores, workers: map<string, Worker>)

  /** A PUT may be applied or not, and cannot be if the target is not up; a success report means it was
      applied, a failure report means nothing. The receiving handler refuses empty values. */
  datatype Event =
    | Start(src: string)
    | Skip(src: string, key: string)
    | Send(src: string, key: string, applied: bool, reported: bool)
    | DeleteLocal(src: string)

  ghost predicate Idle(w: Worker) {
    w.pending == map[] && w.deleting == None
  }

  ghost predicate Enabled(s: State, to: string, route: string -> string, e: Event) {
    && e.src in s.stores
    && match e
       case Start(src) => src in s.workers ==> Idle(s.workers[src])
       case Skip(src, k) =>
         src in s.workers && s.workers[src].deleting == None && k in s.workers[src].pending && route(k) != to
       case Send(src, k, applied, reported) =>
         && src in s.workers && s.workers[src].deleting == None && k in s.workers[src].pending && route(k) == to
         && (reported ==> applied) && (applied ==> to in s.stores && s.workers[src].pending[k] != "")
       case DeleteLocal(src) => src in s.workers && s.workers[src].deleting.Some?
  }

  ghost function Apply(s: State, to: string, route: string -> string, e: Event): State
    requires Enabled(s, to, route, e)
  {
    match e
    case Start(src) => s.(workers := s.workers[src := Worker(Data(s.stores[src]), None, {}, 0)])
    case Skip(src, k) =>
      var w := s.workers[src];
      s.(workers := s.workers[src := w.(pending := w.pending - {k})])
    case Send(src, k, applied, reported) =>
      var w := s.workers[src];
      State(if applied then s.stores[to := Put(s.stores[to], k, w.pending[k])] else s.stores,
            s.workers[src := if reported then w.(pending := w.pending - {k}, deleting := Some(k))
                             else w.(pending := w.pending - {k}, failed := w.failed + {k})])
    case DeleteLocal(src) =>
      var w := s.workers[src];
      State(s.stores[src := Delete(s.stores[src], w.deleting.value)],
            s.workers[src := w.(deleting := None, migrated := w.migrated + 1)])
  }

  /** `t` is reached from `s` through the events, one after another. */
  ghost predicate Run(s: State, to: string, route: string -> string, events: seq<Event>, t: State) {
    if events == [] then s == t
    else
      var n := |events| - 1;
      exists mid :: Run(s, to, route, events[..n], mid) && Enabled(mid, to, route, events[n])
          && t == Apply(mid, to, route, events[n])
  }

  lemma RunNext(s: State, to: string, route: string -> string, events: seq<Event>, mid: State, e: Event)
    requires Run(s, to, route, events, mid) && Enabled(mid, to, route, e)
    ensures Run(s, to, route, events + [e], Apply(mid, to, route, e))
  {
    assert (events + [e])[..|events|] == events;
  }

  lemma RunStart(stores: Stores, to: string, route: string -> string, src: string)
    requires src in stores
    ensures Run(State(stores, map[]), to, route, [Start(src)],
                State(stores, map[src := Worker(Data(stores[src]), None, {}, 0)]))
  {
    var s := State(stores, map[]);
    assert Run(s, to, route, [], s);
    RunNext(s, to, route, [], s, Start(src));
    assert [] + [Start(src)] == [Start(src)];
  }

  // ----- Nothing is lost -----

  ghost predicate Stored(stores: Stores, k: string) {
    exists n :: n in stores && Lookup(stores[n].list, k).Some?
  }

  ghost predicate TrueCopies(store: Lru, truth: map<string, string>) {
    forall k :: Lookup(store.list, k).Some? ==> k in truth && Lookup(store.list, k).value == truth[k]
  }

  /** `truth` is what the cluster stores, all copies of a key agreeing. */
  ghost predicate Agreed(stores: Stores, truth: map<string, string>) {
    && (forall n :: n in stores ==> TrueCopies(stores[n], truth))
    && (forall k :: k in truth ==> Stored(stores, k))
  }

  /** The keys that may ever be at the new node: its own and those routed to it. */
  ghost function Destined(own: set<string>, to: string, route: string -> string, truth: map<string, string>)
    : set<string>
  {
    own + set k | k in truth && route(k) == to
  }

  ghost predicate WorkerOk(w: Worker, s: State, to: string, truth: map<string, string>)
    requires to in s.stores
  {
    && (forall k :: k in w.pending ==> k in truth && w.pending[k] == truth[k])
    && (w.deleting.Some? ==> Lookup(s.stores[to].list, w.deleting.value).Some?)
  }

  ghost predicate Safe(s: State, to: string, route: string -> string, own: set<string>, truth: map<string, string>) {
    && AllStores(s.stores) && to in s.stores && to !in s.workers
    && Agreed(s.stores, truth)
    && Keys(s.stores[to].list) <= Destined(own, to, route, truth)
    && |Destined(own, to, route, truth)| <= s.stores[to].capacity
    && forall n :: n in s.workers ==> n in s.stores && WorkerOk(s.workers[n], s, to, truth)
  }

  /** Replacing one store: copies stay true if the new one is, and what it gave up must be kept
      by another store. */
  lemma Replaced(stores: Stores, n: string, store: Lru, truth: map<string, string>, k: string, keeper: string)
    requires Agreed(stores, truth) && n in stores && TrueCopies(store, truth)
    requires forall x :: x != k && Lookup(stores[n].list, x).Some? ==> Lookup(store.list, x).Some?
    requires keeper in stores
        && (if keeper == n then Lookup(store.list, k).Some? else Lookup(stores[keeper].list, k).Some?)
    ensures Agreed(stores[n := store], truth)
  {
    hide TrueCopies, Lookup;
    var after := stores[n := store];
    forall x | x in truth ensures Stored(after, x) {
      assert Stored(stores, x);
      var m :| m in stores && Lookup(stores[m].list, x).Some?;
      var holder := if x == k then keeper else m;
      assert holder in after && Lookup(after[holder].list, x).Some?;
    }
  }

  lemma SendSafe(store: Lru, own: set<string>, to: string, route: string -> string, truth: map<string, string>,
                 k: string)
    requires Store(store) && TrueCopies(store, truth) && k in truth && route(k) == to
    requires Keys(store.list) <= Destined(own, to, route, truth) && |Destined(own, to, route, truth)| <= store.capacity
    ensures var after := Put(store, k, truth[k]);
            && Store(after) && TrueCopies(after, truth) && after.capacity == store.capacity
            && Keys(after.list) <= Destined(own, to, route, truth)
            && Lookup(after.list, k).Some?
            && forall x :: Lookup(store.list, x).Some? ==> Lookup(after.list, x).Some?
  {
    hide Put;
    PutStore(store, k, truth[k]);
    if k !in Keys(store.list) {
      KeysCount(store.list);
      StrictSubset(Keys(store.list), Destined(own, to, route, truth), k);
    }
    forall x
      ensures Lookup(Put(store, k, truth[k]).list, x) == if x == k then Some(truth[k]) else Lookup(store.list, x)
    {
      PutRoom(store, k, truth[k], x);
    }
  }

  lemma DeleteSafe(store: Lru, k: string, truth: map<string, string>)
    requires Store(store) && TrueCopies(store, truth)
    ensures Store(Delete(store, k)) && TrueCopies(Delete(store, k), truth)
    ensures Delete(store, k).capacity == store.capacity
    ensures forall x :: x != k && Lookup(store.list, x).Some? ==> Lookup(Delete(store, k).list, x).Some?
  {
    DeleteStore(store, k);
    forall x ensures Lookup(Delete(store, k).list, x) == if x == k then None else Lookup(store.list, x) {
      LookupDrop(store.list, {k}, x);
    }
  }

  /** Steps of a worker that leave the stores alone. */
  lemma WorkerSafe(s: State, to: string, route: string -> string, own: set<string>, truth: map<string, string>,
                   src: string, w: Worker)
    requires Safe(s, to, route, own, truth) && src in s.stores && src != to && WorkerOk(w, s, to, truth)
    ensures Safe(s.(workers := s.workers[src := w]), to, route, own, truth)
  {
    hide Destined, AllStores, Agreed;
  }

  lemma AppliedSafe(s: State, to: string, route: string -> string, own: set<string>, truth: map<string, string>,
                    src: string, k: string, w: Worker)
    requires Safe(s, to, route, own, truth) && src in s.stores && src != to && k in truth && route(k) == to
    requires (forall x :: x in w.pending ==> x in truth && w.pending[x] == truth[x]) && w.deleting in {None, Some(k)}
    ensures Safe(State(s.stores[to := Put(s.stores[to], k, truth[k])], s.workers[src := w]), to, route, own, truth)
  {
    hide Put, Destined, Stored, TrueCopies, Store;
    SendSafe(s.stores[to], own, to, route, truth, k);
    Replaced(s.stores, to, Put(s.stores[to], k, truth[k]), truth, k, to);
    hide Agreed;
  }

  lemma DeletedSafe(s: State, to: string, route: string -> string, own: set<string>, truth: map<string, string>,
                    src: string, w: Worker)
    requires Safe(s, to, route, own, truth) && src in s.workers && src != to && s.workers[src].deleting.Some?
    requires WorkerOk(w, s, to, truth)
    ensures Safe(State(s.stores[src := Delete(s.stores[src], s.workers[src].deleting.value)], s.workers[src := w]),
                 to, route, own, truth)
  {
    hide Delete, Destined, Stored, TrueCopies, Store;
    var k := s.workers[src].deleting.value;
    DeleteSafe(s.stores[src], k, truth);
    Replaced(s.stores, src, Delete(s.stores[src], k), truth, k, to);
    hide Agreed;
  }

  lemma StartSafe(s: State, to: string, route: string -> string, own: set<string>, truth: map<string, string>,
                  src: string)
    requires Safe(s, to, route, own, truth) && Enabled(s, to, route, Start(src)) && src != to
    ensures Safe(Apply(s, to, route, Start(src)), to, route, own, truth)
  {
    SnapshotTrue(s.stores[src], truth);
    var w := Worker(Data(s.stores[src]), None, {}, 0);
    assert WorkerOk(w, s, to, truth);
    WorkerSafe(s, to, route, own, truth, src, w);
    hide Safe, Data;
  }

  lemma SkipSafe(s: State, to: string, route: string -> string, own: set<string>, truth: map<string, string>,
                 src: string, k: string)
    requires Safe(s, to, route, own, truth) && Enabled(s, to, route, Skip(src, k)) && src != to
    ensures Safe(Apply(s, to, route, Skip(src, k)), to, route, own, truth)
  {
    hide Destined, AllStores, Agreed, Data;
    var w := s.workers[src].(pending := s.workers[src].pending - {k});
    assert WorkerOk(w, s, to, truth) by { assert WorkerOk(s.workers[src], s, to, truth); }
    WorkerSafe(s, to, route, own, truth, src, w);
    hide Safe;
  }

  lemma SendStepSafe(s: State, to: string, route: string -> string, own: set<string>, truth: map<string, string>,
                     src: string, k: string, applied: bool, reported: bool)
    requires Safe(s, to, route, own, truth) && Enabled(s, to, route, Send(src, k, applied, reported)) && src != to
    ensures Safe(Apply(s, to, route, Send(src, k, applied, reported)), to, route, own, truth)
  {
    hide Destined, AllStores, Agreed, Data, Put;
    var was := s.workers[src];
    var w := if reported then was.(pending := was.pending - {k}, deleting := Some(k))
             else was.(pending := was.pending - {k}, failed := was.failed + {k});
    assert WorkerOk(was, s, to, truth);
    if applied {
      AppliedSafe(s, to, route, own, truth, src, k, w);
    } else {
      assert WorkerOk(w, s, to, truth);
      WorkerSafe(s, to, route, own, truth, src, w);
    }
    hide Safe;
  }

  lemma DeleteStepSafe(s: State, to: string, route: string -> string, own: set<string>, truth: map<string, string>,
                       src: string)
    requires Safe(s, to, route, own, truth) && Enabled(s, to, route, DeleteLocal(src)) && src != to
    ensures Safe(Apply(s, to, route, DeleteLocal(src)), to, route, own, truth)
  {
    hide Destined, AllStores, Agreed, Data, Delete;
    var was := s.workers[src];
    var w := was.(deleting := None, migrated := was.migrated + 1);
    assert WorkerOk(w, s, to, truth) by { assert WorkerOk(was, s, to, truth); }
    DeletedSafe(s, to, route, own, truth, src, w);
    hide Safe;
  }

  /** Each step keeps every stored pair somewhere. */
  lemma StepSafe(s: State, to: string, route: string -> string, own: set<string>, truth: map<string, string>, e: Event)
    requires Safe(s, to, route, own, truth) && Enabled(s, to, route, e) && e.src != to
    ensures Safe(Apply(s, to, route, e), to, route, own, truth)
  {
    hide Safe, Apply, Enabled;
    match e
    case Start(src) => StartSafe(s, to, route, own, truth, src);
    case Skip(src, k) => SkipSafe(s, to, route, own, truth, src, k);
    case Send(src, k, applied, reported) => SendStepSafe(s, to, route, own, truth, src, k, applied, reported);
    case DeleteLocal(src) => DeleteStepSafe(s, to, route, own, truth, src);
  }

  lemma SnapshotTrue(store: Lru, truth: map<string, string>)
    requires TrueCopies(store, truth)
    ensures forall k :: k in Data(store) ==> k in truth && Data(store)[k] == truth[k]
  {
    forall k | k in Data(store) ensures k in truth && Data(store)[k] == truth[k] {
      assert Lookup(store.list, k).Some?;
    }
  }

  /** Whatever the interleaving and whichever PUTs fail or only seem to, every key and value of
      the cluster stays stored somewhere, and nothing else ever is. */
  lemma {:induction false} RunSafe(s: State, to: string, route: string -> string, own: set<string>,
                                   truth: map<string, string>, events: seq<Event>, t: State)
    requires Safe(s, to, route, own, truth) && Run(s, to, route, events, t)
    requires forall e :: e in events ==> e.src != to
    ensures Safe(t, to, route, own, truth)
  {
    hide Safe, Apply, Enabled;
    if events != [] {
      var n := |events| - 1;
      var mid :| Run(s, to, route, events[..n], mid) && Enabled(mid, to, route, events[n])
          && t == Apply(mid, to, route, events[n]);
      RunSafe(s, to, route, own, truth, events[..n], mid);
      assert events[n] in events;
      StepSafe(mid, to, route, own, truth, events[n]);
    }
  }

  /** Migration safety from the start: with room at the new node for its own keys and those
      routed to it, no run of the other sources loses or alters a stored pair. */
  lemma NothingLost(stores: Stores, to: string, route: string -> string, truth: map<string, string>,
                    events: seq<Event>, t: State)
    requires AllStores(stores) && to in stores && Agreed(stores, truth)
    requires |Destined(Keys(stores[to].list), to, route, truth)| <= stores[to].capacity
    requires Run(State(stores, map[]), to, route, events, t) && forall e :: e in events ==> e.src != to
    ensures AllStores(t.stores) && Agreed(t.stores, truth)
  {
    hide Run, Safe, Agreed, AllStores, Destined;
    SafeStart(stores, to, route, truth);
    RunSafe(State(stores, map[]), to, route, Keys(stores[to].list), truth, events, t);
    SafeMeans(t, to, route, Keys(stores[to].list), truth);
  }

  lemma SafeStart(stores: Stores, to: string, route: string -> string, truth: map<string, string>)
    requires AllStores(stores) && to in stores && Agreed(stores, truth)
    requires |Destined(Keys(stores[to].list), to, route, truth)| <= stores[to].capacity
    ensures Safe(State(stores, map[]), to, route, Keys(stores[to].list), truth)
  {
    assert Keys(stores[to].list) <= Destined(Keys(stores[to].list), to, route, truth);
  }

  lemma SafeMeans(t: State, to: string, route: string -> string, own: set<string>, truth: map<string, string>)
    requires Safe(t, to, route, own, truth)
    ensures AllStores(t.stores) && Agreed(t.stores, truth)
  {
  }

  // ----- A finished source -----

  /** What a source still holds for the new node is what it has yet to visit, to delete, or
      failed to send; and it never gave up anything else. */
  ghost predicate Ledger(s: State, to: string, route: string -> string, src: string) {
    && src in s.stores && src in s.workers && Store(s.stores[src])
    && var w := s.workers[src];
       && w.pending.Keys !! w.failed
       && (w.deleting.Some? ==>
           w.deleting.value !in w.pending && w.deleting.value !in w.failed && route(w.deleting.value) == to)
       && forall k :: Lookup(s.stores[src].list, k).Some? && route(k) == to <==>
            (k in w.pending || k in w.failed || w.deleting == Some(k)) && route(k) == to
  }

  lemma StartLedger(s: State, to: string, route: string -> string, src: string)
    requires src in s.stores && Store(s.stores[src])
    ensures Ledger(State(s.stores, s.workers[src := Worker(Data(s.stores[src]), None, {}, 0)]), to, route, src)
  {
    forall k ensures Lookup(s.stores[src].list, k).Some? <==> k in Data(s.stores[src]) {
    }
    hide Data, Lookup;
  }

  lemma SendLedger(s: State, to: string, route: string -> string, src: string, k: string, applied: bool, reported: bool)
    requires Enabled(s, to, route, Send(src, k, applied, reported)) && src != to && Ledger(s, to, route, src)
    ensures Ledger(Apply(s, to, route, Send(src, k, applied, reported)), to, route, src)
  {
    hide Put, Delete, Data, Lookup, Store;
  }

  lemma SkipLedger(s: State, to: string, route: string -> string, src: string, k: string)
    requires Enabled(s, to, route, Skip(src, k)) && Ledger(s, to, route, src)
    ensures Ledger(Apply(s, to, route, Skip(src, k)), to, route, src)
  {
    hide Data, Lookup, Store;
  }

  lemma DeleteLedger(s: State, to: string, route: string -> string, src: string)
    requires Enabled(s, to, route, DeleteLocal(src)) && Ledger(s, to, route, src)
    ensures Ledger(Apply(s, to, route, DeleteLocal(src)), to, route, src)
  {
    hide Delete, Data;
    var k := s.workers[src].deleting.value;
    DeleteStore(s.stores[src], k);
    forall x
      ensures Lookup(Delete(s.stores[src], k).list, x) == if x == k then None else Lookup(s.stores[src].list, x)
    {
      LookupDrop(s.stores[src].list, {k}, x);
    }
    hide Lookup, Store;
  }

  /** Other sources leave this one alone. */
  lemma OtherLedger(s: State, to: string, route: string -> string, e: Event, src: string)
    requires Enabled(s, to, route, e) && src != to && e.src != src && src in s.stores
    requires src in s.workers ==> Ledger(s, to, route, src)
    ensures var t := Apply(s, to, route, e);
            && src in t.stores && t.stores[src] == s.stores[src]
            && (src in t.workers ==> Ledger(t, to, route, src))
  {
    hide Put, Delete, Data, Lookup, Store;
  }

  lemma StepLedger(s: State, to: string, route: string -> string, e: Event, src: string)
    requires Enabled(s, to, route, e) && src != to
    requires src in s.stores && Store(s.stores[src])
    requires src in s.workers ==> Ledger(s, to, route, src)
    ensures var t := Apply(s, to, route, e);
            && src in t.stores && Store(t.stores[src])
            && (src in t.workers ==> Ledger(t, to, route, src))
  {
    hide Put, Delete, Data, Store;
    if e.src != src {
      hide Ledger;
      OtherLedger(s, to, route, e, src);
    } else {
      match e
      case Start(src) => StartLedger(s, to, route, src);
      case Skip(src, k) => SkipLedger(s, to, route, src, k);
      case Send(src, k, applied, reported) => SendLedger(s, to, route, src, k, applied, reported);
      case DeleteLocal(src) => DeleteLedger(s, to, route, src);
    }
  }

  lemma {:induction false} RunLedger(s: State, to: string, route: string -> string, events: seq<Event>, t: State,
                                     src: string)
    requires Run(s, to, route, events, t) && src != to
    requires src in s.stores && Store(s.stores[src])
    requires src in s.workers ==> Ledger(s, to, route, src)
    ensures src in t.stores && Store(t.stores[src]) && (src in t.workers ==> Ledger(t, to, route, src))
  {
    hide Ledger, Apply, Enabled, Store;
    if events != [] {
      var n := |events| - 1;
      var mid :| Run(s, to, route, events[..n], mid) && Enabled(mid, to, route, events[n])
          && t == Apply(mid, to, route, events[n]);
      RunLedger(s, to, route, events[..n], mid, src);
      StepLedger(mid, to, route, events[n], src);
    }
  }

  /** The keys whose PUT by `src` reported a failure since it last started. */
  function Refused(events: seq<Event>, src: string): set<string> {
    if events == [] then {}
    else
      var before := Refused(events[..|events| - 1], src);
      match events[|events| - 1]
      case Start(n) => if n == src then {} else before
      case Send(n, k, _, reported) => if n == src && !reported then before + {k} else before
      case _ => before
  }

  /** The local deletes of `src` since it last started. */
  function Deletes(events: seq<Event>, src: string): nat {
    if events == [] then 0
    else
      var before := Deletes(events[..|events| - 1], src);
      match events[|events| - 1]
      case Start(n) => if n == src then 0 else before
      case DeleteLocal(n) => if n == src then before + 1 else before
      case _ => before
  }

  /** What a source keeps count of is what it did. */
  lemma {:induction false} WorkerTold(s: State, to: string, route: string -> string, events: seq<Event>, t: State,
                                      src: string)
    requires Run(s, to, route, events, t) && src !in s.workers && src in t.workers
    ensures t.workers[src].failed == Refused(events, src) && t.workers[src].migrated == Deletes(events, src)
  {
    if events != [] {
      var n := |events| - 1;
      var mid :| Run(s, to, route, events[..n], mid) && Enabled(mid, to, route, events[n])
          && t == Apply(mid, to, route, events[n]);
      hide Run;
      if src in mid.workers {
        WorkerTold(s, to, route, events[..n], mid, src);
      }
    }
  }

  /** When a source that started fresh has finished, in any interleaving with the others, the keys
      of the new node it still holds are exactly those whose PUT reported a failure. */
  lemma FinishedSource(s: State, to: string, route: string -> string, events: seq<Event>, t: State, src: string,
                       k: string)
    requires Run(s, to, route, events, t) && src != to
    requires src in s.stores && Store(s.stores[src]) && src !in s.workers
    requires src in t.workers && Idle(t.workers[src])
    ensures src in t.stores
    ensures Lookup(t.stores[src].list, k).Some? && route(k) == to <==> k in Refused(events, src) && route(k) == to
  {
    WorkerTold(s, to, route, events, t, src);
    RunLedger(s, to, route, events, t, src);
  }

  /** Every PUT of the run came back as a success. */
  ghost predicate AllSucceed(events: seq<Event>) {
    forall e :: e in events && e.Send? ==> e.reported
  }

  lemma {:induction false} NothingFailed(events: seq<Event>, src: string)
    requires AllSucceed(events)
    ensures Refused(events, src) == {}
  {
    if events != [] {
      var n := |events| - 1;
      assert events[n] in events && AllSucceed(events[..n]);
      NothingFailed(events[..n], src);
    }
  }

  /** If all PUTs succeed, a finished source holds no key routed to the new node. */
  lemma SourceDrained(s: State, to: string, route: string -> string, events: seq<Event>, t: State, src: string,
                      k: string)
    requires Run(s, to, route, events, t) && AllSucceed(events) && src != to
    requires src in s.stores && Store(s.stores[src]) && src !in s.workers
    requires src in t.workers && Idle(t.workers[src])
    ensures src in t.stores && (Lookup(t.stores[src].list, k).Some? ==> route(k) != to)
  {
    FinishedSource(s, to, route, events, t, src, k);
    NothingFailed(events, src);
  }

  // ----- Where safety ends -----

  /** Sending a key and then deleting it locally keeps the key somewhere exactly when the source
      is not the new node itself, or a third store has a copy. */
  lemma TransferKeepsIff(stores: Stores, src: string, to: string, k: string)
    requires AllStores(stores) && src in stores && to in stores
    requires Lookup(stores[src].list, k).Some?
    ensures var sent := stores[to := Put(stores[to], k, Lookup(stores[src].list, k).value)];
            Stored(sent[src := Delete(sent[src], k)], k)
            <==> src != to || exists n :: n in stores && n != src && Lookup(stores[n].list, k).Some?
  {
    hide Put, Delete;
    var v := Lookup(stores[src].list, k).value;
    var sent := stores[to := Put(stores[to], k, v)];
    var after := sent[src := Delete(sent[src], k)];
    PutStore(stores[to], k, v);
    DeleteStore(sent[src], k);
    LookupDrop(sent[src].list, {k}, k);
    if src != to {
      assert to in after && Lookup(after[to].list, k).Some?;
    } else if n :| n in stores && n != src && Lookup(stores[n].list, k).Some? {
      assert n in after && Lookup(after[n].list, k).Some?;
    }
  }

  /** A process that migrates a key to itself, all PUTs succeeding, ends without it. */
  lemma SelfMigrationLoses(s: Lru, value: string)
    requires Store(s) && s.list == [Entry("k", value)] && value != ""
    ensures var start := State(map["n" := s], map[]);
            exists t :: Run(start, "n", key => "n", [Start("n"), Send("n", "k", true, true), DeleteLocal("n")], t)
                        && !Stored(t.stores, "k")
  {
    var route := (key: string) => "n";
    var a := State(map["n" := s], map["n" := Worker(Data(s), None, {}, 0)]);
    var start, send := State(map["n" := s], map[]), Send("n", "k", true, true);
    assert s.list[0] in s.list && Data(s) == map["k" := value];
    RunStart(map["n" := s], "n", route, "n");
    hide Run, Put, Delete, Data, Stored, Store, Enabled, Apply;
    SelfSteps(s, value, route);
    RunOn(start, "n", route, Start("n"), a, send, DeleteLocal("n"));
    SentAndDeleted(s, value);
  }

  lemma RunOn(s: State, to: string, route: string -> string, first: Event, a: State, second: Event, third: Event)
    requires Run(s, to, route, [first], a) && Enabled(a, to, route, second)
    requires Enabled(Apply(a, to, route, second), to, route, third)
    ensures Run(s, to, route, [first, second, third], Apply(Apply(a, to, route, second), to, route, third))
  {
    hide Run, Enabled, Apply;
    RunNext(s, to, route, [first], a, second);
    assert [first] + [second] == [first, second];
    RunNext(s, to, route, [first, second], Apply(a, to, route, second), third);
    assert [first, second] + [third] == [first, second, third];
  }

  lemma SelfSteps(s: Lru, value: string, route: string -> string)
    requires Data(s) == map["k" := value] && value != "" && route("k") == "n"
    ensures var a := State(map["n" := s], map["n" := Worker(Data(s), None, {}, 0)]);
            && Enabled(a, "n", route, Send("n", "k", true, true))
            && var b := Apply(a, "n", route, Send("n", "k", true, true));
               && Enabled(b, "n", route, DeleteLocal("n"))
               && Apply(b, "n", route, DeleteLocal("n")).stores == map["n" := Delete(Put(s, "k", value), "k")]
  {
    hide Put, Delete, Data;
  }

  lemma SentAndDeleted(s: Lru, value: string)
    requires Store(s)
    ensures !Stored(map["n" := Delete(Put(s, "k", value), "k")], "k")
  {
    hide Put, Delete;
    PutStore(s, "k", value);
    DeleteStore(Put(s, "k", value), "k");
    LookupDrop(Put(s, "k", value).list, {"k"}, "k");
  }

  /** With room at the target, a PUT leaves every pair of the target in place exactly when the target
      has no copy of the key or one that agrees: of copies that disagree the last sent wins. */
  lemma StaleCopyLost(stores: Stores, src: string, to: string, k: string)
    requires AllStores(stores) && src in stores && to in stores && src != to
    requires Lookup(stores[src].list, k).Some?
    requires Lookup(stores[to].list, k).Some? || |stores[to].list| < stores[to].capacity
    ensures var v := Lookup(stores[src].list, k).value;
            var sent := stores[to := Put(stores[to], k, v)];
            (forall x :: Lookup(stores[to].list, x).Some? ==> Lookup(sent[to].list, x) == Lookup(stores[to].list, x))
            <==> Lookup(stores[to].list, k) in {None, Some(v)}
  {
    hide Put;
    var v := Lookup(stores[src].list, k).value;
    forall x { PutRoom(stores[to], k, v, x); }
  }
}
