/** The write-back cache of tutorial/02-patterns/write_back.go: writes go to the cache and are marked
    dirty, the database hears of them when they are flushed. Seen from outside it is one map. */
module WriteBack {

  // ----- The state and the map it stands for -----

  datatype DirtyItem = DirtyItem(key: string, value: string, isDirty: bool)

  datatype State = State(cache: map<string, string>, db: map<string, string>, dirtyData: map<string, DirtyItem>)

  datatype Reply = Value(value: string) | NotFound | Done

  datatype Op = Get(key: string) | Set(key: string, value: string) | Delete(key: string) | Flush | AutoFlush

  const EMPTY := State(map[], map[], map[])

  /** The database overlaid by the dirty data. */
  function View(s: State): map<string, string> {
    s.db + map k | k in s.dirtyData && s.dirtyData[k].isDirty :: s.dirtyData[k].value
  }

  /** Nothing dirty was flushed and kept, dirty keys are cached, and the cache never disagrees. */
  ghost predicate Coherent(s: State) {
    && (forall k :: k in s.dirtyData ==> s.dirtyData[k].isDirty && s.dirtyData[k].key == k)
    && (forall k :: k in s.dirtyData ==> k in s.cache)
    && (forall k :: k in s.cache ==> k in View(s) && s.cache[k] == View(s)[k])
  }

  function Find(m: map<string, string>, key: string): Reply {
    if key in m then Value(m[key]) else NotFound
  }

  function Flushed(s: State): State {
    State(s.cache, View(s), map[])
  }

  function Apply(s: State, op: Op): (State, Reply) {
    match op
    case Get(k) =>
      if k in s.cache then (s, Value(s.cache[k]))
      else if k in s.db then (s.(cache := s.cache[k := s.db[k]]), Value(s.db[k]))
      else (s, NotFound)
    case Set(k, v) => (State(s.cache[k := v], s.db, s.dirtyData[k := DirtyItem(k, v, true)]), Done)
    case Delete(k) => (State(s.cache - {k}, s.db - {k}, s.dirtyData - {k}), Done)
    case Flush => (Flushed(s), Done)
    case AutoFlush => (Flushed(s), Done)
  }

  /** The same operation on a plain map. */
  function Plain(m: map<string, string>, op: Op): (map<string, string>, Reply) {
    match op
    case Get(k) => (m, Find(m, k))
    case Set(k, v) => (m[k := v], Done)
    case Delete(k) => (m - {k}, Done)
    case Flush => (m, Done)
    case AutoFlush => (m, Done)
  }

  // ----- Refinement -----

  /** `m` holds what `s` shows, key by key. */
  ghost predicate Shows(s: State, m: map<string, string>) {
    && (forall k :: k in m <==> (k in s.dirtyData && s.dirtyData[k].isDirty) || k in s.db)
    && (forall k :: k in m ==>
        m[k] == if k in s.dirtyData && s.dirtyData[k].isDirty then s.dirtyData[k].value else s.db[k])
  }

  lemma ViewShows(s: State)
    ensures Shows(s, View(s))
  {
  }

  lemma ShowsUnique(s: State, m: map<string, string>)
    requires Shows(s, m)
    ensures View(s) == m
  {
    ViewShows(s);
    hide View;
    assert forall k :: k in View(s) <==> k in m;
  }

  lemma GetRefines(s: State, k: string)
    requires Coherent(s)
    ensures var (after, reply) := Apply(s, Get(k));
            Coherent(after) && View(after) == View(s) && reply == Find(View(s), k)
  {
    ViewShows(s);
    hide View;
    var after := Apply(s, Get(k)).0;
    ShowsUnique(after, View(s));
  }

  lemma SetShows(s: State, k: string, v: string)
    ensures View(Apply(s, Set(k, v)).0) == View(s)[k := v]
  {
    ViewShows(s);
    hide View;
    ShowsUnique(Apply(s, Set(k, v)).0, View(s)[k := v]);
  }

  lemma SetRefines(s: State, k: string, v: string)
    requires Coherent(s)
    ensures var after := Apply(s, Set(k, v)).0; Coherent(after) && View(after) == View(s)[k := v]
  {
    SetShows(s, k, v);
    hide View;
  }

  lemma DeleteRefines(s: State, k: string)
    requires Coherent(s)
    ensures var after := Apply(s, Delete(k)).0; Coherent(after) && View(after) == View(s) - {k}
  {
    var after := Apply(s, Delete(k)).0;
    ViewShows(s);
    hide View;
    assert Shows(after, View(s) - {k}) by {
      hide Coherent;
    }
    ShowsUnique(after, View(s) - {k});
    hide Shows;
    assert Coherent(after);
  }

  lemma FlushRefines(s: State)
    requires Coherent(s)
    ensures Coherent(Flushed(s)) && View(Flushed(s)) == View(s)
  {
    ShowsUnique(Flushed(s), View(s));
    hide View;
  }

  lemma CleanView(s: State)
    requires s.dirtyData == map[]
    ensures View(s) == s.db && Flushed(s) == s
  {
    ShowsUnique(s, s.db);
  }

  lemma StepRefines(s: State, op: Op)
    requires Coherent(s)
    ensures Coherent(Apply(s, op).0)
    ensures View(Apply(s, op).0) == Plain(View(s), op).0 && Apply(s, op).1 == Plain(View(s), op).1
  {
    hide View, Coherent;
    match op {
      case Get(k) => GetRefines(s, k);
      case Set(k, v) => SetRefines(s, k, v);
      case Delete(k) => DeleteRefines(s, k);
      case Flush => FlushRefines(s);
      case AutoFlush => FlushRefines(s);
    }
  }

  function Run(s: State, ops: seq<Op>): (State, seq<Reply>) {
    if ops == [] then (s, [])
    else
      var front := Run(s, ops[..|ops| - 1]);
      var step := Apply(front.0, ops[|ops| - 1]);
      (step.0, front.1 + [step.1])
  }

  function RunPlain(m: map<string, string>, ops: seq<Op>): (map<string, string>, seq<Reply>) {
    if ops == [] then (m, [])
    else
      var front := RunPlain(m, ops[..|ops| - 1]);
      var step := Plain(front.0, ops[|ops| - 1]);
      (step.0, front.1 + [step.1])
  }

  /** No sequence of calls can tell the cache from a plain map, whenever the background flush runs. */
  lemma {:induction false} RunRefines(s: State, ops: seq<Op>)
    requires Coherent(s)
    ensures Coherent(Run(s, ops).0)
    ensures View(Run(s, ops).0) == RunPlain(View(s), ops).0
    ensures Run(s, ops).1 == RunPlain(View(s), ops).1
  {
    if ops != [] {
      RunRefines(s, ops[..|ops| - 1]);
      StepRefines(Run(s, ops[..|ops| - 1]).0, ops[|ops| - 1]);
    }
  }

  /** A run that ends in a flush leaves in the database what a plain map would hold. */
  lemma FlushCommits(ops: seq<Op>)
    ensures Run(EMPTY, ops + [Flush]).0.db == RunPlain(map[], ops).0
    ensures Run(EMPTY, ops + [Flush]).0.dirtyData == map[]
  {
    assert (ops + [Flush])[..|ops|] == ops;
    assert View(EMPTY) == map[];
    RunRefines(EMPTY, ops);
  }

  /** What a stop without a flush loses: a key survives in the database exactly when it is not dirty
      or the database has that very value already. */
  lemma UnflushedLostIff(s: State, k: string)
    requires Coherent(s)
    ensures Find(s.db, k) == Find(View(s), k)
            <==> k in s.dirtyData ==> k in s.db && s.db[k] == s.dirtyData[k].value
  {
  }

  /** The keys deleted along the way. */
  function Deleted(ops: seq<Op>): set<string> {
    set op | op in ops && op.Delete? :: op.key
  }

  ghost predicate NoFlush(ops: seq<Op>) {
    forall op :: op in ops ==> !op.Flush? && !op.AutoFlush?
  }

  lemma {:induction false} UnflushedDatabase(s: State, ops: seq<Op>)
    requires NoFlush(ops)
    ensures Run(s, ops).0.db == s.db - Deleted(ops)
  {
    if ops != [] {
      var n := |ops| - 1;
      assert forall op :: op in ops <==> op in ops[..n] || op == ops[n];
      UnflushedDatabase(s, ops[..n]);
    }
  }

  lemma {:induction false} RunSplit(s: State, a: seq<Op>, b: seq<Op>)
    ensures Run(s, a + b).0 == Run(Run(s, a).0, b).0
  {
    if b == [] {
      assert a + b == a;
    } else {
      assert (a + b)[..|a + b| - 1] == a + b[..|b| - 1];
      RunSplit(s, a, b[..|b| - 1]);
    }
  }

  /** What a stop without Close leaves in the database: the map as of the last flush, less whatever
      was deleted since. Of the Sets since then nothing survives. */
  lemma StopKeeps(before: seq<Op>, since: seq<Op>)
    requires NoFlush(since)
    ensures Run(EMPTY, before + [Flush] + since).0.db == RunPlain(map[], before).0 - Deleted(since)
  {
    RunSplit(EMPTY, before + [Flush], since);
    FlushCommits(before);
    UnflushedDatabase(Run(EMPTY, before + [Flush]).0, since);
  }

  // ----- The flush loop -----

  /** The items no longer pending have reached the database. */
  ghost predicate Written(db: map<string, string>, before: map<string, string>, items: map<string, DirtyItem>,
                          pending: set<string>)
  {
    && (forall k :: k in db <==> k in before || (k in items && k !in pending))
    && (forall k :: k in db ==> db[k] == if k in items && k !in pending then items[k].value else before[k])
  }

  lemma WrittenNone(before: map<string, string>, items: map<string, DirtyItem>)
    ensures Written(before, before, items, items.Keys)
  {
  }

  lemma WrittenNext(db: map<string, string>, before: map<string, string>, items: map<string, DirtyItem>,
                    pending: set<string>, k: string)
    requires Written(db, before, items, pending) && k in items
    ensures Written(db[k := items[k].value], before, items, pending - {k})
  {
  }

  lemma WrittenAll(s: State, db: map<string, string>)
    requires Written(db, s.db, s.dirtyData, {}) && forall k :: k in s.dirtyData ==> s.dirtyData[k].isDirty
    ensures db == View(s)
  {
    ShowsUnique(s, db);
  }

  // ----- The cache object -----

  class WriteBackCache {
    var cache: map<string, string>
    var db: map<string, string>
    var dirtyData: map<string, DirtyItem>
    var closed: bool

    ghost function Current(): State
      reads this
    {
      State(cache, db, dirtyData)
    }

    ghost predicate Valid()
      reads this
    {
      Coherent(Current())
    }

    constructor ()
      ensures Valid() && Current() == EMPTY && !closed
    {
      cache, db, dirtyData, closed := map[], map[], map[], false;
    }

    method Get(key: string) returns (reply: Reply)
      requires Valid()
      modifies `cache
      ensures Valid()
      ensures (Current(), reply) == Apply(old(Current()), Op.Get(key))
      ensures View(Current()) == old(View(Current())) && reply == Find(View(Current()), key)
    {
      StepRefines(Current(), Op.Get(key));
      if key in cache {
        return Value(cache[key]);
      }
      if key !in db {
        return NotFound;
      }
      var value := db[key];
      cache := cache[key := value];
      return Value(value);
    }

    method Set(key: string, value: string)
      requires Valid()
      modifies `cache, `dirtyData
      ensures Valid()
      ensures Current() == Apply(old(Current()), Op.Set(key, value)).0
      ensures View(Current()) == old(View(Current()))[key := value]
    {
      StepRefines(Current(), Op.Set(key, value));
      cache := cache[key := value];
      dirtyData := dirtyData[key := DirtyItem(key, value, true)];
    }

    method Delete(key: string)
      requires Valid()
      modifies `cache, `db, `dirtyData
      ensures Valid()
      ensures Current() == Apply(old(Current()), Op.Delete(key)).0
      ensures View(Current()) == old(View(Current())) - {key}
    {
      StepRefines(Current(), Op.Delete(key));
      cache := cache - {key};
      dirtyData := dirtyData - {key};
      db := db - {key};
    }

    /** The loop both flushes share: in any order, a dirty item is written and its flag cleared. */
    method WriteDirty()
      requires Valid()
      modifies `db, `dirtyData
      ensures db == old(View(Current()))
      ensures dirtyData.Keys == old(dirtyData.Keys)
    {
      ghost var was := Current();
      ghost var before, items := db, dirtyData;
      hide View, Written;
      WrittenNone(before, items);
      var pending := dirtyData.Keys;
      while pending != {}
        invariant pending <= dirtyData.Keys == items.Keys
        invariant forall k :: k in pending ==> dirtyData[k] == items[k]
        invariant Written(db, before, items, pending)
      {
        var key :| key in pending;
        var item := dirtyData[key];
        if item.isDirty {
          WrittenNext(db, before, items, pending, key);
          db := db[key := item.value];
          dirtyData := dirtyData[key := item.(isDirty := false)];
        }
        pending := pending - {key};
      }
      WrittenAll(was, db);
    }

    method Flush()
      requires Valid()
      modifies `db, `dirtyData
      ensures Valid()
      ensures Current() == Apply(old(Current()), Op.Flush).0
      ensures View(Current()) == old(View(Current())) == db && dirtyData == map[]
    {
      hide View, Coherent;
      FlushRefines(Current());
      if |dirtyData| == 0 {
        CleanView(Current());
        return;
      }
      WriteDirty();
      dirtyData := map[];
    }

    method AutoFlush()
      requires Valid()
      modifies `db, `dirtyData
      ensures Valid()
      ensures Current() == Apply(old(Current()), Op.AutoFlush).0
      ensures View(Current()) == old(View(Current())) == db && dirtyData == map[]
    {
      hide View, Coherent;
      FlushRefines(Current());
      if |dirtyData| == 0 {
        CleanView(Current());
        return;
      }
      WriteDirty();
      dirtyData := map[];
    }

    /** The number of keys whose latest value the database has not been told. */
    method GetDirtyCount() returns (count: nat)
      requires Valid()
      ensures count == |dirtyData|
    {
      count := 0;
      var pending := dirtyData.Keys;
      while pending != {}
        invariant pending <= dirtyData.Keys
        invariant count + |pending| == |dirtyData|
      {
        var key :| key in pending;
        if dirtyData[key].isDirty {
          count := count + 1;
        }
        pending := pending - {key};
      }
    }

    /** Closing flushes. A second call closes a closed channel and panics. */
    method Close()
      requires Valid() && !closed
      modifies `db, `dirtyData, `closed
      ensures Valid() && closed
      ensures View(Current()) == old(View(Current())) == db && dirtyData == map[]
    {
      Flush();
      closed := true;
    }
  }
}
