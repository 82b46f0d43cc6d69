/** Get of tutorial/02-patterns/write_back.go takes no lock around its three accesses: it looks in the
    cache, reads the database and fills the cache, while Set, Delete and the flushes hold the lock. */
module WriteBackRaces {
  import opened WriteBack

  type Reader = nat

  /** A Get that missed the cache, and what it has read from the database since. */
  datatype Flight = Looked(key: string) | Fetched(key: string, value: string)

  datatype Async = Async(s: State, flights: map<Reader, Flight>)

  datatype Step = Call(op: Op) | Look(reader: Reader, key: string) | Read(reader: Reader) | Fill(reader: Reader)

  /** The database may hold data before the cache is put in front of it. */
  function Start(db: map<string, string>): Async {
    Async(State(map[], db, map[]), map[])
  }

  predicate Enabled(a: Async, step: Step) {
    match step
    case Call(op) => !op.Get?
    case Look(r, _) => r !in a.flights
    case Read(r) => r in a.flights && a.flights[r].Looked?
    case Fill(r) => r in a.flights && a.flights[r].Fetched?
  }

  /** A hit answers at once, and so does a key the database does not have. */
  function Next(a: Async, step: Step): (Async, Reply)
    requires Enabled(a, step)
  {
    match step
    case Call(op) => (a.(s := Apply(a.s, op).0), Apply(a.s, op).1)
    case Look(r, k) =>
      if k in a.s.cache then (a, Value(a.s.cache[k])) else (a.(flights := a.flights[r := Looked(k)]), Done)
    case Read(r) =>
      var k := a.flights[r].key;
      if k in a.s.db then (a.(flights := a.flights[r := Fetched(k, a.s.db[k])]), Done)
      else (a.(flights := a.flights - {r}), NotFound)
    case Fill(r) =>
      var f := a.flights[r];
      (Async(a.s.(cache := a.s.cache[f.key := f.value]), a.flights - {r}), Value(f.value))
  }

  predicate Runs(db: map<string, string>, steps: seq<Step>)
    decreases |steps|, 0
  {
    steps == [] ||
    (var n := |steps| - 1; Runs(db, steps[..n]) && Enabled(After(db, steps[..n]), steps[n]))
  }

  function After(db: map<string, string>, steps: seq<Step>): Async
    requires Runs(db, steps)
    decreases |steps|, 1
  {
    if steps == [] then Start(db)
    else var n := |steps| - 1; Next(After(db, steps[..n]), steps[n]).0
  }

  // ----- What happened to a key since a reader looked -----

  datatype Change = Untouched | SetTo(value: string) | Removed

  /** The latest Set or Delete of `key` since reader `r` last looked. */
  function Since(steps: seq<Step>, r: Reader, key: string): Change {
    if steps == [] then Untouched
    else
      var front := steps[..|steps| - 1];
      match steps[|steps| - 1]
      case Look(q, _) => if q == r then Untouched else Since(front, r, key)
      case Call(Set(k, v)) => if k == key then SetTo(v) else Since(front, r, key)
      case Call(Delete(k)) => if k == key then Removed else Since(front, r, key)
      case _ => Since(front, r, key)
  }

  /** Writes since the reader looked left the value it read in place. */
  predicate Harmless(change: Change, value: string) {
    change.Untouched? || change == SetTo(value)
  }

  // ----- What every run keeps, coherent or not -----

  /** Dirty items are dirty, and cached under their key. */
  ghost predicate Tidy(s: State) {
    forall k :: k in s.dirtyData ==> s.dirtyData[k].isDirty && s.dirtyData[k].key == k && k in s.cache
  }

  /** What the log says of the key is what the cache and database show. */
  ghost predicate Tracks(s: State, f: Flight, change: Change) {
    match change
    case SetTo(v) => f.key in View(s) && View(s)[f.key] == v
    case Removed => f.key !in View(s)
    case Untouched => f.key !in s.dirtyData && (f.Fetched? ==> f.key in s.db && s.db[f.key] == f.value)
  }

  ghost predicate Tracked(db: map<string, string>, steps: seq<Step>)
    requires Runs(db, steps)
  {
    var a := After(db, steps);
    Tidy(a.s) && forall r :: r in a.flights ==> Tracks(a.s, a.flights[r], Since(steps, r, a.flights[r].key))
  }

  lemma CallTidy(s: State, op: Op)
    requires Tidy(s)
    ensures Tidy(Apply(s, op).0)
  {
  }

  /** A locked operation moves on the log and the state alike. */
  lemma CallTracks(s: State, op: Op, f: Flight, change: Change)
    requires Tidy(s) && Tracks(s, f, change) && !op.Get?
    ensures Tracks(Apply(s, op).0, f,
                   match op
                   case Set(k, v) => if k == f.key then SetTo(v) else change
                   case Delete(k) => if k == f.key then Removed else change
                   case _ => change)
  {
    var after := Apply(s, op).0;
    ViewShows(s);
    ViewShows(after);
    hide View;
  }

  lemma {:induction false} RunTracked(db: map<string, string>, steps: seq<Step>)
    requires Runs(db, steps)
    ensures Tracked(db, steps)
  {
    if steps != [] {
      var n := |steps| - 1;
      RunTracked(db, steps[..n]);
      StepTracked(db, steps);
    }
  }

  lemma StepTracked(db: map<string, string>, steps: seq<Step>)
    requires Runs(db, steps) && steps != [] && Tracked(db, steps[..|steps| - 1])
    ensures Tracked(db, steps)
  {
    var n := |steps| - 1;
    var a, b := After(db, steps[..n]), After(db, steps);
    if steps[n].Call? {
      CallTidy(a.s, steps[n].op);
    }
    forall r | r in b.flights ensures Tracks(b.s, b.flights[r], Since(steps, r, b.flights[r].key)) {
      match steps[n]
      case Call(op) => CallTracks(a.s, op, a.flights[r], Since(steps[..n], r, a.flights[r].key));
      case Look(q, k) =>
      case Read(q) => ReadTracks(a.s, a.flights[r], Since(steps[..n], r, a.flights[r].key));
      case Fill(q) => FillView(a.s, a.flights[q].key, a.flights[q].value);
    }
  }

  lemma ReadTracks(s: State, f: Flight, change: Change)
    requires Tracks(s, f, change)
    ensures f.key in s.db ==> Tracks(s, Fetched(f.key, s.db[f.key]), change)
  {
  }

  lemma FillView(s: State, k: string, v: string)
    ensures View(s.(cache := s.cache[k := v])) == View(s)
  {
  }

  // ----- Exactly when Get keeps the cache coherent -----

  /** Filling late is harmless exactly when the latest Set or Delete since the lookup, if any, left the
      value in place that the Get has read. */
  lemma LateFillIff(s: State, f: Flight, change: Change)
    requires Coherent(s) && f.Fetched? && Tracks(s, f, change)
    ensures Coherent(s.(cache := s.cache[f.key := f.value])) <==> Harmless(change, f.value)
  {
    var after := s.(cache := s.cache[f.key := f.value]);
    FillView(s, f.key, f.value);
    ViewShows(s);
    hide View;
    if Coherent(after) {
      assert f.key in after.cache;
    }
  }

  ghost predicate CoherentAt(db: map<string, string>, steps: seq<Step>, i: nat)
    requires Runs(db, steps) && i <= |steps|
  {
    RunsPrefix(db, steps, i);
    Coherent(After(db, steps[..i]).s)
  }

  /** The fill at step `i`, if it is one, was harmless. */
  ghost predicate HarmlessAt(db: map<string, string>, steps: seq<Step>, i: nat)
    requires Runs(db, steps) && i < |steps|
  {
    RunsPrefix(db, steps, i + 1);
    assert steps[..i + 1][..i] == steps[..i];
    steps[i].Fill? ==>
      var f := After(db, steps[..i]).flights[steps[i].reader];
      Harmless(Since(steps[..i], steps[i].reader, f.key), f.value)
  }

  lemma {:induction false} RunsPrefix(db: map<string, string>, steps: seq<Step>, i: nat)
    requires Runs(db, steps) && i <= |steps|
    ensures Runs(db, steps[..i])
  {
    if i < |steps| {
      RunsPrefix(db, steps[..|steps| - 1], i);
      assert steps[..|steps| - 1][..i] == steps[..i];
    } else {
      assert steps[..i] == steps;
    }
  }

  /** From a coherent state a step leads to a coherent state exactly when it is no harmful fill. */
  lemma StepCoherentIff(db: map<string, string>, steps: seq<Step>, i: nat)
    requires Runs(db, steps) && i < |steps| && CoherentAt(db, steps, i)
    ensures CoherentAt(db, steps, i + 1) <==> HarmlessAt(db, steps, i)
  {
    RunsPrefix(db, steps, i);
    RunsPrefix(db, steps, i + 1);
    assert steps[..i + 1][..i] == steps[..i];
    var a := After(db, steps[..i]);
    RunTracked(db, steps[..i]);
    hide Coherent, View;
    match steps[i]
    case Call(op) => StepRefines(a.s, op);
    case Look(r, k) =>
    case Read(r) =>
    case Fill(r) => LateFillIff(a.s, a.flights[r], Since(steps[..i], r, a.flights[r].key));
  }

  /** Over whole runs: the cache agrees with the overlaid database all along exactly when at each fill
      the latest Set or Delete of the key since the Get looked, if any, left the value it had read. */
  lemma {:induction false} CoherentIff(db: map<string, string>, steps: seq<Step>)
    requires Runs(db, steps)
    ensures (forall i :: 0 <= i <= |steps| ==> CoherentAt(db, steps, i))
            <==> forall i :: 0 <= i < |steps| ==> HarmlessAt(db, steps, i)
  {
    hide CoherentAt, HarmlessAt;
    if forall i :: 0 <= i <= |steps| ==> CoherentAt(db, steps, i) {
      forall i | 0 <= i < |steps| ensures HarmlessAt(db, steps, i) {
        StepCoherentIff(db, steps, i);
      }
    } else if forall i :: 0 <= i < |steps| ==> HarmlessAt(db, steps, i) {
      forall i | 0 <= i <= |steps| ensures CoherentAt(db, steps, i) {
        HarmlessSoFar(db, steps, i);
      }
    }
  }

  lemma {:induction false} HarmlessSoFar(db: map<string, string>, steps: seq<Step>, i: nat)
    requires Runs(db, steps) && i <= |steps|
    requires forall j :: 0 <= j < i ==> HarmlessAt(db, steps, j)
    ensures CoherentAt(db, steps, i)
  {
    if i == 0 {
      assert steps[..0] == [];
    } else {
      hide CoherentAt, HarmlessAt;
      HarmlessSoFar(db, steps, i - 1);
      StepCoherentIff(db, steps, i - 1);
    }
  }

  // ----- Runs that go wrong -----

  lemma RunsNext(db: map<string, string>, steps: seq<Step>, step: Step)
    requires Runs(db, steps) && Enabled(After(db, steps), step)
    ensures Runs(db, steps + [step]) && After(db, steps + [step]) == Next(After(db, steps), step).0
  {
    assert (steps + [step])[..|steps|] == steps;
  }

  /** A reader looks and reads "v", the key is set to "w", the reader fills: the next Get answers "v". */
  lemma StaleAfterSet()
    ensures var db := map["k" := "v"];
            var steps := [Look(0, "k"), Read(0), Call(Set("k", "w")), Fill(0)];
            && Runs(db, steps) && Find(View(After(db, steps).s), "k") == Value("w")
            && Enabled(After(db, steps), Look(1, "k"))
            && Next(After(db, steps), Look(1, "k")).1 == Value("v")
  {
    var db := map["k" := "v"];
    RunsNext(db, [], Look(0, "k"));
    assert [] + [Look(0, "k")] == [Look(0, "k")];
    RunsNext(db, [Look(0, "k")], Read(0));
    assert [Look(0, "k")] + [Read(0)] == [Look(0, "k"), Read(0)];
    hide Runs, After;
    RunsNext(db, [Look(0, "k"), Read(0)], Call(Set("k", "w")));
    assert [Look(0, "k"), Read(0)] + [Call(Set("k", "w"))] == [Look(0, "k"), Read(0), Call(Set("k", "w"))];
    RunsNext(db, [Look(0, "k"), Read(0), Call(Set("k", "w"))], Fill(0));
    assert [Look(0, "k"), Read(0), Call(Set("k", "w"))] + [Fill(0)]
        == [Look(0, "k"), Read(0), Call(Set("k", "w")), Fill(0)];
  }

  /** The database need not hold anything at first: the look then comes before the first Set, the read
      after a flush. */
  lemma StaleFromEmpty()
    ensures var steps := [Look(0, "k"), Call(Set("k", "v")), Call(Flush), Read(0), Call(Set("k", "w")), Fill(0)];
            && Runs(map[], steps) && Find(View(After(map[], steps).s), "k") == Value("w")
            && Enabled(After(map[], steps), Look(1, "k"))
            && Next(After(map[], steps), Look(1, "k")).1 == Value("v")
  {
    var s0, s1: seq<Step> := [Look(0, "k")], [Look(0, "k"), Call(Set("k", "v"))];
    var s2, s3 := s1 + [Call(Flush)], s1 + [Call(Flush)] + [Read(0)];
    RunsNext(map[], [], Look(0, "k"));
    assert [] + [Look(0, "k")] == s0;
    RunsNext(map[], s0, Call(Set("k", "v")));
    assert s0 + [Call(Set("k", "v"))] == s1;
    hide Runs, After;
    assert View(After(map[], s1).s) == map["k" := "v"];
    RunsNext(map[], s1, Call(Flush));
    RunsNext(map[], s2, Read(0));
    RunsNext(map[], s3, Call(Set("k", "w")));
    RunsNext(map[], s3 + [Call(Set("k", "w"))], Fill(0));
    assert s3 + [Call(Set("k", "w"))] + [Fill(0)]
        == [Look(0, "k"), Call(Set("k", "v")), Call(Flush), Read(0), Call(Set("k", "w")), Fill(0)];
  }
}
