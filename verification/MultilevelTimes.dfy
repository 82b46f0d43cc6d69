/** How long the two-level cache may answer what the database no longer holds. Writes to the database
    behind the cache's back come between the calls, and the entries of both levels are told from
    what a client of the cache sees: the replies and the hit counters. */
module MultilevelTimes {
  import opened Wrappers
  import opened Multilevel

  // ----- Runs with direct writes -----

  datatype Action = Call(event: Event) | Behind(key: string, value: string, now: Time)

  function Act(c: Config, s: State, a: Action): (State, Option<string>) {
    match a
    case Call(e) => Apply(c, s, e)
    case Behind(k, v, _) => (s.(db := s.db[k := v]), None)
  }

  function Play(c: Config, s: State, actions: seq<Action>): State {
    if actions == [] then s else Act(c, Play(c, s, actions[..|actions| - 1]), actions[|actions| - 1]).0
  }

  /** What the database holds after these actions. */
  function Stored(db: map<string, string>, actions: seq<Action>): map<string, string> {
    if actions == [] then db
    else
      var before := Stored(db, actions[..|actions| - 1]);
      match actions[|actions| - 1]
      case Call(e) => if e.Set? then before[e.key := e.value] else before
      case Behind(k, v, _) => before[k := v]
  }

  lemma ActStores(c: Config, s: State, a: Action)
    requires Off(c, s)
    ensures Off(c, Act(c, s, a).0)
    ensures Act(c, s, a).0.db == match a
              case Call(e) => if e.Set? then s.db[e.key := e.value] else s.db
              case Behind(k, v, _) => s.db[k := v]
  {
  }

  lemma {:induction false} PlayStores(c: Config, db: map<string, string>, actions: seq<Action>)
    ensures Play(c, Empty(db), actions).db == Stored(db, actions) && Off(c, Play(c, Empty(db), actions))
  {
    if actions != [] {
      PlayStores(c, db, actions[..|actions| - 1]);
      ActStores(c, Play(c, Empty(db), actions[..|actions| - 1]), actions[|actions| - 1]);
      hide Act, Off;
    }
  }

  // ----- What a client sees -----

  datatype Source = Local | Shared | Base | Nowhere

  /** Where an answer came from, by the counter that went up. */
  function Answerer(before: Metrics, after: Metrics): Source {
    if after.l1Hits > before.l1Hits then Local
    else if after.l2Hits > before.l2Hits then Shared
    else if after.databaseHits > before.databaseHits then Base
    else Nowhere
  }

  datatype Fill = Fill(value: string, at: Time)

  /** What was seen of a key: the last time each level was filled with it, the last time it was used,
      and the local hits since the local level was filled. */
  datatype Past = Past(first: Option<Fill>, second: Option<Fill>, used: Time, hits: nat)

  function Learn(c: Config, p: Past, a: Action, from: Source, reply: Option<string>, k: string): Past {
    match a
    case Call(Get(key, now, _)) =>
      if key != k || reply.None? then p
      else
        var fill := Some(Fill(reply.value, now));
        (match from
         case Local => p.(used := now, hits := p.hits + 1)
         case Shared => Past(fill, p.second, now, 0)
         case _ => Past(fill, fill, now, 0))
    case Call(Set(key, value, now, _)) =>
      if key != k || !c.writeThrough then p else Past(Some(Fill(value, now)), Some(Fill(value, now)), now, 0)
    case _ => p
  }

  function History(c: Config, s: State, actions: seq<Action>, k: string): Past {
    if actions == [] then Past(None, None, 0, 0)
    else
      var front, a := actions[..|actions| - 1], actions[|actions| - 1];
      var before := Play(c, s, front);
      var (after, reply) := Act(c, before, a);
      Learn(c, History(c, s, front, k), a, Answerer(before.metrics, after.metrics), reply, k)
  }

  // ----- What the levels hold -----

  /** A cached copy is the one last filled in, and expires one lifetime of its own level later. */
  ghost predicate Told(c: Config, s: State, p: Past, k: string) {
    && (k in s.l1 ==>
          p.first.Some? && s.l1[k] == LocalItem(p.first.value.value, p.first.value.at + c.l1TTL, p.hits, p.used))
    && (k in s.l2 ==>
          p.second.Some? && s.l2[k] == SharedItem(p.second.value.value, p.second.value.at + c.l2TTL, p.second.value.at))
  }

  lemma FillEntries(c: Config, s: State, key: string, value: string, now: Time, victim: string, k: string)
    requires Off(c, s)
    ensures var filled := Fill1(c, s, key, value, now, victim);
            && filled.l2 == s.l2 && filled.db == s.db && filled.metrics == s.metrics && Off(c, filled)
            && (k in filled.l1 ==> if k == key then filled.l1[k] == LocalItem(value, now + c.l1TTL, 0, now)
                                   else k in s.l1 && filled.l1[k] == s.l1[k])
    ensures var filled := Fill2(c, s, key, value, now);
            && filled.l1 == s.l1 && filled.db == s.db && filled.metrics == s.metrics && Off(c, filled)
            && (k in filled.l2 ==> if k == key then filled.l2[k] == SharedItem(value, now + c.l2TTL, now)
                                   else k in s.l2 && filled.l2[k] == s.l2[k])
  {
  }

  /** The three ways a Get is answered, and the one in which it is not. */
  lemma ReadBy(c: Config, s: State, key: string, now: Time, victim: string)
    ensures var m := s.metrics.(totalRequests := s.metrics.totalRequests + 1);
            var (after, reply) := Read(c, s, key, now, victim);
            match Answerer(s.metrics, after.metrics)
            case Local => c.enableL1 && reply.Some? && reply == Look1(s.l1, key, now)
              && after == s.(l1 := Touch(s.l1, key, now), metrics := m.(l1Hits := m.l1Hits + 1))
            case Shared => c.enableL2 && reply.Some? && reply == Look2(s.l2, key, now)
              && (c.enableL1 ==> Look1(s.l1, key, now).None?)
              && after == Fill1(c, s.(metrics := m.(l2Hits := m.l2Hits + 1)), key, reply.value, now, victim)
            case Base => key in s.db && reply == Some(s.db[key])
              && (c.enableL1 ==> Look1(s.l1, key, now).None?) && (c.enableL2 ==> Look2(s.l2, key, now).None?)
              && after == Fill1(c, Fill2(c, s.(metrics := m.(databaseHits := m.databaseHits + 1)), key, s.db[key], now),
                                key, s.db[key], now, victim)
            case Nowhere => reply == None && key !in s.db && after == s.(metrics := m)
  {
    hide Look1, Look2, Touch, Put1;
  }

  lemma ReadTold(c: Config, s: State, p: Past, key: string, now: Time, victim: string, k: string)
    requires Off(c, s) && Told(c, s, p, k)
    ensures var (after, reply) := Read(c, s, key, now, victim);
            Told(c, after, Learn(c, p, Call(Get(key, now, victim)), Answerer(s.metrics, after.metrics), reply, k), k)
  {
    ReadBy(c, s, key, now, victim);
    hide Read, Fill1, Fill2, Answerer;
    var m := s.metrics.(totalRequests := s.metrics.totalRequests + 1);
    var value := Read(c, s, key, now, victim).1;
    if value.Some? {
      FillEntries(c, s.(metrics := m.(l2Hits := m.l2Hits + 1)), key, value.value, now, victim, k);
      var counted := s.(metrics := m.(databaseHits := m.databaseHits + 1));
      FillEntries(c, counted, key, value.value, now, victim, k);
      FillEntries(c, Fill2(c, counted, key, value.value, now), key, value.value, now, victim, k);
    }
  }

  lemma WriteTold(c: Config, s: State, p: Past, key: string, value: string, now: Time, victim: string, k: string)
    requires Off(c, s) && Told(c, s, p, k)
    ensures Told(c, Write(c, s, key, value, now, victim),
                 Learn(c, p, Call(Set(key, value, now, victim)), Nowhere, None, k), k)
  {
    hide Fill1, Fill2;
    var stored := s.(db := s.db[key := value]);
    FillEntries(c, stored, key, value, now, victim, k);
    FillEntries(c, Fill2(c, stored, key, value, now), key, value, now, victim, k);
  }

  lemma ActTold(c: Config, s: State, p: Past, a: Action, k: string)
    requires Off(c, s) && Told(c, s, p, k)
    ensures var (after, reply) := Act(c, s, a);
            Told(c, after, Learn(c, p, a, Answerer(s.metrics, after.metrics), reply, k), k)
  {
    hide Read, Write, Off;
    match a {
      case Call(Get(key, now, victim)) => ReadTold(c, s, p, key, now, victim, k);
      case Call(Set(key, value, now, victim)) => WriteTold(c, s, p, key, value, now, victim, k);
      case _ =>
    }
  }

  lemma {:induction false} EntriesTold(c: Config, db: map<string, string>, actions: seq<Action>, k: string)
    ensures Told(c, Play(c, Empty(db), actions), History(c, Empty(db), actions, k), k)
  {
    if actions != [] {
      var front := actions[..|actions| - 1];
      PlayStores(c, db, front);
      EntriesTold(c, db, front, k);
      hide Told, Off, Act, Learn, Answerer;
      ActTold(c, Play(c, Empty(db), front), History(c, Empty(db), front, k), actions[|actions| - 1], k);
    }
  }

  /** Whichever level answers, it answers what it was last filled with and not after its own lifetime; if
      none does, the database answers, or nobody has the key. */
  lemma AnsweredFrom(c: Config, db: map<string, string>, actions: seq<Action>, k: string, now: Time, victim: string)
    ensures var s := Play(c, Empty(db), actions); var p := History(c, Empty(db), actions, k);
            var (after, reply) := Act(c, s, Call(Get(k, now, victim)));
            match Answerer(s.metrics, after.metrics)
            case Local => p.first.Some? && reply == Some(p.first.value.value) && now <= p.first.value.at + c.l1TTL
            case Shared => p.second.Some? && reply == Some(p.second.value.value) && now <= p.second.value.at + c.l2TTL
            case Base => reply.Some? && reply == Find(Stored(db, actions), k)
            case Nowhere => reply.None? && k !in Stored(db, actions)
  {
    EntriesTold(c, db, actions, k);
    PlayStores(c, db, actions);
    hide Play, History, Stored;
  }

  /** A Get later than the last filling of each level by more than that level's lifetime answers what the
      database holds, however it got there. */
  lemma SeenAfterFills(c: Config, db: map<string, string>, actions: seq<Action>, k: string, now: Time, victim: string)
    requires var p := History(c, Empty(db), actions, k);
             && (c.enableL1 && p.first.Some? ==> now > p.first.value.at + c.l1TTL)
             && (c.enableL2 && p.second.Some? ==> now > p.second.value.at + c.l2TTL)
    ensures Act(c, Play(c, Empty(db), actions), Call(Get(k, now, victim))).1 == Find(Stored(db, actions), k)
  {
    EntriesTold(c, db, actions, k);
    PlayStores(c, db, actions);
    hide Play, History, Stored;
  }

  // ----- How stale an answer can be -----

  function Lifetime(ttl: int): nat {
    if ttl > 0 then ttl else 0
  }

  function Lifetime2(c: Config): nat {
    if c.enableL2 then Lifetime(c.l2TTL) else 0
  }

  /** A copy that reached the local level from the shared one may be as old as both lifetimes together. */
  function Bound(c: Config): nat {
    Lifetime2(c) + if c.enableL1 then Lifetime(c.l1TTL) else 0
  }

  /** No call before was later than `w`. */
  ghost predicate AllBefore(actions: seq<Action>, w: Time) {
    forall a :: a in actions && a.Call? && (a.event.Get? || a.event.Set?) ==> a.event.now <= w
  }

  ghost predicate Rewrites(a: Action, k: string) {
    match a
    case Call(e) => e.Set? && e.key == k
    case Behind(key, _, _) => key == k
  }

  /** The database has the value, and whatever copy differs from it expires within the bound. */
  ghost predicate Bounded(c: Config, s: State, k: string, v: string, w: Time) {
    && Off(c, s) && Find(s.db, k) == Some(v)
    && (k in s.l1 && s.l1[k].value != v ==> s.l1[k].expiresAt <= w + Bound(c))
    && (k in s.l2 && s.l2[k].value != v ==> s.l2[k].expiresAt <= w + Lifetime2(c))
  }

  lemma {:induction false} PastBefore(c: Config, s: State, actions: seq<Action>, k: string, w: Time)
    requires AllBefore(actions, w)
    ensures var p := History(c, s, actions, k);
            (p.first.Some? ==> p.first.value.at <= w) && (p.second.Some? ==> p.second.value.at <= w)
  {
    if actions != [] {
      PastBefore(c, s, actions[..|actions| - 1], k, w);
      assert actions[|actions| - 1] in actions;
      hide Act, Answerer, Play;
    }
  }

  lemma ReadBounded(c: Config, s: State, key: string, now: Time, victim: string, k: string, v: string, w: Time)
    requires Bounded(c, s, k, v, w)
    ensures Bounded(c, Read(c, s, key, now, victim).0, k, v, w)
  {
    ReadBy(c, s, key, now, victim);
    hide Read, Fill1, Fill2, Answerer;
    var m := s.metrics.(totalRequests := s.metrics.totalRequests + 1);
    var value := Read(c, s, key, now, victim).1;
    if value.Some? {
      FillEntries(c, s.(metrics := m.(l2Hits := m.l2Hits + 1)), key, value.value, now, victim, k);
      var counted := s.(metrics := m.(databaseHits := m.databaseHits + 1));
      FillEntries(c, counted, key, value.value, now, victim, k);
      FillEntries(c, Fill2(c, counted, key, value.value, now), key, value.value, now, victim, k);
    }
  }

  lemma WriteBounded(c: Config, s: State, key: string, value: string, now: Time, victim: string, k: string, v: string,
                     w: Time)
    requires Bounded(c, s, k, v, w) && key != k
    ensures Bounded(c, Write(c, s, key, value, now, victim), k, v, w)
  {
    hide Fill1, Fill2;
    var stored := s.(db := s.db[key := value]);
    FillEntries(c, stored, key, value, now, victim, k);
    FillEntries(c, Fill2(c, stored, key, value, now), key, value, now, victim, k);
  }

  lemma ActBounded(c: Config, s: State, a: Action, k: string, v: string, w: Time)
    requires Bounded(c, s, k, v, w) && !Rewrites(a, k)
    ensures Bounded(c, Act(c, s, a).0, k, v, w)
  {
    hide Read, Write, Bound, Lifetime2;
    match a {
      case Call(Get(key, now, victim)) => hide Bounded; ReadBounded(c, s, key, now, victim, k, v, w);
      case Call(Set(key, value, now, victim)) => WriteBounded(c, s, key, value, now, victim, k, v, w);
      case _ =>
    }
  }

  lemma {:induction false} PlayBounded(c: Config, s: State, actions: seq<Action>, k: string, v: string, w: Time)
    requires Bounded(c, s, k, v, w) && forall a :: a in actions ==> !Rewrites(a, k)
    ensures Bounded(c, Play(c, s, actions), k, v, w)
  {
    if actions != [] {
      hide Bounded, Rewrites, Act;
      assert actions[|actions| - 1] in actions;
      PlayBounded(c, s, actions[..|actions| - 1], k, v, w);
      ActBounded(c, Play(c, s, actions[..|actions| - 1]), actions[|actions| - 1], k, v, w);
    }
  }

  lemma {:induction false} PlaySplit(c: Config, s: State, before: seq<Action>, after: seq<Action>)
    ensures Play(c, s, before + after) == Play(c, Play(c, s, before), after)
  {
    var all := before + after;
    if after == [] {
      assert all == before;
    } else {
      assert all[..|all| - 1] == before + after[..|after| - 1];
      PlaySplit(c, s, before, after[..|after| - 1]);
    }
  }

  /** A write that goes to the database at `w` behind the cache's back is what every Get answers that comes
      later by more than both lifetimes together, unless the key was written again. */
  lemma StalenessBound(c: Config, db: map<string, string>, before: seq<Action>, k: string, v: string, w: Time,
                       after: seq<Action>, now: Time, victim: string)
    requires AllBefore(before, w) && (forall a :: a in after ==> !Rewrites(a, k)) && now > w + Bound(c)
    ensures Act(c, Play(c, Empty(db), before + [Behind(k, v, w)] + after), Call(Get(k, now, victim))).1 == Some(v)
  {
    var written := before + [Behind(k, v, w)];
    assert written[..|before|] == before;
    PlayStores(c, db, before);
    EntriesTold(c, db, before, k);
    PastBefore(c, Empty(db), before, k, w);
    assert Bounded(c, Play(c, Empty(db), written), k, v, w) by { hide History; }
    hide Play, History, Rewrites;
    PlayBounded(c, Play(c, Empty(db), written), after, k, v, w);
    PlaySplit(c, Empty(db), written, after);
  }

  /** The bound cannot be lowered: the shared copy is read at its last instant, and the local copy made
      of it then is read at its own last instant. */
  lemma BoundTight(c: Config)
    requires c.enableL1 && c.enableL2 && 0 <= c.l1TTL < c.l2TTL
    ensures var before := [Call(Get("k", 0, ""))]; var after := [Call(Get("k", c.l2TTL, ""))];
            && AllBefore(before, 0) && !Rewrites(after[0], "k")
            && Act(c, Play(c, Empty(map["k" := "old"]), before + [Behind("k", "new", 0)] + after),
                   Call(Get("k", Bound(c), ""))).1 == Some("old")
  {
    var a0, a1, a2 := Call(Get("k", 0, "")), Behind("k", "new", 0), Call(Get("k", c.l2TTL, ""));
    var s0 := Empty(map["k" := "old"]);
    var s1 := Act(c, s0, a0).0;
    assert s1.l1["k"] == LocalItem("old", c.l1TTL, 0, 0) && s1.l2["k"] == SharedItem("old", c.l2TTL, 0);
    var s2 := Act(c, s1, a1).0;
    var s3 := Act(c, s2, a2).0;
    assert s3.l1["k"] == LocalItem("old", c.l2TTL + c.l1TTL, 0, c.l2TTL);
    assert Act(c, s3, Call(Get("k", Bound(c), ""))).1 == Some("old");
    hide Act;
    PlayThree(c, s0, a0, a1, a2);
    assert [a0] + [a1] + [a2] == [a0, a1, a2];
  }

  lemma PlayThree(c: Config, s: State, a0: Action, a1: Action, a2: Action)
    ensures Play(c, s, [a0, a1, a2]) == Act(c, Act(c, Act(c, s, a0).0, a1).0, a2).0
  {
    assert [a0, a1, a2][..2] == [a0, a1] && [a0, a1][..1] == [a0] && [a0][..0] == [];
    hide Act;
    assert Play(c, s, []) == s;
    assert Play(c, s, [a0]) == Act(c, s, a0).0;
    assert Play(c, s, [a0, a1]) == Act(c, Act(c, s, a0).0, a1).0;
  }

  // ----- How long a copy is served -----

  /** Nothing that could take the copy away from the local level before `d`. */
  ghost predicate Quiet1(a: Action, k: string, d: Time) {
    match a
    case Call(Get(x, now, victim)) => if x == k then now <= d else victim != k
    case Call(Set(x, _, _, victim)) => x != k && victim != k
    case Call(Delete(x)) => x != k
    case Call(Sweep1(now)) => now <= d
    case _ => true
  }

  /** Nor from the shared level, which evicts nothing. */
  ghost predicate Quiet2(a: Action, k: string, d: Time) {
    match a
    case Call(Get(x, now, _)) => x == k ==> now <= d
    case Call(Set(x, _, _, _)) => x != k
    case Call(Delete(x)) => x != k
    case Call(Sweep2(now)) => now <= d
    case _ => true
  }

  ghost predicate Holds1(c: Config, s: State, k: string, v: string, d: Time) {
    c.enableL1 && k in s.l1 && s.l1[k].value == v && s.l1[k].expiresAt == d
  }

  ghost predicate Holds2(c: Config, s: State, k: string, v: string, d: Time) {
    && c.enableL2 && k in s.l2 && s.l2[k].value == v && s.l2[k].expiresAt == d
    && (k in s.l1 ==> s.l1[k].value == v)
  }

  lemma ReadHolds1(c: Config, s: State, key: string, now: Time, victim: string, k: string, v: string, d: Time)
    requires Holds1(c, s, k, v, d) && Quiet1(Call(Get(key, now, victim)), k, d)
    ensures Holds1(c, Read(c, s, key, now, victim).0, k, v, d)
  {
    ReadBy(c, s, key, now, victim);
    hide Read, Answerer;
  }

  lemma ActHolds1(c: Config, s: State, a: Action, k: string, v: string, d: Time)
    requires Holds1(c, s, k, v, d) && Quiet1(a, k, d)
    ensures Holds1(c, Act(c, s, a).0, k, v, d)
  {
    hide Read;
    match a {
      case Call(Get(key, now, victim)) => ReadHolds1(c, s, key, now, victim, k, v, d);
      case _ =>
    }
  }

  lemma ReadHolds2(c: Config, s: State, key: string, now: Time, victim: string, k: string, v: string, d: Time)
    requires Off(c, s) && Holds2(c, s, k, v, d) && Quiet2(Call(Get(key, now, victim)), k, d)
    ensures Holds2(c, Read(c, s, key, now, victim).0, k, v, d)
  {
    ReadBy(c, s, key, now, victim);
    var value := Read(c, s, key, now, victim).1;
    hide Read, Fill1, Answerer;
    var m := s.metrics.(totalRequests := s.metrics.totalRequests + 1);
    if value.Some? {
      FillEntries(c, s.(metrics := m.(l2Hits := m.l2Hits + 1)), key, value.value, now, victim, k);
      var counted := s.(metrics := m.(databaseHits := m.databaseHits + 1));
      FillEntries(c, counted, key, value.value, now, victim, k);
      FillEntries(c, Fill2(c, counted, key, value.value, now), key, value.value, now, victim, k);
    }
  }

  lemma WriteHolds2(c: Config, s: State, key: string, value: string, now: Time, victim: string, k: string, v: string,
                    d: Time)
    requires Off(c, s) && Holds2(c, s, k, v, d) && key != k
    ensures Holds2(c, Write(c, s, key, value, now, victim), k, v, d)
  {
    hide Fill1;
    var stored := s.(db := s.db[key := value]);
    FillEntries(c, stored, key, value, now, victim, k);
    FillEntries(c, Fill2(c, stored, key, value, now), key, value, now, victim, k);
  }

  lemma ActHolds2(c: Config, s: State, a: Action, k: string, v: string, d: Time)
    requires Off(c, s) && Holds2(c, s, k, v, d) && Quiet2(a, k, d)
    ensures Holds2(c, Act(c, s, a).0, k, v, d)
  {
    hide Read, Write, Off;
    match a {
      case Call(Get(key, now, victim)) => ReadHolds2(c, s, key, now, victim, k, v, d);
      case Call(Set(key, value, now, victim)) => WriteHolds2(c, s, key, value, now, victim, k, v, d);
      case _ =>
    }
  }

  lemma {:induction false} PlayHolds1(c: Config, s: State, actions: seq<Action>, k: string, v: string, d: Time)
    requires Holds1(c, s, k, v, d) && forall a :: a in actions ==> Quiet1(a, k, d)
    ensures Holds1(c, Play(c, s, actions), k, v, d)
  {
    if actions != [] {
      hide Holds1, Quiet1, Act;
      assert actions[|actions| - 1] in actions;
      PlayHolds1(c, s, actions[..|actions| - 1], k, v, d);
      ActHolds1(c, Play(c, s, actions[..|actions| - 1]), actions[|actions| - 1], k, v, d);
    }
  }

  lemma {:induction false} PlayHolds2(c: Config, s: State, actions: seq<Action>, k: string, v: string, d: Time)
    requires Off(c, s) && Holds2(c, s, k, v, d) && forall a :: a in actions ==> Quiet2(a, k, d)
    ensures Off(c, Play(c, s, actions)) && Holds2(c, Play(c, s, actions), k, v, d)
  {
    if actions != [] {
      hide Holds2, Quiet2, Act, Off;
      assert actions[|actions| - 1] in actions;
      PlayHolds2(c, s, actions[..|actions| - 1], k, v, d);
      ActHolds2(c, Play(c, s, actions[..|actions| - 1]), actions[|actions| - 1], k, v, d);
      ActStores(c, Play(c, s, actions[..|actions| - 1]), actions[|actions| - 1]);
    }
  }

  /** What the call filled the levels with, by what was seen of it. */
  ghost predicate Fills(c: Config, s: State, a: Action, k: string, v: string, level: Source) {
    match a
    case Call(Get(x, _, _)) =>
      var (after, reply) := Act(c, s, a); var from := Answerer(s.metrics, after.metrics);
      x == k && reply == Some(v) && (from == Base || (from == Shared && level == Local))
    case Call(Set(x, value, _, _)) => x == k && value == v && c.writeThrough
    case _ => false
  }

  /** A copy filled into the local level by a Get or a write-through Set answers every Get of the key up to
      the end of its lifetime, unless it was dropped, evicted or overwritten; direct writes to the
      database go unnoticed. */
  lemma ServedLocally(c: Config, s: State, a: Action, after: seq<Action>, k: string, v: string, now: Time,
                      victim: string)
    requires c.enableL1 && Off(c, s) && Fills(c, s, a, k, v, Local) && now <= a.event.now + c.l1TTL
    requires forall b :: b in after ==> Quiet1(b, k, a.event.now + c.l1TTL)
    ensures var t := Play(c, Act(c, s, a).0, after); var (u, reply) := Act(c, t, Call(Get(k, now, victim)));
            reply == Some(v) && Answerer(t.metrics, u.metrics) == Local
  {
    FillHolds(c, s, a, k, v);
    PlayHolds1(c, Act(c, s, a).0, after, k, v, a.event.now + c.l1TTL);
    hide Play, Fills, Quiet1;
  }

  /** A copy filled into the shared level keeps the database from being asked up to the end of its own
      lifetime, unless it was dropped or overwritten. */
  lemma ServedFromShared(c: Config, s: State, a: Action, after: seq<Action>, k: string, v: string, now: Time,
                         victim: string)
    requires c.enableL2 && Off(c, s) && Fills(c, s, a, k, v, Shared) && now <= a.event.now + c.l2TTL
    requires forall b :: b in after ==> Quiet2(b, k, a.event.now + c.l2TTL)
    ensures var t := Play(c, Act(c, s, a).0, after); var (u, reply) := Act(c, t, Call(Get(k, now, victim)));
            reply == Some(v) && u.metrics.databaseHits == t.metrics.databaseHits
  {
    FillHolds(c, s, a, k, v);
    ActStores(c, s, a);
    PlayHolds2(c, Act(c, s, a).0, after, k, v, a.event.now + c.l2TTL);
    hide Play, Fills, Quiet2;
  }

  lemma FillHolds(c: Config, s: State, a: Action, k: string, v: string)
    requires Off(c, s)
    ensures Fills(c, s, a, k, v, Local) && c.enableL1 ==> Holds1(c, Act(c, s, a).0, k, v, a.event.now + c.l1TTL)
    ensures Fills(c, s, a, k, v, Shared) && c.enableL2 ==> Holds2(c, Act(c, s, a).0, k, v, a.event.now + c.l2TTL)
  {
  }
}
