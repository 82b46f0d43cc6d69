/** GetOrSet of the mutex cache in tutorial/03-problems/breakdown.go: any number of threads, each
    taking one atomic step at a time, guard the loader of a key with a lock of that key. */
module SingleFlight {
  import opened Wrappers

  type Thread = nat

  type Lock = nat

  // ----- One call, step by step -----

  /** Where a call stands. A call owns its lock from `Checking` to `Leaving` and `Failing`. */
  datatype Call =
    | Calling(key: string)                              // about to look the key up
    | Missed(key: string)                               // about to fetch or create the key's lock
    | Waiting(key: string, mutex: Lock)                 // about to lock
    | Checking(key: string, mutex: Lock)                // about to look again
    | Loading(key: string, mutex: Lock)                 // the loader runs
    | Storing(key: string, mutex: Lock, value: string)  // about to set the value
    | Leaving(key: string, mutex: Lock, value: string)  // about to unlock and return the value
    | Failing(key: string, mutex: Lock)                 // about to unlock and return the error
    | Returned(key: string, value: string)
    | ReturnedError(key: string)

  predicate Inside(c: Call) {
    c.Checking? || c.Loading? || c.Storing? || c.Leaving? || c.Failing?
  }

  predicate Finished(c: Call) {
    c.Returned? || c.ReturnedError?
  }

  datatype Load = Load(key: string, value: string)

  /** `data` holds the entries that have not expired; `loads` and `expiries` record the run. */
  datatype State = State(
    data: map<string, string>,
    locks: map<string, Lock>,
    created: nat,
    held: map<Lock, Thread>,
    calls: map<Thread, Call>,
    loads: seq<Load>,
    expiries: seq<string>)

  datatype Event =
    | Enter(thread: Thread, key: string)
    | Advance(thread: Thread)
    | LoaderReturns(thread: Thread, value: string)
    | LoaderFails(thread: Thread)
    | Expire(key: string)

  function Start(data: map<string, string>): State {
    State(data, map[], 0, map[], map[], [], [])
  }

  /** The loader's result comes from outside; every other step is the thread's own, and only a held
      lock can keep it from taking it. */
  predicate Enabled(s: State, e: Event) {
    match e
    case Enter(t, _) => t !in s.calls
    case Advance(t) =>
      && t in s.calls && !s.calls[t].Loading? && !Finished(s.calls[t])
      && (s.calls[t].Waiting? ==> s.calls[t].mutex !in s.held)
    case LoaderReturns(t, _) => t in s.calls && s.calls[t].Loading?
    case LoaderFails(t) => t in s.calls && s.calls[t].Loading?
    case Expire(k) => k in s.data
  }

  function At(s: State, t: Thread, c: Call): State {
    s.(calls := s.calls[t := c])
  }

  function Apply(s: State, e: Event): State
    requires Enabled(s, e)
  {
    match e
    case Enter(t, k) => At(s, t, Calling(k))
    case LoaderReturns(t, v) =>
      At(s, t, Storing(s.calls[t].key, s.calls[t].mutex, v)).(loads := s.loads + [Load(s.calls[t].key, v)])
    case LoaderFails(t) => At(s, t, Failing(s.calls[t].key, s.calls[t].mutex))
    case Expire(k) => s.(data := s.data - {k}, expiries := s.expiries + [k])
    case Advance(t) => Step(s, t, s.calls[t])
  }

  function Step(s: State, t: Thread, c: Call): State
    requires !c.Loading? && !Finished(c)
  {
    match c
    case Calling(k) => At(s, t, if k in s.data then Returned(k, s.data[k]) else Missed(k))
    case Missed(k) =>
      if k in s.locks then At(s, t, Waiting(k, s.locks[k]))
      else At(s, t, Waiting(k, s.created)).(locks := s.locks[k := s.created], created := s.created + 1)
    case Waiting(k, m) => At(s, t, Checking(k, m)).(held := s.held[m := t])
    case Checking(k, m) => At(s, t, if k in s.data then Leaving(k, m, s.data[k]) else Loading(k, m))
    case Storing(k, m, v) => At(s, t, Leaving(k, m, v)).(data := s.data[k := v])
    case Leaving(k, m, v) => At(s, t, Returned(k, v)).(held := s.held - {m})
    case Failing(k, m) => At(s, t, ReturnedError(k)).(held := s.held - {m})
  }

  predicate Runnable(s: State, events: seq<Event>)
    decreases |events|
  {
    events == [] || (Enabled(s, events[0]) && Runnable(Apply(s, events[0]), events[1..]))
  }

  function Run(s: State, events: seq<Event>): State
    requires Runnable(s, events)
    decreases |events|
  {
    if events == [] then s else Run(Apply(s, events[0]), events[1..])
  }

  // ----- Mutual exclusion -----

  /** One lock for each key, made once, and no call uses another. */
  ghost predicate Keyed(s: State) {
    && (forall k :: k in s.locks ==> s.locks[k] < s.created)
    && (forall k, l :: k in s.locks && l in s.locks && s.locks[k] == s.locks[l] ==> k == l)
    && (forall t :: t in s.calls && (s.calls[t].Waiting? || Inside(s.calls[t])) ==>
          s.calls[t].key in s.locks && s.calls[t].mutex == s.locks[s.calls[t].key])
  }

  /** A call inside holds its lock, and only such calls hold one. */
  ghost predicate Holding(s: State) {
    && (forall t :: t in s.calls && Inside(s.calls[t]) ==> s.calls[t].mutex in s.held && s.held[s.calls[t].mutex] == t)
    && (forall m :: m in s.held ==> s.held[m] in s.calls && Inside(s.calls[s.held[m]]) && s.calls[s.held[m]].mutex == m)
  }

  ghost predicate Exclusive(s: State) {
    Keyed(s) && Holding(s)
  }

  /** A call that moves on without touching a lock. */
  lemma MoveExclusive(s: State, after: State, t: Thread, c: Call)
    requires Exclusive(s) && after.calls == s.calls[t := c] && !c.Waiting?
    requires after.locks == s.locks && after.created == s.created && after.held == s.held
    requires if t in s.calls && Inside(s.calls[t])
             then Inside(c) && c.key == s.calls[t].key && c.mutex == s.calls[t].mutex
             else !Inside(c)
    ensures Exclusive(after)
  {
  }

  lemma FetchExclusive(s: State, t: Thread, k: string)
    requires Exclusive(s) && t in s.calls && s.calls[t] == Missed(k)
    ensures Exclusive(Step(s, t, Missed(k)))
  {
    var after := Step(s, t, Missed(k));
    assert Holding(after) by {
      hide Keyed;
    }
    hide Holding;
    assert Keyed(after);
  }

  lemma LockExclusive(s: State, t: Thread, k: string, m: Lock)
    requires Exclusive(s) && t in s.calls && s.calls[t] == Waiting(k, m) && m !in s.held
    ensures Exclusive(Step(s, t, Waiting(k, m)))
  {
  }

  lemma UnlockKeyed(s: State, after: State, t: Thread, c: Call)
    requires Keyed(s) && !c.Waiting? && !Inside(c) && after.calls == s.calls[t := c]
    requires after.locks == s.locks && after.created == s.created
    ensures Keyed(after)
  {
  }

  lemma UnlockHolding(s: State, after: State, t: Thread, c: Call)
    requires Holding(s) && t in s.calls && Inside(s.calls[t]) && !Inside(c)
    requires after.calls == s.calls[t := c] && after.held == s.held - {s.calls[t].mutex}
    ensures Holding(after)
  {
    forall u | u in after.calls && Inside(after.calls[u])
      ensures after.calls[u].mutex in after.held && after.held[after.calls[u].mutex] == u
    {
      assert u != t && Inside(s.calls[u]);
    }
  }

  lemma UnlockExclusive(s: State, t: Thread, c: Call)
    requires Exclusive(s) && t in s.calls && s.calls[t] == c && (c.Leaving? || c.Failing?)
    ensures Exclusive(Step(s, t, c))
  {
    hide Keyed, Holding;
    var after := Step(s, t, c);
    UnlockKeyed(s, after, t, after.calls[t]);
    UnlockHolding(s, after, t, after.calls[t]);
  }

  lemma StepExclusive(s: State, e: Event)
    requires Exclusive(s) && Enabled(s, e)
    ensures Exclusive(Apply(s, e))
  {
    var after := Apply(s, e);
    if e.Expire? {
    } else if e.Advance? && s.calls[e.thread].Missed? {
      FetchExclusive(s, e.thread, s.calls[e.thread].key);
    } else if e.Advance? && s.calls[e.thread].Waiting? {
      LockExclusive(s, e.thread, s.calls[e.thread].key, s.calls[e.thread].mutex);
    } else if e.Advance? && (s.calls[e.thread].Leaving? || s.calls[e.thread].Failing?) {
      UnlockExclusive(s, e.thread, s.calls[e.thread]);
    } else {
      hide Exclusive;
      MoveExclusive(s, after, e.thread, after.calls[e.thread]);
    }
  }

  /** At most one call is inside for each key. */
  lemma OneInside(s: State, t: Thread, u: Thread)
    requires Exclusive(s) && t in s.calls && u in s.calls
    requires Inside(s.calls[t]) && Inside(s.calls[u]) && s.calls[t].key == s.calls[u].key
    ensures t == u
  {
  }

  /** No deadlock: while a call is unfinished, some call can take a step. */
  lemma Progress(s: State, t: Thread)
    requires Exclusive(s) && t in s.calls && !Finished(s.calls[t])
    ensures exists u :: u in s.calls && !Finished(s.calls[u]) && (Enabled(s, Advance(u)) || Enabled(s, LoaderFails(u)))
  {
    var c := s.calls[t];
    if c.Waiting? && c.mutex in s.held {
      var u := s.held[c.mutex];
      assert u in s.calls && Inside(s.calls[u]);
      assert Enabled(s, Advance(u)) || Enabled(s, LoaderFails(u));
    } else {
      assert Enabled(s, Advance(t)) || Enabled(s, LoaderFails(t));
    }
  }

  // ----- Loads against expiries -----

  function LoadsOf(loads: seq<Load>, k: string): nat {
    if loads == [] then 0 else LoadsOf(loads[..|loads| - 1], k) + if loads[|loads| - 1].key == k then 1 else 0
  }

  function ExpiriesOf(expiries: seq<string>, k: string): nat {
    if expiries == [] then 0
    else ExpiriesOf(expiries[..|expiries| - 1], k) + if expiries[|expiries| - 1] == k then 1 else 0
  }

  /** A loaded value waits to be stored. */
  ghost predicate Pending(s: State, k: string) {
    exists t :: t in s.calls && s.calls[t].Storing? && s.calls[t].key == k
  }

  function One(b: bool): nat {
    if b then 1 else 0
  }

  /** Each successful load makes one entry, which stays until it expires. */
  ghost predicate Balanced(s: State, init: map<string, string>, k: string) {
    LoadsOf(s.loads, k) + One(k in init) == ExpiriesOf(s.expiries, k) + One(k in s.data) + One(Pending(s, k))
  }

  /** Whoever loads or is about to store a key has seen it missing, and it is still missing. */
  ghost predicate Unseen(s: State) {
    forall t :: t in s.calls && (s.calls[t].Loading? || s.calls[t].Storing?) ==> s.calls[t].key !in s.data
  }

  lemma StepUnseen(s: State, e: Event)
    requires Exclusive(s) && Unseen(s) && Enabled(s, e)
    ensures Unseen(Apply(s, e))
  {
    var after := Apply(s, e);
    forall t | t in after.calls && (after.calls[t].Loading? || after.calls[t].Storing?)
      ensures after.calls[t].key !in after.data
    {
      if e.Advance? && s.calls[e.thread].Storing? && e.thread != t && s.calls[t].key == s.calls[e.thread].key {
        OneInside(s, t, e.thread);
      }
    }
  }

  lemma LoadBalanced(s: State, t: Thread, v: string, init: map<string, string>, k: string)
    requires Exclusive(s) && Balanced(s, init, k) && Enabled(s, LoaderReturns(t, v)) && s.calls[t].key == k
    ensures Balanced(Apply(s, LoaderReturns(t, v)), init, k)
  {
    var after := Apply(s, LoaderReturns(t, v));
    assert after.loads[..|s.loads|] == s.loads;
    forall u | u in s.calls && s.calls[u].Storing? && s.calls[u].key == k ensures u == t {
      OneInside(s, u, t);
    }
    assert !Pending(s, k) && after.calls[t].Storing?;
  }

  lemma StoreBalanced(s: State, t: Thread, init: map<string, string>, k: string)
    requires Exclusive(s) && Unseen(s) && Balanced(s, init, k)
    requires Enabled(s, Advance(t)) && s.calls[t].Storing? && s.calls[t].key == k
    ensures Balanced(Apply(s, Advance(t)), init, k)
  {
    var after := Apply(s, Advance(t));
    forall u | u in s.calls && s.calls[u].Storing? && s.calls[u].key == k ensures u == t {
      OneInside(s, u, t);
    }
    assert Pending(s, k) && !Pending(after, k);
  }

  lemma PendingSame(s: State, after: State, thread: Thread, k: string)
    requires forall t :: t != thread ==> (t in s.calls <==> t in after.calls)
    requires forall t :: t in s.calls && t != thread ==> after.calls[t] == s.calls[t]
    requires thread in s.calls ==> !(s.calls[thread].Storing? && s.calls[thread].key == k)
    requires thread in after.calls ==> !(after.calls[thread].Storing? && after.calls[thread].key == k)
    ensures Pending(s, k) <==> Pending(after, k)
  {
  }

  lemma ExpireBalanced(s: State, gone: string, init: map<string, string>, k: string)
    requires Balanced(s, init, k) && gone in s.data
    ensures Balanced(Apply(s, Expire(gone)), init, k)
  {
    var after := Apply(s, Expire(gone));
    assert Pending(s, k) <==> Pending(after, k);
    assert after.expiries[..|s.expiries|] == s.expiries;
  }

  /** What a step of a thread leaves alone if it neither loads nor stores `k`. */
  lemma OtherFrame(s: State, e: Event, k: string)
    requires Enabled(s, e) && !e.Expire?
    requires e.LoaderReturns? ==> s.calls[e.thread].key != k
    requires e.Advance? && s.calls[e.thread].Storing? ==> s.calls[e.thread].key != k
    ensures var after := Apply(s, e);
            && (k in after.data <==> k in s.data) && after.expiries == s.expiries
            && (after.loads == s.loads
                || (e.LoaderReturns? && after.loads == s.loads + [Load(s.calls[e.thread].key, e.value)]))
            && (Pending(s, k) <==> Pending(after, k))
  {
    PendingSame(s, Apply(s, e), e.thread, k);
    hide Pending;
  }

  lemma OtherBalanced(s: State, e: Event, init: map<string, string>, k: string)
    requires Balanced(s, init, k) && Enabled(s, e) && !e.Expire?
    requires e.LoaderReturns? ==> s.calls[e.thread].key != k
    requires e.Advance? && s.calls[e.thread].Storing? ==> s.calls[e.thread].key != k
    ensures Balanced(Apply(s, e), init, k)
  {
    OtherFrame(s, e, k);
    hide Pending, Apply;
    var after := Apply(s, e);
    assert e.LoaderReturns? ==> after.loads == s.loads || after.loads[..|s.loads|] == s.loads;
  }

  lemma StepBalanced(s: State, e: Event, init: map<string, string>, k: string)
    requires Exclusive(s) && Unseen(s) && Enabled(s, e) && Balanced(s, init, k)
    ensures Balanced(Apply(s, e), init, k)
  {
    if e.LoaderReturns? && s.calls[e.thread].key == k {
      LoadBalanced(s, e.thread, e.value, init, k);
    } else if e.Advance? && s.calls[e.thread].Storing? && s.calls[e.thread].key == k {
      StoreBalanced(s, e.thread, init, k);
    } else if e.Expire? {
      ExpireBalanced(s, e.key, init, k);
    } else {
      hide Exclusive, Unseen;
      OtherBalanced(s, e, init, k);
    }
  }

  // ----- Where values come from -----

  /** `v` was in the cache at the start or was loaded. */
  ghost predicate Known(s: State, init: map<string, string>, k: string, v: string) {
    (k in init && init[k] == v) || Load(k, v) in s.loads
  }

  ghost predicate Genuine(s: State, init: map<string, string>) {
    && (forall k :: k in s.data ==> Known(s, init, k, s.data[k]))
    && (forall t :: t in s.calls && (s.calls[t].Storing? || s.calls[t].Leaving? || s.calls[t].Returned?) ==>
          Known(s, init, s.calls[t].key, s.calls[t].value))
  }

  /** The entries and the values in hand stay genuine when one call changes to a genuine one. */
  lemma CallGenuine(s: State, after: State, t: Thread, c: Call, init: map<string, string>)
    requires Genuine(s, init) && after.calls == s.calls[t := c] && after.data == s.data && s.loads <= after.loads
    requires c.Storing? || c.Leaving? || c.Returned? ==>
               Known(s, init, c.key, c.value) || Known(after, init, c.key, c.value)
    ensures Genuine(after, init)
  {
    forall k, v | Known(s, init, k, v) ensures Known(after, init, k, v) {
    }
    hide Known;
  }

  lemma AdvanceFrame(s: State, t: Thread)
    requires Enabled(s, Advance(t)) && !s.calls[t].Storing?
    ensures var after := Apply(s, Advance(t));
            && t in after.calls && after.calls == s.calls[t := after.calls[t]]
            && after.data == s.data && after.loads == s.loads
  {
  }

  lemma AdvanceInHand(s: State, t: Thread, init: map<string, string>)
    requires Genuine(s, init) && Enabled(s, Advance(t)) && !s.calls[t].Storing?
    ensures t in Apply(s, Advance(t)).calls
    ensures var c := Apply(s, Advance(t)).calls[t];
            c.Storing? || c.Leaving? || c.Returned? ==> Known(s, init, c.key, c.value)
  {
    hide Known;
  }

  lemma AdvanceGenuine(s: State, t: Thread, init: map<string, string>)
    requires Genuine(s, init) && Enabled(s, Advance(t)) && !s.calls[t].Storing?
    ensures Genuine(Apply(s, Advance(t)), init)
  {
    hide Known, Apply, Genuine;
    AdvanceFrame(s, t);
    AdvanceInHand(s, t, init);
    CallGenuine(s, Apply(s, Advance(t)), t, Apply(s, Advance(t)).calls[t], init);
  }

  lemma StoreGenuine(s: State, t: Thread, init: map<string, string>)
    requires Genuine(s, init) && Enabled(s, Advance(t)) && s.calls[t].Storing?
    ensures Genuine(Apply(s, Advance(t)), init)
  {
    var after := Apply(s, Advance(t));
    assert forall k, v :: Known(s, init, k, v) <==> Known(after, init, k, v);
    hide Known;
  }

  lemma StepGenuine(s: State, e: Event, init: map<string, string>)
    requires Genuine(s, init) && Enabled(s, e)
    ensures Genuine(Apply(s, e), init)
  {
    var after := Apply(s, e);
    match e
    case Enter(t, k) => CallGenuine(s, after, t, Calling(k), init);
    case Advance(t) =>
      hide Genuine;
      if s.calls[t].Storing? { StoreGenuine(s, t, init); } else { AdvanceGenuine(s, t, init); }
    case LoaderReturns(t, v) =>
      assert after.loads[|s.loads|] == Load(s.calls[t].key, v);
      CallGenuine(s, after, t, after.calls[t], init);
    case LoaderFails(t) => CallGenuine(s, after, t, after.calls[t], init);
    case Expire(k) =>
  }

  /** Every call that has the value of `k` in hand agrees with the entry. */
  ghost predicate Settled(s: State, k: string) {
    forall t :: t in s.calls && s.calls[t].key == k && (s.calls[t].Leaving? || s.calls[t].Returned?) ==>
      k in s.data && s.calls[t].value == s.data[k]
  }

  /** A call that finds the entry takes its value along. */
  lemma LookSettled(s: State, t: Thread, k: string)
    requires Settled(s, k) && Enabled(s, Advance(t)) && (s.calls[t].Calling? || s.calls[t].Checking?)
    ensures Settled(Apply(s, Advance(t)), k)
  {
  }

  /** The one call that stores the key makes the entry that was missing. */
  lemma StoreSettled(s: State, t: Thread, k: string)
    requires Settled(s, k) && Unseen(s) && Enabled(s, Advance(t)) && s.calls[t].Storing?
    ensures Settled(Apply(s, Advance(t)), k)
  {
    var c := s.calls[t];
    assert c.key !in s.data;
    hide Unseen;
  }

  lemma StepSettled(s: State, e: Event, k: string)
    requires Exclusive(s) && Unseen(s) && Settled(s, k) && Enabled(s, e) && e != Expire(k)
    ensures Settled(Apply(s, e), k)
  {
    hide Exclusive;
    if e.Advance? && (s.calls[e.thread].Calling? || s.calls[e.thread].Checking?) {
      LookSettled(s, e.thread, k);
    } else if e.Advance? && s.calls[e.thread].Storing? {
      StoreSettled(s, e.thread, k);
    } else {
      hide Unseen;
      QuietSettled(s, e, k);
    }
  }

  /** No other step brings a value into a call or changes the entry. */
  lemma QuietSettled(s: State, e: Event, k: string)
    requires Settled(s, k) && Enabled(s, e) && e != Expire(k)
    requires e.Advance? ==> !s.calls[e.thread].Calling? && !s.calls[e.thread].Checking? && !s.calls[e.thread].Storing?
    ensures Settled(Apply(s, e), k)
  {
  }

  // ----- Whole runs -----

  /** Over any interleaving, each key is loaded successfully once for each time its entry was missing
      and came to be: no load is wasted and none overwrites a live entry. */
  lemma {:induction false} RunBalanced(s: State, events: seq<Event>, init: map<string, string>, k: string)
    requires Exclusive(s) && Unseen(s) && Genuine(s, init) && Balanced(s, init, k) && Runnable(s, events)
    ensures var after := Run(s, events);
            && Exclusive(after) && Unseen(after) && Genuine(after, init) && Balanced(after, init, k)
    decreases |events|
  {
    if events != [] {
      hide Apply, Enabled, Exclusive, Unseen, Balanced, Genuine;
      var next := Apply(s, events[0]);
      StepExclusive(s, events[0]);
      StepUnseen(s, events[0]);
      StepBalanced(s, events[0], init, k);
      StepGenuine(s, events[0], init);
      RunBalanced(next, events[1..], init, k);
    }
  }

  lemma StepExpiries(s: State, e: Event, k: string)
    requires Enabled(s, e) && e != Expire(k)
    ensures ExpiriesOf(Apply(s, e).expiries, k) == ExpiriesOf(s.expiries, k)
  {
    if e.Expire? {
      assert Apply(s, e).expiries[..|s.expiries|] == s.expiries;
    }
  }

  lemma {:induction false} RunSettled(s: State, events: seq<Event>, k: string)
    requires Exclusive(s) && Unseen(s) && Settled(s, k) && Runnable(s, events) && Expire(k) !in events
    ensures var after := Run(s, events);
            Settled(after, k) && ExpiriesOf(after.expiries, k) == ExpiriesOf(s.expiries, k)
    decreases |events|
  {
    if events != [] {
      hide Apply, Enabled, Exclusive, Unseen, Settled, ExpiriesOf;
      var next := Apply(s, events[0]);
      StepExclusive(s, events[0]);
      StepUnseen(s, events[0]);
      StepSettled(s, events[0], k);
      StepExpiries(s, events[0], k);
      RunSettled(next, events[1..], k);
    }
  }

  lemma {:induction false} LoadCounted(loads: seq<Load>, k: string, v: string)
    requires Load(k, v) in loads
    ensures LoadsOf(loads, k) > 0
  {
    if loads[|loads| - 1] != Load(k, v) {
      LoadCounted(loads[..|loads| - 1], k, v);
    }
  }

  /** In every reachable state no key is guarded by two locks, and an unfinished call means that some
      call can go on. */
  lemma NoDeadlock(init: map<string, string>, events: seq<Event>, t: Thread)
    requires Runnable(Start(init), events)
    requires t in Run(Start(init), events).calls && !Finished(Run(Start(init), events).calls[t])
    ensures var after := Run(Start(init), events);
            exists u :: u in after.calls && !Finished(after.calls[u])
                        && (Enabled(after, Advance(u)) || Enabled(after, LoaderFails(u)))
  {
    RunBalanced(Start(init), events, init, "");
    Progress(Run(Start(init), events), t);
  }

  // ----- Told from the events -----

  /** The key a thread entered with. */
  function EnteredWith(events: seq<Event>, t: Thread): Option<string> {
    if events == [] then None
    else match events[|events| - 1]
      case Enter(u, k) => if u == t then Some(k) else EnteredWith(events[..|events| - 1], t)
      case _ => EnteredWith(events[..|events| - 1], t)
  }

  /** The key and the value of each time a loader returned one. */
  function LoadsIn(events: seq<Event>): seq<Load> {
    if events == [] then []
    else
      var front := events[..|events| - 1];
      match events[|events| - 1]
      case LoaderReturns(t, v) =>
        LoadsIn(front) + if EnteredWith(front, t).Some? then [Load(EnteredWith(front, t).value, v)] else []
      case _ => LoadsIn(front)
  }

  function ExpiriesIn(events: seq<Event>): seq<string> {
    if events == [] then []
    else
      var front := events[..|events| - 1];
      if events[|events| - 1].Expire? then ExpiriesIn(front) + [events[|events| - 1].key] else ExpiriesIn(front)
  }

  predicate HasValue(c: Call) {
    c.Storing? || c.Leaving? || c.Returned?
  }

  /** How a call stands agrees with what happened to its thread. */
  ghost predicate CallTold(s: State, past: seq<Event>, t: Thread) {
    && EnteredWith(past, t) == (if t in s.calls then Some(s.calls[t].key) else None)
    && (LoaderFails(t) in past <==> t in s.calls && (s.calls[t].Failing? || s.calls[t].ReturnedError?))
    && forall v :: LoaderReturns(t, v) in past ==> t in s.calls && HasValue(s.calls[t]) && s.calls[t].value == v
  }

  ghost predicate Told(s: State, past: seq<Event>) {
    && s.loads == LoadsIn(past) && s.expiries == ExpiriesIn(past)
    && forall t :: CallTold(s, past, t)
  }

  /** Another thread's step. */
  lemma OtherTold(s: State, past: seq<Event>, e: Event, t: Thread)
    requires Enabled(s, e) && CallTold(s, past, t) && (e.Expire? || e.thread != t)
    ensures CallTold(Apply(s, e), past + [e], t)
  {
    OtherCall(s, e, t);
    hide Apply, Enabled;
    assert (past + [e])[..|past|] == past;
    assert forall x :: x in past + [e] <==> x in past || x == e;
  }

  lemma OtherCall(s: State, e: Event, t: Thread)
    requires Enabled(s, e) && (e.Expire? || e.thread != t)
    ensures t in Apply(s, e).calls <==> t in s.calls
    ensures t in s.calls ==> Apply(s, e).calls[t] == s.calls[t]
  {
    if e.Advance? {
      StepElsewhere(s, e.thread, t);
    }
    hide Step;
  }

  lemma StepElsewhere(s: State, t: Thread, u: Thread)
    requires Enabled(s, Advance(t)) && u != t
    ensures var after := Step(s, t, s.calls[t]).calls;
            (u in after <==> u in s.calls) && (u in s.calls ==> after[u] == s.calls[u])
  {
  }

  /** A step that its thread takes alone: a value it has stays, and a call that failed goes on failing. */
  lemma AdvanceTold(s: State, past: seq<Event>, t: Thread)
    requires Enabled(s, Advance(t)) && CallTold(s, past, t)
    ensures CallTold(Apply(s, Advance(t)), past + [Advance(t)], t)
  {
    var e := Advance(t);
    assert (past + [e])[..|past|] == past;
    assert forall x :: x in past + [e] <==> x in past || x == e;
    var c, d := s.calls[t], Apply(s, e).calls[t];
    assert d.key == c.key;
    assert HasValue(c) ==> HasValue(d) && d.value == c.value;
    assert c.Failing? <==> d.Failing? || d.ReturnedError?;
    hide Apply;
  }

  lemma StepCallTold(s: State, past: seq<Event>, e: Event, t: Thread)
    requires Enabled(s, e) && CallTold(s, past, t)
    ensures CallTold(Apply(s, e), past + [e], t)
  {
    if e.Expire? || e.thread != t {
      OtherTold(s, past, e, t);
    } else if e.Advance? {
      AdvanceTold(s, past, t);
    } else {
      assert (past + [e])[..|past|] == past;
      assert forall x :: x in past + [e] <==> x in past || x == e;
    }
  }

  lemma StepTold(s: State, past: seq<Event>, e: Event)
    requires Enabled(s, e) && Told(s, past)
    ensures Told(Apply(s, e), past + [e])
  {
    forall t ensures CallTold(Apply(s, e), past + [e], t) {
      StepCallTold(s, past, e, t);
    }
    if e.LoaderReturns? {
      assert CallTold(s, past, e.thread);
    }
    assert (past + [e])[..|past|] == past;
    hide CallTold;
  }

  lemma {:induction false} RunTold(s: State, past: seq<Event>, events: seq<Event>)
    requires Told(s, past) && Runnable(s, events)
    ensures Told(Run(s, events), past + events)
    decreases |events|
  {
    hide Apply, Enabled, Told;
    if events == [] {
      assert past + events == past;
    } else {
      StepTold(s, past, events[0]);
      RunTold(Apply(s, events[0]), past + [events[0]], events[1..]);
      assert past + [events[0]] + events[1..] == past + events;
    }
  }

  /** A call that has returned a value was asked for a key whose value this is: the cache had it at the start,
      or a loader returned it to a call that was asked for the same key. It returned an error exactly if
      its own loader failed, and what its own loader gave it is what it returns. */
  lemma ReturnsWhatWasAsked(init: map<string, string>, events: seq<Event>, t: Thread)
    requires Runnable(Start(init), events)
    requires t in Run(Start(init), events).calls && Finished(Run(Start(init), events).calls[t])
    ensures var c := Run(Start(init), events).calls[t];
            && EnteredWith(events, t) == Some(c.key)
            && (c.ReturnedError? <==> LoaderFails(t) in events)
            && (c.Returned? ==> (c.key in init && init[c.key] == c.value) || Load(c.key, c.value) in LoadsIn(events))
            && forall v :: LoaderReturns(t, v) in events ==> c == Returned(c.key, v)
  {
    var after := Run(Start(init), events);
    assert Told(Start(init), []) && [] + events == events;
    RunTold(Start(init), [], events);
    RunBalanced(Start(init), events, init, "");
    assert CallTold(after, events, t);
    hide Told, CallTold, Run, Runnable, LoadsIn, EnteredWith;
  }

  /** The loads and expiries recorded are those that happened. */
  lemma LogIsTold(init: map<string, string>, events: seq<Event>)
    requires Runnable(Start(init), events)
    ensures Run(Start(init), events).loads == LoadsIn(events)
    ensures Run(Start(init), events).expiries == ExpiriesIn(events)
  {
    assert Told(Start(init), []) && [] + events == events;
    RunTold(Start(init), [], events);
  }

  /** From an idle cache, the loader of a key succeeds exactly as often as the key's entry expired,
      plus one for the entry that is there or about to be, less one if it was there at the start. */
  lemma LoadsExact(init: map<string, string>, events: seq<Event>, k: string)
    requires Runnable(Start(init), events)
    ensures var after := Run(Start(init), events);
            LoadsOf(LoadsIn(events), k) + One(k in init)
            == ExpiriesOf(ExpiriesIn(events), k) + One(k in after.data) + One(Pending(after, k))
  {
    LogIsTold(init, events);
    RunBalanced(Start(init), events, init, k);
  }

  /** A key that does not expire is loaded successfully at most once, and not at all if it was cached
      before; every call that returns without error returns that one value. */
  lemma SingleLoad(init: map<string, string>, events: seq<Event>, k: string)
    requires Runnable(Start(init), events) && Expire(k) !in events
    ensures var after := Run(Start(init), events);
            && LoadsOf(LoadsIn(events), k) + One(k in init) <= 1
            && (forall t :: t in after.calls && after.calls[t].Returned? && after.calls[t].key == k ==>
                  && k in after.data && after.calls[t].value == after.data[k]
                  && (if k in init then after.data[k] == init[k] else Load(k, after.data[k]) in LoadsIn(events)))
  {
    LogIsTold(init, events);
    RunBalanced(Start(init), events, init, k);
    RunSettled(Start(init), events, k);
    var after := Run(Start(init), events);
    assert !(k in after.data && Pending(after, k));
    if k in init && k in after.data && Load(k, after.data[k]) in after.loads {
      LoadCounted(after.loads, k, after.data[k]);
    }
  }
}
