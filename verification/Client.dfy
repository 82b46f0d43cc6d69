/** The client of distributed/client.go: failure counters, the healthy list, a round-robin cursor
    over it, and the retry loop that drives them. */
module Client {

  datatype Status = Status(healthy: bool, failures: nat)

  /** What the node manager keeps. */
  datatype Health = Health(seeds: seq<string>, active: seq<string>, status: map<string, Status>, threshold: int)

  function Filter(nodes: seq<string>, status: map<string, Status>): (r: seq<string>)
    ensures |r| <= |nodes|
    ensures forall n :: n in r <==> n in nodes && n in status && status[n].healthy
  {
    if nodes == [] then []
    else (if nodes[0] in status && status[nodes[0]].healthy then [nodes[0]] else []) + Filter(nodes[1..], status)
  }

  /** The healthy active nodes in order, or every seed when there is none. */
  function HealthyNodes(h: Health): seq<string> {
    var healthy := Filter(h.active, h.status);
    if |healthy| == 0 then h.seeds else healthy
  }

  function Initial(nodes: seq<string>, threshold: int): Health {
    Health(nodes, nodes, map n | n in nodes :: Status(true, 0), threshold)
  }

  function Ensure(active: seq<string>, node: string): seq<string> {
    if node in active then active else active + [node]
  }

  function Succeed(h: Health, node: string): Health {
    if node in h.status then h.(status := h.status[node := Status(true, 0)], active := Ensure(h.active, node)) else h
  }

  /** The counter goes up, and reaching the threshold marks the node unhealthy. */
  function Fail(h: Health, node: string): Health {
    if node in h.status then
      var f := h.status[node].failures + 1;
      h.(status := h.status[node := Status(if f >= h.threshold then false else h.status[node].healthy, f)])
    else h
  }

  /** A background check: recovery resets the counter, success of a healthy node changes nothing. */
  function Check(h: Health, node: string, up: bool): Health {
    if node !in h.status then h
    else if !up then Fail(h, node)
    else if h.status[node].healthy then h
    else Succeed(h, node)
  }

  datatype HealthEvent = Success(node: string) | Failure(node: string) | Checked(node: string, up: bool)

  function React(h: Health, e: HealthEvent): Health {
    match e
    case Success(n) => Succeed(h, n)
    case Failure(n) => Fail(h, n)
    case Checked(n, up) => Check(h, n, up)
  }

  function ReactAll(h: Health, events: seq<HealthEvent>): Health {
    if events == [] then h else React(ReactAll(h, events[..|events| - 1]), events[|events| - 1])
  }

  // ----- The health invariant -----

  ghost predicate Sound(h: Health) {
    && h.active == h.seeds
    && (forall n :: n in h.status <==> n in h.seeds)
    && forall n :: n in h.status ==> (h.status[n].healthy <==> h.status[n].failures < h.threshold)
  }

  /** The constructor starts sound exactly when the threshold is positive, or there is nothing to
      watch: every node begins healthy with no failures. */
  lemma InitialSoundIff(nodes: seq<string>, threshold: int)
    ensures Sound(Initial(nodes, threshold)) <==> threshold >= 1 || nodes == []
  {
    if nodes != [] {
      assert nodes[0] in Initial(nodes, threshold).status;
    }
  }

  lemma ReactKeeps(h: Health, e: HealthEvent)
    requires h.active == h.seeds && forall n :: n in h.status ==> n in h.seeds
    ensures var r := React(h, e);
            && r.seeds == h.seeds && r.active == h.active && r.threshold == h.threshold
                && r.status.Keys == h.status.Keys
            && (Sound(h) && h.threshold >= 1 ==> Sound(r))
  {
  }

  /** In every reachable state a node is healthy exactly while its counter is below the threshold,
      and the active list is the seed list. */
  lemma {:induction false} HealthInvariant(nodes: seq<string>, threshold: int, events: seq<HealthEvent>)
    requires threshold >= 1
    ensures var h := ReactAll(Initial(nodes, threshold), events);
            Sound(h) && h.seeds == nodes && h.threshold == threshold
  {
    if events != [] {
      HealthInvariant(nodes, threshold, events[..|events| - 1]);
    }
  }

  // ----- Health as the events tell it -----

  predicate Fails(e: HealthEvent, n: string) {
    e == Failure(n) || e == Checked(n, false)
  }

  function CountFails(events: seq<HealthEvent>, n: string): nat {
    if events == [] then 0
    else CountFails(events[..|events| - 1], n) + if Fails(events[|events| - 1], n) then 1 else 0
  }

  /** The number of events up to the last that cleared the node's record: a success, or a good check
      while it was down. */
  function Cleared(threshold: int, events: seq<HealthEvent>, n: string): (i: nat)
    ensures i <= |events|
    decreases |events|, 0
  {
    if events == [] then 0
    else
      var front, e := events[..|events| - 1], events[|events| - 1];
      if e == Success(n) || (e == Checked(n, true) && Down(threshold, front, n)) then |events|
      else Cleared(threshold, front, n)
  }

  /** The failures and failed checks of the node since then. */
  function Streak(threshold: int, events: seq<HealthEvent>, n: string): nat
    decreases |events|, 1
  {
    CountFails(events[Cleared(threshold, events, n)..], n)
  }

  predicate Down(threshold: int, events: seq<HealthEvent>, n: string)
    decreases |events|, 2
  {
    Streak(threshold, events, n) >= threshold && Streak(threshold, events, n) > 0
  }

  lemma StreakNext(threshold: int, events: seq<HealthEvent>, e: HealthEvent, n: string)
    ensures Streak(threshold, events + [e], n)
            == if e == Success(n) || (e == Checked(n, true) && Down(threshold, events, n)) then 0
               else Streak(threshold, events, n) + if Fails(e, n) then 1 else 0
  {
    var longer := events + [e];
    var i := Cleared(threshold, longer, n);
    assert longer[..|events|] == events;
    if i <= |events| {
      var tail := longer[i..];
      assert tail[..|tail| - 1] == events[i..];
    }
  }

  /** Over any run and for any threshold, a node's counter is its streak of failures, and it is healthy
      unless it has one that reaches the threshold. */
  lemma {:induction false} CountIsStreak(nodes: seq<string>, threshold: int, events: seq<HealthEvent>, n: string)
    requires n in nodes
    ensures var h := ReactAll(Initial(nodes, threshold), events);
            && h.active == h.seeds == nodes && h.threshold == threshold && (forall m :: m in h.status <==> m in nodes)
            && h.status[n] == Status(!Down(threshold, events, n), Streak(threshold, events, n))
  {
    if events != [] {
      var k := |events| - 1;
      CountIsStreak(nodes, threshold, events[..k], n);
      StreakNext(threshold, events[..k], events[k], n);
      ReactKeeps(ReactAll(Initial(nodes, threshold), events[..k]), events[k]);
      assert events == events[..k] + [events[k]];
      hide Cleared, CountFails, Streak;
    }
  }

  /** The nodes offered to the client, told from the events: those with fewer failures in a row than the
      threshold, or all if there is none. */
  lemma OfferedIff(nodes: seq<string>, threshold: int, events: seq<HealthEvent>, n: string)
    requires threshold >= 1
    ensures n in HealthyNodes(ReactAll(Initial(nodes, threshold), events)) <==>
              n in nodes && (Streak(threshold, events, n) < threshold
                             || forall m :: m in nodes ==> Streak(threshold, events, m) >= threshold)
  {
    hide ReactAll, Streak;
    forall m | m in nodes {
      CountIsStreak(nodes, threshold, events, m);
    }
    var h := ReactAll(Initial(nodes, threshold), events);
    if nodes == [] {
      HealthInvariant(nodes, threshold, events);
    } else {
      CountIsStreak(nodes, threshold, events, nodes[0]);
      var healthy := Filter(h.active, h.status);
      assert healthy == [] <==> forall m :: m in nodes ==> m !in healthy by {
        assert healthy != [] ==> healthy[0] in healthy;
      }
    }
  }

  // ----- Picking a node -----

  datatype ClientState = ClientState(nodes: seq<string>, cursor: nat, health: Health)

  /** getNextHealthyNode, with its fallback to plain round-robin. */
  function Pick(c: ClientState): (ClientState, string)
    requires HealthyNodes(c.health) == [] ==> c.cursor < |c.nodes|
  {
    var healthy := HealthyNodes(c.health);
    if |healthy| == 0 then (c.(cursor := (c.cursor + 1) % |c.nodes|), c.nodes[c.cursor])
    else (c.(cursor := (c.cursor + 1) % |healthy|), healthy[c.cursor % |healthy|])
  }

  /** The manager watches the client's nodes, of which there is at least one, all of them are on the
      active list, and the cursor indexes them. */
  ghost predicate Ready(c: ClientState) {
    && c.health.seeds == c.nodes && c.health.active == c.nodes && c.nodes != [] && c.cursor < |c.nodes|
    && forall n :: n in c.health.status ==> n in c.nodes
  }

  lemma PickReady(c: ClientState)
    requires Ready(c)
    ensures HealthyNodes(c.health) != [] && |HealthyNodes(c.health)| <= |c.nodes|
    ensures Ready(Pick(c).0) && Pick(c).0.health == c.health && Pick(c).1 in HealthyNodes(c.health)
  {
    var m := |HealthyNodes(c.health)|;
    assert (c.cursor + 1) % m < m && c.cursor % m < m;
  }

  function PickMany(c: ClientState, n: nat): seq<string>
    requires HealthyNodes(c.health) != []
    decreases n
  {
    if n == 0 then [] else [Pick(c).1] + PickMany(Pick(c).0, n - 1)
  }

  function Mod(x: nat, m: nat): (r: nat)
    requires m > 0
    ensures r < m
  {
    x % m
  }

  lemma PickAt(c: ClientState)
    requires HealthyNodes(c.health) != []
    ensures var (next, node) := Pick(c); var healthy := HealthyNodes(c.health);
            && next.health == c.health && next.cursor == Mod(c.cursor + 1, |healthy|)
            && node == healthy[Mod(c.cursor, |healthy|)]
  {
  }

  lemma {:induction false} PickManyAt(c: ClientState, n: nat, j: nat)
    requires HealthyNodes(c.health) != [] && j < n
    ensures |PickMany(c, n)| == n
    ensures PickMany(c, n)[j] == HealthyNodes(c.health)[Mod(c.cursor + j, |HealthyNodes(c.health)|)]
    decreases n
  {
    hide HealthyNodes, Pick, Mod;
    PickAt(c);
    if n > 1 {
      PickManyAt(Pick(c).0, n - 1, if j == 0 then 0 else j - 1);
    }
    if j > 0 {
      ModStep(c.cursor, j, |HealthyNodes(c.health)|);
    }
  }

  // Division facts kept small: each is one step the solver can take alone.

  lemma MulAtLeast(a: int, m: nat)
    requires a >= 1
    ensures a * m >= m
  {
    assert a * m == (a - 1) * m + m;
  }

  lemma SmallMultiple(a: int, m: int)
    requires 0 <= m && -m < a * m < m
    ensures a == 0
  {
    assert (-a) * m == -(a * m);
    if a >= 1 {
      MulAtLeast(a, m);
    } else if a <= -1 {
      MulAtLeast(-a, m);
    }
  }

  lemma Distribute(q: int, d: int, m: int)
    ensures q * m - d * m == (q - d) * m
  {
  }

  lemma DivDef(x: int, m: nat)
    requires m > 0
    ensures x == (x / m) * m + x % m && 0 <= x % m < m
  {
  }

  lemma ModIs(x: int, q: int, r: int, m: nat)
    requires 0 <= r < m && x == q * m + r
    ensures x % m == r
  {
    DivDef(x, m);
    Distribute(q, x / m, m);
    SmallMultiple(q - x / m, m);
  }

  /** Reducing first and adding later comes to the same. */
  lemma ModAdd(x: nat, y: nat, m: nat)
    requires 0 < m
    ensures (x % m + y) % m == (x + y) % m
  {
    var s := x % m + y;
    DivDef(x, m);
    DivDef(s, m);
    Distribute(x / m + s / m, x / m, m);
    ModIs(x + y, x / m + s / m, s % m, m);
  }

  lemma ModStep(x: nat, j: nat, m: nat)
    requires 0 < j && 0 < m
    ensures Mod(Mod(x + 1, m) + (j - 1), m) == Mod(x + j, m)
  {
    ModAdd(x + 1, j - 1, m);
  }

  /** While the healthy list stays as it is, its length many consecutive picks are that list
      rotated: each entry exactly once, wherever the cursor stands. */
  lemma FairRotation(c: ClientState)
    requires HealthyNodes(c.health) != []
    ensures var healthy := HealthyNodes(c.health); var r := c.cursor % |healthy|;
            PickMany(c, |healthy|) == healthy[r..] + healthy[..r]
  {
    var healthy := HealthyNodes(c.health);
    var m, r := |healthy|, c.cursor % |healthy|;
    var rotated := healthy[r..] + healthy[..r];
    PickManyAt(c, m, 0);
    forall j | 0 <= j < m ensures PickMany(c, m)[j] == rotated[j] {
      PickManyAt(c, m, j);
      RotateAt(c.cursor, j, m);
    }
  }

  lemma RotateAt(x: nat, j: nat, m: nat)
    requires j < m
    ensures (x + j) % m == if x % m + j < m then x % m + j else x % m + j - m
  {
    ModAdd(x, j, m);
    DivDef(x, m);
    if x % m + j < m {
      ModIs(x % m + j, 0, x % m + j, m);
    } else {
      ModIs(x % m + j, 1, x % m + j - m, m);
    }
  }

  // ----- Retrying -----

  /** Whether the operation succeeds at a node on a given attempt. */
  type Operation = (nat, string) -> bool

  datatype Retried = Retried(client: ClientState, ok: bool, failed: nat)

  function AfterFailure(c: ClientState): ClientState
    requires Ready(c)
  {
    Pick(c).0.(health := Fail(c.health, Pick(c).1))
  }

  function AfterSuccess(c: ClientState): ClientState
    requires Ready(c)
  {
    Pick(c).0.(health := Succeed(c.health, Pick(c).1))
  }

  /** What happens to a client: an attempt at the next healthy node, or a background check. */
  datatype ClientEvent = Tried(ok: bool) | Probed(node: string, up: bool)

  function ClientStep(c: ClientState, e: ClientEvent): ClientState
    requires Ready(c)
  {
    match e
    case Tried(ok) => if ok then AfterSuccess(c) else AfterFailure(c)
    case Probed(node, up) => c.(health := Check(c.health, node, up))
  }

  /** What the node manager is told of an event. */
  function Report(c: ClientState, e: ClientEvent): HealthEvent
    requires Ready(c)
  {
    match e
    case Tried(ok) => if ok then Success(Pick(c).1) else Failure(Pick(c).1)
    case Probed(node, up) => Checked(node, up)
  }

  /** An attempt moves the cursor as a pick does, a check leaves it; both are reported. */
  lemma StepReports(c: ClientState, e: ClientEvent)
    requires Ready(c)
    ensures ClientStep(c, e) == (if e.Tried? then Pick(c).0 else c).(health := React(c.health, Report(c, e)))
  {
    PickReady(c);
    hide HealthyNodes, Fail, Succeed, Check;
  }

  lemma StepReady(c: ClientState, e: ClientEvent)
    requires Ready(c)
    ensures var r := ClientStep(c, e);
            && Ready(r) && r.nodes == c.nodes && r.health.threshold == c.health.threshold
            && (Sound(c.health) && c.health.threshold >= 1 ==> Sound(r.health))
  {
    PickReady(c);
    StepReports(c, e);
    ReactKeeps(c.health, Report(c, e));
    hide Pick, HealthyNodes, React, Report, ClientStep, Sound;
  }

  function RunClient(c: ClientState, events: seq<ClientEvent>): (r: ClientState)
    requires Ready(c)
    ensures Ready(r) && r.nodes == c.nodes && r.health.threshold == c.health.threshold
    ensures Sound(c.health) && c.health.threshold >= 1 ==> Sound(r.health)
  {
    if events == [] then c
    else
      var before := RunClient(c, events[..|events| - 1]);
      StepReady(before, events[|events| - 1]);
      ClientStep(before, events[|events| - 1])
  }

  /** From the constructor on, whatever attempts and checks follow and whatever the threshold, the
      cursor indexes the nodes and the active list is the seed list; with a positive threshold each
      node is healthy exactly below it. */
  lemma ClientInvariant(nodes: seq<string>, threshold: int, events: seq<ClientEvent>)
    requires nodes != []
    ensures var c := RunClient(ClientState(nodes, 0, Initial(nodes, threshold)), events);
            && c.nodes == nodes == c.health.seeds == c.health.active && c.cursor < |nodes|
            && (threshold >= 1 ==> Sound(c.health))
  {
    InitialSoundIff(nodes, threshold);
  }

  /** All that was reported over a run. */
  function Reports(c: ClientState, events: seq<ClientEvent>): seq<HealthEvent>
    requires Ready(c)
  {
    if events == [] then []
    else
      var front := events[..|events| - 1];
      Reports(c, front) + [Report(RunClient(c, front), events[|events| - 1])]
  }

  lemma {:induction false} RunReports(c: ClientState, events: seq<ClientEvent>)
    requires Ready(c)
    ensures RunClient(c, events).health == ReactAll(c.health, Reports(c, events))
  {
    if events != [] {
      var front, e := events[..|events| - 1], events[|events| - 1];
      RunReports(c, front);
      StepReports(RunClient(c, front), e);
      var told := Reports(c, events);
      assert told[..|told| - 1] == Reports(c, front);
      hide React, Report, ClientStep, Pick;
    }
  }

  /** From the constructor on, a node's counter and health are the streak of what was reported of it. */
  lemma ClientStreak(nodes: seq<string>, threshold: int, events: seq<ClientEvent>, n: string)
    requires n in nodes
    ensures var start := ClientState(nodes, 0, Initial(nodes, threshold));
            var c := RunClient(start, events); var told := Reports(start, events);
            && n in c.health.status
            && c.health.status[n] == Status(!Down(threshold, told, n), Streak(threshold, told, n))
  {
    var start := ClientState(nodes, 0, Initial(nodes, threshold));
    hide Down, Streak, ReactAll;
    RunReports(start, events);
    CountIsStreak(nodes, threshold, Reports(start, events), n);
  }

  /** executeWithRetry from attempt number `attempt` on: every error counts as a network error. */
  function Retry(c: ClientState, op: Operation, attempt: nat, retryCount: nat): Retried
    requires Ready(c)
    decreases retryCount - attempt
  {
    if attempt >= retryCount then Retried(c, false, 0)
    else
      PickReady(c);
      var (picked, node) := Pick(c);
      if op(attempt, node) then Retried(AfterSuccess(c), true, 0)
      else
        var r := Retry(AfterFailure(c), op, attempt + 1, retryCount);
        Retried(r.client, r.ok, r.failed + 1)
  }

  /** How many more failures the other healthy nodes can take before they are all marked. */
  function Budget(nodes: seq<string>, h: Health, good: string): int {
    if nodes == [] then 0
    else (if nodes[0] != good && nodes[0] in h.status && h.status[nodes[0]].healthy
          then h.threshold - h.status[nodes[0]].failures else 0)
         + Budget(nodes[1..], h, good)
  }

  lemma {:induction false} BudgetNat(nodes: seq<string>, h: Health, good: string)
    requires forall n :: n in h.status && h.status[n].healthy ==> h.status[n].failures < h.threshold
    ensures Budget(nodes, h, good) >= 0
  {
    if nodes != [] {
      BudgetNat(nodes[1..], h, good);
    }
  }

  /** A failure spends at least one unit for every listing of the node. */
  lemma {:induction false} BudgetSpent(nodes: seq<string>, h: Health, good: string, node: string)
    requires Sound(h) && node != good && node in h.status && h.status[node].healthy
    ensures Budget(nodes, Fail(h, node), good) <= Budget(nodes, h, good) - (if node in nodes then 1 else 0)
  {
    if nodes != [] {
      BudgetSpent(nodes[1..], h, good, node);
      assert node in nodes <==> node == nodes[0] || node in nodes[1..];
    }
  }

  /** A failed attempt spends budget and leaves the good node healthy. */
  lemma FailureSpends(c: ClientState, good: string)
    requires Ready(c) && Sound(c.health) && good in c.nodes && c.health.status[good].healthy && Pick(c).1 != good
    ensures var d := AfterFailure(c);
            && Ready(d) && Sound(d.health) && d.nodes == c.nodes && d.health.status[good].healthy
            && Budget(d.nodes, d.health, good) <= Budget(c.nodes, c.health, good) - 1
  {
    PickReady(c);
    assert good in Filter(c.health.active, c.health.status);
    assert Pick(c).1 in c.nodes && c.health.status[Pick(c).1].healthy;
    BudgetSpent(c.nodes, c.health, good, Pick(c).1);
  }

  lemma RetryStep(c: ClientState, op: Operation, attempt: nat, retryCount: nat)
    requires Ready(c) && attempt < retryCount
    ensures var r := Retry(c, op, attempt, retryCount);
            && Ready(AfterFailure(c))
            && r == if op(attempt, Pick(c).1) then Retried(AfterSuccess(c), true, 0)
                    else
                      var next := Retry(AfterFailure(c), op, attempt + 1, retryCount);
                      next.(failed := next.failed + 1)
  {
    PickReady(c);
  }

  lemma RetryDone(c: ClientState, op: Operation, attempt: nat, retryCount: nat)
    requires Ready(c) && attempt >= retryCount
    ensures Retry(c, op, attempt, retryCount) == Retried(c, false, 0)
  {
  }

  /** So many failed attempts, and one that succeeded if `ok`. */
  function Attempts(failed: nat, ok: bool): seq<ClientEvent> {
    if ok then Attempts(failed, false) + [Tried(true)]
    else if failed == 0 then []
    else [Tried(false)] + Attempts(failed - 1, false)
  }

  lemma AttemptsFirst(failed: nat, ok: bool)
    ensures Attempts(failed + 1, ok) == [Tried(false)] + Attempts(failed, ok)
  {
  }

  lemma {:induction false} RunFirst(c: ClientState, e: ClientEvent, events: seq<ClientEvent>)
    requires Ready(c)
    ensures Ready(ClientStep(c, e)) && RunClient(c, [e] + events) == RunClient(ClientStep(c, e), events)
    decreases |events|
  {
    StepReady(c, e);
    hide ClientStep, Ready;
    var all := [e] + events;
    if events == [] {
      assert all == [e] && all[..0] == [];
      assert RunClient(c, []) == c;
    } else {
      assert all[..|all| - 1] == [e] + events[..|events| - 1];
      RunFirst(c, e, events[..|events| - 1]);
    }
  }

  /** The node asked after so many failed attempts. */
  function Asked(c: ClientState, failed: nat): string
    requires Ready(c)
  {
    Pick(RunClient(c, Attempts(failed, false))).1
  }

  /** Attempt number `attempt + i`, after `i` failures from here, succeeds. */
  predicate Answers(c: ClientState, op: Operation, attempt: nat, i: nat)
    requires Ready(c)
  {
    op(attempt + i, Asked(c, i))
  }

  /** Attempts at the nodes picked one after another, until one succeeds or all the retries are used up,
      leave the client as it is in `r`. */
  ghost predicate Ran(c: ClientState, op: Operation, attempt: nat, retryCount: nat, r: Retried)
    requires Ready(c)
  {
    && r.client == RunClient(c, Attempts(r.failed, r.ok))
    && attempt + r.failed <= retryCount && (r.ok <==> attempt + r.failed < retryCount)
    && (r.ok ==> Answers(c, op, attempt, r.failed))
    && forall i: nat :: i < r.failed ==> !Answers(c, op, attempt, i)
  }

  lemma {:induction false} RetryIsRun(c: ClientState, op: Operation, attempt: nat, retryCount: nat)
    requires Ready(c) && attempt <= retryCount
    ensures Ran(c, op, attempt, retryCount, Retry(c, op, attempt, retryCount))
    decreases retryCount - attempt
  {
    AskedFirst(c);
    hide RunClient, Pick, AfterFailure, AfterSuccess, Ready, Retry, Ran;
    if attempt == retryCount {
      RetryDone(c, op, attempt, retryCount);
      RanAtOnce(c, op, attempt, retryCount, false);
    } else {
      RetryStep(c, op, attempt, retryCount);
      if op(attempt, Pick(c).1) {
        RanAtOnce(c, op, attempt, retryCount, true);
      } else {
        RetryIsRun(AfterFailure(c), op, attempt + 1, retryCount);
        RanNext(c, op, attempt, retryCount, Retry(AfterFailure(c), op, attempt + 1, retryCount));
      }
    }
  }

  lemma RanAtOnce(c: ClientState, op: Operation, attempt: nat, retryCount: nat, ok: bool)
    requires Ready(c) && Ready(AfterSuccess(c))
    requires if ok then attempt < retryCount && op(attempt, Pick(c).1) else attempt == retryCount
    ensures Ran(c, op, attempt, retryCount, Retried(if ok then AfterSuccess(c) else c, ok, 0))
  {
    AskedFirst(c);
    hide RunClient, Pick, AfterFailure, AfterSuccess, Ready, Asked, Attempts;
  }

  lemma RanNext(c: ClientState, op: Operation, attempt: nat, retryCount: nat, r: Retried)
    requires Ready(c) && attempt < retryCount && !op(attempt, Pick(c).1)
    requires Ready(AfterFailure(c)) && Ran(AfterFailure(c), op, attempt + 1, retryCount, r)
    ensures Ran(c, op, attempt, retryCount, r.(failed := r.failed + 1))
  {
    hide RunClient, Pick, AfterFailure, AfterSuccess, Ready, Asked, Attempts, Answers;
    RunAfterFailure(c, r.failed, r.ok);
    AnswersFirst(c, op, attempt);
    AnswersNext(c, op, attempt, r.failed);
    forall i: nat | i < r.failed + 1 ensures !Answers(c, op, attempt, i) {
      if i > 0 {
        AnswersNext(c, op, attempt, i - 1);
      }
    }
  }

  lemma AnswersFirst(c: ClientState, op: Operation, attempt: nat)
    requires Ready(c)
    ensures Answers(c, op, attempt, 0) == op(attempt, Pick(c).1)
  {
    AskedFirst(c);
    hide Pick, Asked, Ready;
  }

  lemma AnswersNext(c: ClientState, op: Operation, attempt: nat, i: nat)
    requires Ready(c) && Ready(AfterFailure(c))
    ensures Answers(c, op, attempt, i + 1) == Answers(AfterFailure(c), op, attempt + 1, i)
  {
    RunAfterFailure(c, i, false);
    assert attempt + (i + 1) == attempt + 1 + i;
    hide Asked, Ready, AfterFailure;
  }

  lemma AskedFirst(c: ClientState)
    requires Ready(c)
    ensures Ready(AfterSuccess(c)) && Ready(AfterFailure(c)) && Asked(c, 0) == Pick(c).1
    ensures RunClient(c, Attempts(0, false)) == c && RunClient(c, Attempts(0, true)) == AfterSuccess(c)
  {
    StepReady(c, Tried(true));
    StepReady(c, Tried(false));
    hide Ready, Pick, HealthyNodes, AfterSuccess, AfterFailure;
    assert [Tried(true)][..0] == [];
    assert RunClient(c, []) == c;
  }

  lemma RunAfterFailure(c: ClientState, failed: nat, ok: bool)
    requires Ready(c) && Ready(AfterFailure(c))
    ensures RunClient(c, Attempts(failed + 1, ok)) == RunClient(AfterFailure(c), Attempts(failed, ok))
    ensures Asked(c, failed + 1) == Asked(AfterFailure(c), failed)
  {
    hide RunClient, Ready, Pick, AfterFailure;
    AttemptsFirst(failed, ok);
    AttemptsFirst(failed, false);
    RunFirst(c, Tried(false), Attempts(failed, ok));
    RunFirst(c, Tried(false), Attempts(failed, false));
  }

  lemma BudgetReady(c: ClientState, good: string)
    requires Sound(c.health)
    ensures Budget(c.nodes, c.health, good) >= 0
  {
    BudgetNat(c.nodes, c.health, good);
  }

  /** With one healthy node that always answers, the failed attempts are at most the budget of the
      others, so the call succeeds whenever more attempts than that are allowed. */
  lemma {:induction false} RetryBound(c: ClientState, op: Operation, attempt: nat, retryCount: nat, good: string)
    requires Ready(c) && Sound(c.health) && good in c.nodes && c.health.status[good].healthy
    requires forall i: nat :: op(i, good)
    ensures var r := Retry(c, op, attempt, retryCount); var budget := Budget(c.nodes, c.health, good);
            && r.failed <= budget
            && (retryCount - attempt > budget ==> r.ok)
    decreases retryCount - attempt
  {
    hide Budget, Fail, Pick, AfterFailure, AfterSuccess, Filter, HealthyNodes, Retry;
    BudgetReady(c, good);
    if attempt < retryCount {
      RetryStep(c, op, attempt, retryCount);
      if !op(attempt, Pick(c).1) {
        FailureSpends(c, good);
        RetryBound(AfterFailure(c), op, attempt + 1, retryCount, good);
      }
    } else {
      RetryDone(c, op, attempt, retryCount);
    }
  }

  /** The bound cannot be lowered: one bad node listed first costs its whole budget of one, and a
      retry count equal to the budget is not enough. */
  lemma RetryBoundTight()
    ensures var c := ClientState(["b", "g"], 0, Initial(["b", "g"], 1)); var op := (i: nat, n: string) => n == "g";
            && Ready(c) && Budget(c.nodes, c.health, "g") == 1
            && Retry(c, op, 0, 2).failed == 1 && !Retry(c, op, 0, 1).ok
  {
    var h := Initial(["b", "g"], 1);
    var c := ClientState(["b", "g"], 0, h);
    var op := (i: nat, n: string) => n == "g";
    InitialSoundIff(["b", "g"], 1);
    assert Filter(["g"], h.status) == ["g"] && Filter(h.active, h.status) == ["b", "g"];
    assert Budget(["b", "g"][1..], h, "g") == 0;
    assert Pick(c).1 == "b";
    RetryStep(c, op, 0, 1);
    RetryStep(c, op, 0, 2);
    RetryBound(c, op, 0, 2, "g");
  }

  // ----- The client objects -----

  lemma {:induction false} FilterAppend(a: seq<string>, n: string, status: map<string, Status>)
    ensures Filter(a + [n], status) == Filter(a, status) + (if n in status && status[n].healthy then [n] else [])
  {
    if a == [] {
      assert [] + [n] == [n] && [n][1..] == [];
    } else {
      assert (a + [n])[1..] == a[1..] + [n];
      FilterAppend(a[1..], n, status);
    }
  }

  class NodeManager {
    const failureThreshold: int
    var seedNodes: seq<string>
    var activeNodes: seq<string>
    var nodeStatus: map<string, Status>

    ghost function State(): Health
      reads this
    {
      Health(seedNodes, activeNodes, nodeStatus, failureThreshold)
    }

    constructor (nodes: seq<string>, failureThreshold: int)
      ensures State() == Initial(nodes, failureThreshold)
    {
      this.failureThreshold := failureThreshold;
      seedNodes, activeNodes, nodeStatus := nodes, nodes, map[];
      new;
      for i := 0 to |nodes|
        invariant seedNodes == nodes && activeNodes == nodes
        invariant nodeStatus == map n | n in nodes[..i] :: Status(true, 0)
      {
        assert nodes[..i + 1] == nodes[..i] + [nodes[i]];
        nodeStatus := nodeStatus[nodes[i] := Status(true, 0)];
      }
      assert nodes[..|nodes|] == nodes;
    }

    method GetHealthyNodes() returns (r: seq<string>)
      ensures r == HealthyNodes(State())
    {
      r := [];
      for i := 0 to |activeNodes|
        invariant r == Filter(activeNodes[..i], nodeStatus)
      {
        var node := activeNodes[i];
        FilterAppend(activeNodes[..i], node, nodeStatus);
        assert activeNodes[..i + 1] == activeNodes[..i] + [node];
        if node in nodeStatus && nodeStatus[node].healthy {
          r := r + [node];
        }
      }
      assert activeNodes[..|activeNodes|] == activeNodes;
      if |r| == 0 {
        r := seedNodes;
      }
    }

    method MarkSuccess(node: string)
      modifies this`nodeStatus, this`activeNodes
      ensures State() == Succeed(old(State()), node)
    {
      if node in nodeStatus {
        nodeStatus := nodeStatus[node := Status(true, 0)];
        EnsureNodeInActiveList(node);
      }
    }

    method MarkFailure(node: string)
      modifies this`nodeStatus
      ensures State() == Fail(old(State()), node)
    {
      if node in nodeStatus {
        var status := nodeStatus[node].(failures := nodeStatus[node].failures + 1);
        if status.failures >= failureThreshold {
          status := status.(healthy := false);
        }
        nodeStatus := nodeStatus[node := status];
      }
    }

    method EnsureNodeInActiveList(node: string)
      modifies this`activeNodes
      ensures activeNodes == Ensure(old(activeNodes), node)
    {
      if node !in activeNodes {
        activeNodes := activeNodes + [node];
      }
    }

    /** `up` is what the health endpoint answered. */
    method CheckSingleNode(node: string, up: bool)
      modifies this`nodeStatus, this`activeNodes
      ensures State() == Check(old(State()), node, up)
    {
      if node !in nodeStatus {
        return;
      }
      if !up {
        MarkFailure(node);
      } else if !nodeStatus[node].healthy {
        nodeStatus := nodeStatus[node := Status(true, 0)];
        EnsureNodeInActiveList(node);
      }
    }
  }

  class DistributedClient {
    const nodes: seq<string>
    const retryCount: int
    const nodeManager: NodeManager
    var currentNode: nat

    ghost function State(): ClientState
      reads this, nodeManager
    {
      ClientState(nodes, currentNode, nodeManager.State())
    }

    constructor (nodes: seq<string>, retryCount: int, failureThreshold: int)
      ensures fresh(nodeManager) && this.retryCount == (if retryCount == 0 then 3 else retryCount)
      ensures State() == ClientState(nodes, 0, Initial(nodes, if failureThreshold == 0 then 3 else failureThreshold))
    {
      this.nodes := nodes;
      this.retryCount := if retryCount == 0 then 3 else retryCount;
      nodeManager := new NodeManager(nodes, if failureThreshold == 0 then 3 else failureThreshold);
      currentNode := 0;
    }

    method GetNextNode() returns (node: string)
      requires currentNode < |nodes|
      modifies this`currentNode
      ensures node == nodes[old(currentNode)] && currentNode == (old(currentNode) + 1) % |nodes|
    {
      node := nodes[currentNode];
      currentNode := (currentNode + 1) % |nodes|;
    }

    method GetNextHealthyNode() returns (node: string)
      requires HealthyNodes(nodeManager.State()) == [] ==> currentNode < |nodes|
      modifies this`currentNode
      ensures (State(), node) == Pick(old(State()))
    {
      var healthy := nodeManager.GetHealthyNodes();
      if |healthy| == 0 {
        node := GetNextNode();
      } else {
        node := healthy[currentNode % |healthy|];
        currentNode := (currentNode + 1) % |healthy|;
      }
    }

    /** Runs the operation, at most retryCount times; `failed` counts the attempts that failed. */
    method ExecuteWithRetry(op: Operation) returns (ok: bool, ghost failed: nat)
      requires Ready(State())
      modifies this`currentNode, nodeManager
      ensures Retry(old(State()), op, 0, if retryCount < 0 then 0 else retryCount) == Retried(State(), ok, failed)
    {
      hide Retry, Fail, Succeed, Filter;
      ghost var limit: nat := if retryCount < 0 then 0 else retryCount;
      ghost var start := State();
      failed := 0;
      var attempt := 0;
      while attempt < retryCount
        invariant 0 <= attempt <= limit && Ready(State())
        invariant var r := Retry(State(), op, attempt, limit);
                  Retry(start, op, 0, limit) == Retried(r.client, r.ok, r.failed + failed)
      {
        ghost var before := State();
        PickReady(before);
        RetryStep(before, op, attempt, limit);
        var node := GetNextHealthyNode();
        if op(attempt, node) {
          nodeManager.MarkSuccess(node);
          assert State() == AfterSuccess(before);
          return true, failed;
        }
        nodeManager.MarkFailure(node);
        assert State() == AfterFailure(before);
        failed := failed + 1;
        attempt := attempt + 1;
      }
      RetryDone(State(), op, attempt, limit);
      ok := false;
    }
  }
}
