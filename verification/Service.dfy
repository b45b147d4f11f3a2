/**
 What the accept thread and the pools can do: from every reachable state a client can be taken in,
 looked up and let go, and the server can be brought down with every socket closed. The invariants
 of Ownership say what never happens; these runs say that service, and its end, are never shut out.
 */
module Service {
  import opened Text
  import opened PoolManagers
  import opened Ownership

  // ---------- Runs from a state ----------

  /** Some run leads from one state to the other. */
  ghost predicate Reaches(s: State, t: State) {
    exists states, steps :: IsRun(states, steps) && states[0] == s && states[|steps|] == t
  }

  lemma ReachesSelf(s: State)
    ensures Reaches(s, s)
  {
    var states, steps: seq<Step> := [s], [];
    assert IsRun(states, steps);
  }

  lemma ReachesNext(s: State, step: Step)
    requires Enabled(s, step)
    ensures Reaches(s, Next(s, step))
  {
    var states, steps := [s, Next(s, step)], [step];
    assert IsRun(states, steps);
  }

  lemma ReachesOn(s: State, t: State, u: State)
    requires Reaches(s, t) && Reaches(t, u)
    ensures Reaches(s, u)
  {
    var before, first :| IsRun(before, first) && before[0] == s && before[|first|] == t;
    var after, second :| IsRun(after, second) && after[0] == t && after[|second|] == u;
    var all, path := before + after[1..], first + second;
    forall i | 0 <= i < |path| ensures Enabled(all[i], path[i]) && all[i + 1] == Next(all[i], path[i]) {
      if i < |first| {
        assert Enabled(before[i], first[i]) && before[i + 1] == Next(before[i], first[i]);
      } else {
        var j := i - |first|;
        assert Enabled(after[j], second[j]) && after[j + 1] == Next(after[j], second[j]);
      }
    }
    assert IsRun(all, path) && all[|path|] == u;
  }

  lemma ReachableOn(s: State, t: State, n: nat)
    requires Reachable(s, n) && Reaches(s, t)
    ensures Reachable(t, n)
  {
    var states, steps :| IsRun(states, steps) && states[0] == Init(n) && states[|steps|] == s;
    assert Reaches(Init(n), s);
    ReachesOn(Init(n), s, t);
  }

  /** One step more: where it leads, and that the invariant still holds there. */
  lemma Take(s: State, t: State, step: Step) returns (u: State)
    requires Inv(t) && Reaches(s, t) && Enabled(t, step)
    ensures u == Next(t, step) && Inv(u) && Reaches(s, u)
  {
    u := Next(t, step);
    StepKeepsInv(t, step);
    ReachesNext(t, step);
    ReachesOn(s, t, u);
  }

  // ---------- Taking a client in ----------

  /** The state once `fd` has been accepted and given to the pool whose turn it is. */
  function TakenIn(s: State, fd: Fd): State
    requires s.nextPool < |s.pools|
  {
    var g, p := s.nextGen, s.nextPool;
    var pool := s.pools[p];
    s.(open := s.open[fd := g], nextGen := g + 1,
       pools := s.pools[p := pool.(clients := pool.clients[fd := g], registered := pool.registered[fd := g])],
       nextPool := if p + 1 == |s.pools| then 0 else p + 1)
  }

  lemma AcceptRun(s: State, fd: Fd)
    requires Inv(s) && s.running && s.accepting == Idle && s.pools != [] && fd !in s.open
    ensures s.nextPool < |s.pools| && Reaches(s, TakenIn(s, fd)) && Inv(TakenIn(s, fd))
  {
    var t := HoldRun(s, fd);
    var u := HandOver(s, t, fd);
    assert u.pools == TakenIn(s, fd).pools;
    assert u == TakenIn(s, fd);
  }

  /** Test the flag, accept, and choose a pool. */
  lemma HoldRun(s: State, fd: Fd) returns (t: State)
    requires Inv(s) && s.running && s.accepting == Idle && s.pools != [] && fd !in s.open
    ensures s.nextPool < |s.pools| && Reaches(s, t) && Inv(t)
    ensures t == s.(open := s.open[fd := s.nextGen], nextGen := s.nextGen + 1,
                    accepting := Chosen(fd, s.nextGen, s.nextPool),
                    nextPool := if s.nextPool + 1 == |s.pools| then 0 else s.nextPool + 1)
  {
    ReachesSelf(s);
    t := Take(s, s, TestFlag);
    t := Take(s, t, Accept(fd));
    t := Take(s, t, Select);
  }

  /** Give the client to the chosen pool and its poller. */
  lemma HandOver(s: State, t: State, fd: Fd) returns (u: State)
    requires Inv(t) && Reaches(s, t) && t.accepting.Chosen? && t.accepting.fd == fd
    ensures Reaches(s, u) && Inv(u)
    ensures var Chosen(_, g, p) := t.accepting;
            && p < |t.pools|
            && var pool := t.pools[p];
               u == t.(accepting := Idle,
                       pools := t.pools[p := pool.(clients := pool.clients[fd := g],
                                                   registered := pool.registered[fd := g])])
  {
    InsertFindsRoom(t);
    var Chosen(_, g, p) := t.accepting;
    var pool := t.pools[p];
    var v := Take(s, t, Insert);
    assert v.pools[p] == pool.(clients := pool.clients[fd := g]);
    u := Take(s, v, Register);
    assert u.pools == t.pools[p := pool.(clients := pool.clients[fd := g], registered := pool.registered[fd := g])];
  }

  // ---------- A pool at rest ----------

  predicate AtRest(pool: Pool) { pool.batch == [] && pool.handling == Nothing }

  /** Everything but one pool's work in hand, and what that work closes, is as it was. */
  ghost predicate OnlyWorked(s: State, t: State, p: nat) {
    && p < |s.pools| && |t.pools| == |s.pools|
    && t.accepting == s.accepting && t.running == s.running && t.nextGen == s.nextGen && t.nextPool == s.nextPool
    && t.pools == s.pools[p := t.pools[p]]
    && t.pools[p].registered == s.pools[p].registered && t.pools[p].running == s.pools[p].running
  }

  function Work(pool: Pool): nat { 2 * |pool.batch| + if pool.handling == Nothing then 0 else 1 }

  /** The step that a pool's thread with work in hand takes next, if it drops nobody. */
  function NextWork(pool: Pool, p: nat): Step {
    if pool.handling.Got? then Keep(p) else if pool.handling.Deregistered? then Remove(p) else Begin(p)
  }

  lemma WorkStep(s: State, p: nat)
    requires Inv(s) && p < |s.pools| && !AtRest(s.pools[p])
    ensures var step := NextWork(s.pools[p], p);
            Enabled(s, step) && OnlyWorked(s, Next(s, step), p) && Work(Next(s, step).pools[p]) < Work(s.pools[p])
  {
  }

  /** A pool's thread can finish what it has in hand. */
  lemma {:induction false} Finish(s: State, t: State, p: nat) returns (u: State)
    requires Inv(t) && Reaches(s, t) && p < |t.pools|
    ensures Reaches(s, u) && Inv(u) && OnlyWorked(t, u, p) && AtRest(u.pools[p])
    decreases Work(t.pools[p])
  {
    if AtRest(t.pools[p]) {
      u := t;
    } else {
      WorkStep(t, p);
      var v := Take(s, t, NextWork(t.pools[p], p));
      u := Finish(s, v, p);
    }
  }

  // ---------- Letting a client go ----------

  /** A pool at rest can poll a registered client and take up its event. */
  lemma PollsOne(t: State, p: nat, fd: Fd) returns (v: State, u: State)
    requires Inv(t) && p < |t.pools| && AtRest(t.pools[p]) && t.pools[p].running && fd in t.pools[p].registered
    ensures Enabled(t, Poll(p, [fd])) && v == Next(t, Poll(p, [fd]))
    ensures Enabled(v, Begin(p)) && u == Next(v, Begin(p))
    ensures p < |u.pools| && u.open == t.open && u.closed == t.closed && u.pools[p].clients == t.pools[p].clients
    ensures var g := t.pools[p].registered[fd]; u.pools[p].handling == Got(Event(fd, g), Some(g))
  {
    assert PoolOk(t.pools[p]);
    v := Next(t, Poll(p, [fd]));
    u := Next(v, Begin(p));
  }

  /** A registered client can be polled and looked up. */
  lemma LookedUp(s: State, t: State, p: nat, fd: Fd) returns (u: State)
    requires Inv(t) && Reaches(s, t) && p < |t.pools| && AtRest(t.pools[p]) && t.pools[p].running
    requires fd in t.pools[p].registered
    ensures Reaches(s, u) && Inv(u) && p < |u.pools| && u.open == t.open && u.closed == t.closed
    ensures var g := t.pools[p].registered[fd];
            u.pools[p].handling == Got(Event(fd, g), Some(g)) && u.pools[p].clients == t.pools[p].clients
  {
    var v, w := PollsOne(t, p, fd);
    u := Take(s, t, Poll(p, [fd]));
    u := Take(s, u, Begin(p));
  }

  /** And it can be let go: its socket is closed, and no pool knows it any more. */
  lemma LetGo(s: State, t: State, p: nat, e: Event) returns (u: State)
    requires Inv(t) && Reaches(s, t) && p < |t.pools| && t.pools[p].handling == Got(e, Some(e.gen))
    ensures Reaches(s, u) && Inv(u) && u.closed == t.closed + [e.gen] && e.fd !in u.open
    ensures forall q :: 0 <= q < |u.pools| ==> e.fd !in u.pools[q].clients && e.fd !in u.pools[q].registered
  {
    assert PoolOk(t.pools[p]);
    assert Holds(t, PoolThread(p), e.fd);
    var v := Take(s, t, Deregister(p));
    u := Take(s, v, Remove(p));
    NotOpenNotKnown(u, e.fd);
  }

  lemma NotOpenNotKnown(s: State, fd: Fd)
    requires Inv(s) && fd !in s.open
    ensures forall q :: 0 <= q < |s.pools| ==> fd !in s.pools[q].clients && fd !in s.pools[q].registered
  {
    forall q | 0 <= q < |s.pools| ensures fd !in s.pools[q].clients && fd !in s.pools[q].registered {
      assert PoolOk(s.pools[q]);
      assert fd in s.pools[q].clients ==> Holds(s, PoolThread(q), fd);
    }
  }

  // ---------- Main results ----------

  /**
   Service is possible: in every reachable state in which the server runs and its accept thread is
   about to test the flag, any free descriptor can be accepted and becomes a client of exactly the pool
   whose turn it is, which polls it; and from there it can be looked up, and closed and forgotten.
   */
  lemma ServiceIsPossible(s: State, n: nat, fd: Fd) returns (t: State, u: State, v: State)
    requires Reachable(s, n) && s.running && s.accepting == Idle && s.pools != [] && fd !in s.open
    ensures s.nextPool < |s.pools| && t == TakenIn(s, fd) && Reaches(s, t)
    ensures Reaches(t, u) && s.nextPool < |u.pools|
            && u.pools[s.nextPool].handling == Got(Event(fd, s.nextGen), Some(s.nextGen))
            && fd in u.open && u.open[fd] == s.nextGen
    ensures Reaches(t, v) && s.nextGen in v.closed && fd !in v.open
    ensures forall q :: 0 <= q < |v.pools| ==> fd !in v.pools[q].clients && fd !in v.pools[q].registered
  {
    ReachableInv(s, n);
    AcceptRun(s, fd);
    t := TakenIn(s, fd);
    var p := s.nextPool;
    RunningWhileAccepting(t, p);
    ReachesSelf(t);
    var w := Finish(t, t, p);
    u := LookedUp(t, w, p, fd);
    assert PoolOk(u.pools[p]);
    assert Holds(u, PoolThread(p), fd);
    v := LetGo(t, u, p, Event(fd, s.nextGen));
  }

  lemma RunningWhileAccepting(s: State, p: nat)
    requires Inv(s) && s.accepting != Done && p < |s.pools|
    ensures s.pools[p].running
  {
  }

  /** The accept thread is over only once the flag is down. */
  lemma DoneOnlyWhenDown(s: State, n: nat)
    requires Reachable(s, n) && s.accepting == Done
    ensures !s.running
  {
    var states, steps :| IsRun(states, steps) && states[0] == Init(n) && states[|steps|] == s;
    DoneInRun(states, steps, |steps|);
  }

  lemma {:induction false} DoneInRun(states: seq<State>, steps: seq<Step>, i: nat)
    requires IsRun(states, steps) && i < |states| && (states[0].accepting == Done ==> !states[0].running)
    ensures states[i].accepting == Done ==> !states[i].running
  {
    if i > 0 {
      DoneInRun(states, steps, i - 1);
      DoneStep(states[i - 1], steps[i - 1]);
    }
  }

  lemma DoneStep(s: State, step: Step)
    requires Enabled(s, step) && (s.accepting == Done ==> !s.running)
    ensures Next(s, step).accepting == Done ==> !Next(s, step).running
    ensures Next(s, step).accepting == Done && s.accepting != Done ==> step == TestFlag && !s.running
  {
  }

  // ---------- Bringing the server down ----------

  /** The accept thread can finish the client it holds and come back to test the flag. */
  lemma BackToTest(s: State, t: State) returns (u: State)
    requires Inv(t) && Reaches(s, t) && t.accepting != Done
    ensures Reaches(s, u) && Inv(u) && u.accepting == Idle && u.running == t.running
  {
    u := t;
    if u.accepting == Waiting { u := Take(s, u, NoClient); }
    if u.accepting.Holding? { u := Take(s, u, Select); }
    if u.accepting.Chosen? { u := Take(s, u, Insert); }
    if u.accepting.Inserted? { u := Take(s, u, Register); }
  }

  lemma StopAccepting(s: State, n: nat) returns (u: State)
    requires Reachable(s, n)
    ensures Reaches(s, u) && Inv(u) && u.accepting == Done && !u.running
  {
    ReachableInv(s, n);
    ReachesSelf(s);
    u := s;
    if u.accepting == Done {
      DoneOnlyWhenDown(s, n);
    } else {
      if u.running { u := Take(s, u, StopServer); }
      u := BackToTest(s, u);
      u := Take(s, u, TestFlag);
    }
  }

  /** The pools from `k` on can be joined one by one. */
  lemma {:induction false} JoinFrom(s: State, t: State, k: nat) returns (u: State)
    requires Inv(t) && Reaches(s, t) && t.accepting == Done && k <= |t.pools|
    requires forall q :: 0 <= q < k ==> !t.pools[q].running
    ensures Reaches(s, u) && Inv(u) && u.accepting == Done && forall q :: 0 <= q < |u.pools| ==> !u.pools[q].running
    decreases |t.pools| - k
  {
    if k == |t.pools| {
      u := t;
    } else {
      var v := Finish(s, t, k);
      if v.pools[k].running { v := Take(s, v, JoinPool(k)); }
      u := JoinFrom(s, v, k + 1);
    }
  }

  function ClientCount(pools: seq<Pool>): nat {
    if pools == [] then 0 else ClientCount(pools[..|pools| - 1]) + |pools[|pools| - 1].clients|
  }

  lemma {:induction false} CountUpdate(pools: seq<Pool>, p: nat, pool: Pool)
    requires p < |pools|
    ensures ClientCount(pools[p := pool]) + |pools[p].clients| == ClientCount(pools) + |pool.clients|
    decreases |pools|
  {
    var n := |pools| - 1;
    if p < n {
      CountUpdate(pools[..n], p, pool);
      assert pools[p := pool][..n] == pools[..n][p := pool];
    } else {
      assert pools[p := pool][..n] == pools[..n];
    }
  }

  lemma OneLess(m: map<Fd, Gen>, fd: Fd)
    requires fd in m
    ensures |m - {fd}| < |m|
  {
    var rest := m - {fd};
    assert m.Keys == rest.Keys + {fd};
    assert |m.Keys| == |m| && |rest.Keys| == |rest|;
  }

  lemma DestroyedPool(t: State, p: nat, fd: Fd)
    requires Enabled(t, Destroy(p, fd))
    ensures var u := Next(t, Destroy(p, fd));
            && |u.pools| == |t.pools| && u.pools == t.pools[p := u.pools[p]] && u.accepting == t.accepting
            && u.pools[p].clients == t.pools[p].clients - {fd} && u.pools[p].running == t.pools[p].running
  {
  }

  lemma DestroyOne(t: State, p: nat, fd: Fd)
    requires Enabled(t, Destroy(p, fd))
    ensures var u := Next(t, Destroy(p, fd));
            && ClientCount(u.pools) < ClientCount(t.pools) && u.accepting == t.accepting
            && |u.pools| == |t.pools| && forall q :: 0 <= q < |u.pools| ==> !u.pools[q].running
  {
    DestroyedPool(t, p, fd);
    OneLess(t.pools[p].clients, fd);
    CountUpdate(t.pools, p, Next(t, Destroy(p, fd)).pools[p]);
  }

  /** Joined pools can be destroyed with their clients. */
  lemma {:induction false} DestroyAll(s: State, t: State) returns (u: State)
    requires Inv(t) && Reaches(s, t) && t.accepting == Done && forall q :: 0 <= q < |t.pools| ==> !t.pools[q].running
    ensures Reaches(s, u) && Inv(u) && u.accepting == Done && forall q :: 0 <= q < |u.pools| ==> u.pools[q].clients == map[]
    decreases ClientCount(t.pools)
  {
    if p :| 0 <= p < |t.pools| && t.pools[p].clients != map[] {
      var fd :| fd in t.pools[p].clients;
      DestroyOne(t, p, fd);
      var v := Take(s, t, Destroy(p, fd));
      u := DestroyAll(s, v);
    } else {
      u := t;
    }
  }

  /** From every reachable state the server can be brought down, with every socket it ever accepted closed once. */
  lemma ShutdownIsPossible(s: State, n: nat) returns (u: State)
    requires Reachable(s, n)
    ensures Reaches(s, u) && u.accepting == Done && u.open == map[]
    ensures forall p :: 0 <= p < |u.pools| ==> u.pools[p].clients == map[]
    ensures forall g: Gen :: g < u.nextGen <==> g in u.closed
  {
    u := StopAccepting(s, n);
    u := JoinFrom(s, u, 0);
    u := DestroyAll(s, u);
    ReachableOn(s, u, n);
    NothingLeaks(u, n);
  }

  // ---------- Which pool gets the next client ----------

  /** The pool that a step chooses, if it chooses one. */
  function ChosenBy(step: Step, t: State): seq<nat> {
    if step.Select? && t.accepting.Chosen? then [t.accepting.pool] else []
  }

  /** The pools chosen along a run, in order. */
  function ChosenPools(states: seq<State>, steps: seq<Step>): seq<nat>
    requires |states| == |steps| + 1
  {
    if steps == [] then []
    else
      var n := |steps| - 1;
      ChosenPools(states[..n + 1], steps[..n]) + ChosenBy(steps[n], states[n + 1])
  }

  lemma {:induction false} PicksSnoc(n: nat, next: nat, k: nat)
    requires next < n
    ensures Picks(n, next, k + 1) == Picks(n, next, k) + [(next + k) % n]
    decreases k
  {
    if k == 0 {
      assert Picks(n, next, 1) == [Pick(n, next)] + Picks(n, Advance(n, next), 0);
      assert next % n == next;
    } else {
      PicksSnoc(n, Advance(n, next), k - 1);
      PicksShift(n, next, k);
    }
  }

  lemma PicksShift(n: nat, next: nat, k: nat)
    requires next < n && k > 0
    ensures (Advance(n, next) + (k - 1)) % n == (next + k) % n
  {
    if next + 1 == n {
      ModShift(k - 1, n);
      assert next + k == (k - 1) + n;
    }
  }

  lemma ModShift(x: nat, n: nat)
    requires n > 0
    ensures (x + n) % n == x % n
  {
    DivMod(x, n);
    TimesNext(n, x / n);
    ModIs(x + n, n, x / n + 1, x % n);
  }

  lemma SelectStep(s: State, step: Step)
    requires Inv(s) && Enabled(s, step) && s.pools != []
    ensures var s', n := Next(s, step), |s.pools|;
            && |s'.pools| == n
            && ChosenBy(step, s') == (if step.Select? then [s.nextPool] else [])
            && s'.nextPool == if !step.Select? then s.nextPool else if s.nextPool + 1 == n then 0 else s.nextPool + 1
  {
  }

  lemma NextInTurn(n: nat, next: nat, k: nat)
    requires next < n
    ensures (next + k + 1) % n == if (next + k) % n + 1 == n then 0 else (next + k) % n + 1
  {
    var x := next + k;
    var q, r := x / n, x % n;
    DivMod(x, n);
    if r + 1 == n {
      TimesNext(n, q);
      ModIs(x + 1, n, q + 1, 0);
    } else {
      ModIs(x + 1, n, q, r + 1);
    }
  }

  lemma DivMod(x: nat, n: nat)
    requires n > 0
    ensures x == n * (x / n) + x % n
  {
  }

  lemma TimesNext(n: nat, q: nat)
    ensures n * (q + 1) == n * q + n
  {
  }

  lemma ModIs(x: nat, n: nat, q: nat, r: nat)
    requires r < n && x == n * q + r
    ensures x % n == r
  {
    QuotientIs(x, n, q);
    DivMod(x, n);
  }

  /** What has been chosen, and whose turn it is. */
  ghost predicate InTurn(n: nat, next: nat, chosen: seq<nat>, now: nat) {
    n > 0 && chosen == Picks(n, next, |chosen|) && now == (next + |chosen|) % n
  }

  lemma TurnGoesOn(n: nat, next: nat, chosen: seq<nat>, now: nat)
    requires next < n && InTurn(n, next, chosen, now)
    ensures InTurn(n, next, chosen + [now], if now + 1 == n then 0 else now + 1)
  {
    PicksSnoc(n, next, |chosen|);
    NextInTurn(n, next, |chosen|);
  }

  lemma TurnStays(n: nat, next: nat, chosen: seq<nat>, now: nat)
    requires InTurn(n, next, chosen, now)
    ensures InTurn(n, next, chosen + [], now)
  {
    assert chosen + [] == chosen;
  }

  lemma StartsInTurn(n: nat, next: nat)
    requires next < n
    ensures InTurn(n, next, [], next)
  {
    assert next % n == next;
  }

  /** In every interleaving the pools chosen for successive clients are the round-robin ones. */
  lemma {:induction false} SelectsRoundRobin(states: seq<State>, steps: seq<Step>)
    requires IsRun(states, steps) && Inv(states[0]) && states[0].pools != []
    ensures states[0].nextPool < |states[0].pools| && |states[|steps|].pools| == |states[0].pools|
    ensures InTurn(|states[0].pools|, states[0].nextPool, ChosenPools(states, steps), states[|steps|].nextPool)
    decreases |steps|
  {
    var m, next := |states[0].pools|, states[0].nextPool;
    if steps == [] {
      StartsInTurn(m, next);
    } else {
      var n := |steps| - 1;
      RunPrefix(states, steps);
      SelectsRoundRobin(states[..n + 1], steps[..n]);
      RunKeepsInv(states, steps, n);
      SelectStep(states[n], steps[n]);
      var chosen := ChosenPools(states[..n + 1], steps[..n]);
      if steps[n].Select? {
        TurnGoesOn(m, next, chosen, states[n].nextPool);
      } else {
        TurnStays(m, next, chosen, states[n].nextPool);
      }
    }
  }

  /** So over any run each of n pools is given floor(k/n) or ceil(k/n) of the k clients chosen for. */
  lemma ClientsSpread(states: seq<State>, steps: seq<Step>, p: nat)
    requires IsRun(states, steps) && Inv(states[0]) && p < |states[0].pools|
    ensures var n, k := |states[0].pools|, |ChosenPools(states, steps)|;
            k / n <= CountOf(ChosenPools(states, steps), p) <= (k + n - 1) / n
  {
    SelectsRoundRobin(states, steps);
    RoundRobinFair(|states[0].pools|, states[0].nextPool, |ChosenPools(states, steps)|, p);
  }

  // ---------- Polled events ----------

  /** The descriptors that a step's poll returns to a pool. */
  function PollsIn(step: Step, p: nat): seq<Fd> { if step.Poll? && step.pool == p then step.fds else [] }

  /** The descriptor whose event a step takes up for a pool. */
  function TakesIn(step: Step, t: State, p: nat): seq<Fd> {
    if step == Begin(p) && p < |t.pools| && t.pools[p].handling.Got? then [t.pools[p].handling.event.fd] else []
  }

  /** The descriptors that a pool's polls return along a run, in order. */
  function PolledBy(steps: seq<Step>, p: nat): seq<Fd> {
    if steps == [] then [] else PolledBy(steps[..|steps| - 1], p) + PollsIn(steps[|steps| - 1], p)
  }

  /** The descriptors whose events a pool's thread takes up along a run, in order. */
  function TakenUpBy(states: seq<State>, steps: seq<Step>, p: nat): seq<Fd>
    requires |states| == |steps| + 1
  {
    if steps == [] then []
    else
      var n := |steps| - 1;
      TakenUpBy(states[..n + 1], steps[..n], p) + TakesIn(steps[n], states[n + 1], p)
  }

  function FdsOf(batch: seq<Event>): seq<Fd> {
    seq(|batch|, i requires 0 <= i < |batch| => batch[i].fd)
  }

  lemma SameBatch(s: State, step: Step, p: nat)
    requires Enabled(s, step) && p < |s.pools| && !(step.Poll? && step.pool == p) && step != Begin(p)
    ensures |Next(s, step).pools| == |s.pools| && Next(s, step).pools[p].batch == s.pools[p].batch
  {
  }

  lemma PollBatch(s: State, p: nat, fds: seq<Fd>)
    requires Enabled(s, Poll(p, fds))
    ensures var t := Next(s, Poll(p, fds));
            |t.pools| == |s.pools| && s.pools[p].batch == [] && FdsOf(t.pools[p].batch) == fds
  {
  }

  lemma BeginBatch(s: State, p: nat)
    requires Enabled(s, Begin(p))
    ensures var t := Next(s, Begin(p));
            && |t.pools| == |s.pools| && t.pools[p].handling.Got?
            && FdsOf(s.pools[p].batch) == [t.pools[p].handling.event.fd] + FdsOf(t.pools[p].batch)
  {
  }

  /** What a step's poll adds to a batch, and what it takes from it. */
  lemma BatchStep(s: State, step: Step, p: nat)
    requires Enabled(s, step) && p < |s.pools|
    ensures var t := Next(s, step);
            && |t.pools| == |s.pools|
            && FdsOf(s.pools[p].batch) + PollsIn(step, p) == TakesIn(step, t, p) + FdsOf(t.pools[p].batch)
  {
    if step.Poll? && step.pool == p {
      PollBatch(s, p, step.fds);
    } else if step == Begin(p) {
      BeginBatch(s, p);
    } else {
      SameBatch(s, step, p);
    }
  }

  lemma Carry(polled: seq<Fd>, taken: seq<Fd>, batch: seq<Fd>, more: seq<Fd>, now: seq<Fd>, left: seq<Fd>)
    requires polled == taken + batch && batch + more == now + left
    ensures polled + more == (taken + now) + left
  {
    assert (taken + batch) + more == taken + (batch + more);
    assert taken + (now + left) == (taken + now) + left;
  }

  /** Every polled event is taken up exactly once, in order, or still waits in the batch. */
  lemma {:induction false} EventsConserved(states: seq<State>, steps: seq<Step>, p: nat)
    requires IsRun(states, steps) && p < |states[0].pools| && states[0].pools[p].batch == []
    ensures |states[|steps|].pools| == |states[0].pools|
    ensures PolledBy(steps, p) == TakenUpBy(states, steps, p) + FdsOf(states[|steps|].pools[p].batch)
    decreases |steps|
  {
    if steps != [] {
      var n := |steps| - 1;
      RunPrefix(states, steps);
      EventsConserved(states[..n + 1], steps[..n], p);
      BatchStep(states[n], steps[n], p);
      Carry(PolledBy(steps[..n], p), TakenUpBy(states[..n + 1], steps[..n], p), FdsOf(states[n].pools[p].batch),
            PollsIn(steps[n], p), TakesIn(steps[n], states[n + 1], p), FdsOf(states[n + 1].pools[p].batch));
    }
  }
}
