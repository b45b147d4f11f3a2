/**
 Who owns an accepted socket: the accept thread and the pools' threads, in small steps,
 over a kernel that hands a closed descriptor out again. A generation tells two uses of
 the same descriptor apart; the program itself never sees it.
 Assumed: poller calls succeed, accept returns only descriptors that are not open, and
 the descriptors of one polled batch are pairwise distinct.
 */
module Ownership {
  import opened Text
  import opened PoolManagers

  type Fd = nat
  type Gen = nat

  datatype Accepting =
    | Idle                                   // about to test the running flag
    | Waiting                                // the flag was up; in acceptClient
    | Holding(fd: Fd, gen: Gen)              // accepted, no pool chosen yet
    | Chosen(fd: Fd, gen: Gen, pool: nat)    // get_pool has answered
    | Inserted(fd: Fd, gen: Gen, pool: nat)  // in the client map, not yet in the poller
    | Done                                   // the flag was down; the thread is over

  /** An event remembers the generation it was polled for. */
  datatype Event = Event(fd: Fd, gen: Gen)

  /** What a pool's thread is doing with the event it took from its batch. */
  datatype Handling =
    | Nothing
    | Got(event: Event, client: Option<Gen>)  // getClient has answered; None is a null pointer
    | Deregistered(event: Event)              // removeFD done, removeClient to come

  datatype Pool = Pool(
    clients: map<Fd, Gen>,     // ConnectionPool: each Client object owns one generation
    registered: map<Fd, Gen>,  // the poller's interest set
    batch: seq<Event>,         // polled events still to dispatch
    handling: Handling,
    running: bool)

  datatype State = State(
    open: map<Fd, Gen>,   // the kernel's table of open sockets
    nextGen: Gen,
    closed: seq<Gen>,     // the generations on which close was called, in order
    accepting: Accepting,
    running: bool,
    pools: seq<Pool>,
    nextPool: nat)

  datatype Step =
    | TestFlag
    | Accept(fd: Fd)
    | NoClient
    | Select
    | Insert
    | Register
    | Poll(pool: nat, fds: seq<Fd>)
    | Begin(pool: nat)
    | Keep(pool: nat)          // the event is handled and the connection stays
    | Deregister(pool: nat)
    | Remove(pool: nat)
    | StopServer
    | JoinPool(pool: nat)
    | Destroy(pool: nat, fd: Fd)

  function Init(n: nat): State {
    State(map[], 0, [], Idle, true, seq(n, i => Pool(map[], map[], [], Nothing, true)), 0)
  }

  // ---------- Steps ----------

  predicate Enabled(s: State, step: Step) {
    match step
    case TestFlag => s.accepting == Idle
    case Accept(fd) => s.accepting == Waiting && fd !in s.open
    case NoClient => s.accepting == Waiting
    case Select => s.accepting.Holding?
    case Insert => s.accepting.Chosen? && s.accepting.pool < |s.pools|
    case Register => s.accepting.Inserted? && s.accepting.pool < |s.pools|
    case Poll(p, fds) =>
      && p < |s.pools| && s.pools[p].running && s.pools[p].batch == [] && s.pools[p].handling == Nothing
      && (forall i :: 0 <= i < |fds| ==> fds[i] in s.pools[p].registered)
      && forall i, j :: 0 <= i < j < |fds| ==> fds[i] != fds[j]
    case Begin(p) => p < |s.pools| && s.pools[p].batch != [] && s.pools[p].handling == Nothing
    case Keep(p) => p < |s.pools| && s.pools[p].handling.Got?
    case Deregister(p) => p < |s.pools| && s.pools[p].handling.Got? && s.pools[p].handling.client.Some?
    case Remove(p) => p < |s.pools| && s.pools[p].handling.Deregistered?
    case StopServer => s.running
    case JoinPool(p) =>
      && s.accepting == Done && p < |s.pools| && s.pools[p].running
      && s.pools[p].batch == [] && s.pools[p].handling == Nothing
    case Destroy(p, fd) =>
      && p < |s.pools| && (forall q :: 0 <= q < |s.pools| ==> !s.pools[q].running)
      && fd in s.pools[p].clients
  }

  /** ~Client: close the descriptor, whoever holds it by now. */
  function CloseFd(s: State, fd: Fd, gen: Gen): State {
    s.(open := s.open - {fd}, closed := s.closed + [gen])
  }

  /** Take the client out of the map and destroy it, if it is there. */
  function EraseClient(s: State, p: nat, fd: Fd): State
    requires p < |s.pools|
  {
    var pool := s.pools[p];
    if fd in pool.clients then
      CloseFd(s, fd, pool.clients[fd]).(pools := s.pools[p := pool.(clients := pool.clients - {fd})])
    else s
  }

  function WithPool(s: State, p: nat, pool: Pool): State
    requires p < |s.pools|
  {
    s.(pools := s.pools[p := pool])
  }

  function Next(s: State, step: Step): State
    requires Enabled(s, step)
  {
    match step
    case TestFlag => s.(accepting := if s.running then Waiting else Done)
    case NoClient => s.(accepting := Idle)
    case Accept(fd) =>
      s.(open := s.open[fd := s.nextGen], nextGen := s.nextGen + 1, accepting := Holding(fd, s.nextGen))
    case Select =>
      var Holding(fd, gen) := s.accepting;
      if s.pools == [] then CloseFd(s, fd, gen).(accepting := Idle)
      else
        s.(accepting := Chosen(fd, gen, Pick(|s.pools|, s.nextPool)), nextPool := Advance(|s.pools|, s.nextPool))
    case Insert =>
      var Chosen(fd, gen, p) := s.accepting;
      var s1 := EraseClient(s, p, fd);  // _clients[fd] = ... destroys a client that is there
      var pool := s1.pools[p];
      WithPool(s1, p, pool.(clients := pool.clients[fd := gen])).(accepting := Inserted(fd, gen, p))
    case Register =>
      var Inserted(fd, gen, p) := s.accepting;
      WithPool(s, p, s.pools[p].(registered := s.pools[p].registered[fd := gen])).(accepting := Idle)
    case Poll(p, fds) =>
      var pool := s.pools[p];
      WithPool(s, p, pool.(batch := seq(|fds|, i requires 0 <= i < |fds| => Event(fds[i], pool.registered[fds[i]]))))
    case Begin(p) =>
      var pool := s.pools[p];
      var e := pool.batch[0];
      var client := if e.fd in pool.clients then Some(pool.clients[e.fd]) else None;
      WithPool(s, p, pool.(batch := pool.batch[1..], handling := Got(e, client)))
    case Keep(p) => WithPool(s, p, s.pools[p].(handling := Nothing))
    case Deregister(p) =>
      var pool := s.pools[p];
      var e := pool.handling.event;
      WithPool(s, p, pool.(registered := pool.registered - {e.fd}, handling := Deregistered(e)))
    case Remove(p) =>
      var fd := s.pools[p].handling.event.fd;
      var s1 := EraseClient(s, p, fd);
      WithPool(s1, p, s1.pools[p].(handling := Nothing))
    case StopServer => s.(running := false)
    case JoinPool(p) => WithPool(s, p, s.pools[p].(running := false))
    case Destroy(p, fd) =>
      var pool := s.pools[p];
      EraseClient(WithPool(s, p, pool.(registered := pool.registered - {fd})), p, fd)
  }

  // ---------- The invariant ----------

  datatype Owner = AcceptThread | PoolThread(pool: nat)

  /** The owner answers for the descriptor: the accept thread until it is in a client map, then that map's pool. */
  predicate Holds(s: State, o: Owner, fd: Fd) {
    match o
    case AcceptThread => (s.accepting.Holding? || s.accepting.Chosen?) && s.accepting.fd == fd
    case PoolThread(p) => p < |s.pools| && fd in s.pools[p].clients
  }

  function HeldGen(s: State, o: Owner, fd: Fd): Gen
    requires Holds(s, o, fd)
  {
    match o
    case AcceptThread => s.accepting.gen
    case PoolThread(p) => s.pools[p].clients[fd]
  }

  /** Owned descriptors are open, in the generation the owner knows; nobody shares; nothing open is unowned. */
  ghost predicate UniquelyOwned(s: State) {
    && (forall o, fd :: Holds(s, o, fd) ==> fd in s.open && s.open[fd] == HeldGen(s, o, fd))
    && (forall o1, o2, fd :: Holds(s, o1, fd) && Holds(s, o2, fd) ==> o1 == o2)
    && (forall fd :: fd in s.open ==> exists o :: Holds(s, o, fd))
  }

  /** Every generation is open under one descriptor or has been closed once. */
  ghost predicate ClosedOnce(s: State) {
    && (forall fd :: fd in s.open ==> s.open[fd] < s.nextGen && s.open[fd] !in s.closed)
    && (forall f1, f2 :: f1 in s.open && f2 in s.open && f1 != f2 ==> s.open[f1] != s.open[f2])
    && (forall i, j :: 0 <= i < j < |s.closed| ==> s.closed[i] != s.closed[j])
    && (forall i :: 0 <= i < |s.closed| ==> s.closed[i] < s.nextGen)
    && (forall g: Gen :: g < s.nextGen ==> g in s.closed || g in s.open.Values)
  }

  /** The event is for a registered client, in the generation it was polled for. */
  predicate Fresh(pool: Pool, e: Event) {
    e.fd in pool.registered && pool.registered[e.fd] == e.gen
  }

  ghost predicate PoolOk(pool: Pool) {
    && (forall fd :: fd in pool.registered ==> fd in pool.clients && pool.clients[fd] == pool.registered[fd])
    && (forall i :: 0 <= i < |pool.batch| ==> Fresh(pool, pool.batch[i]))
    && (forall i, j :: 0 <= i < j < |pool.batch| ==> pool.batch[i].fd != pool.batch[j].fd)
    && (match pool.handling
        case Nothing => true
        case Got(e, client) =>
          Fresh(pool, e) && client == Some(e.gen)
          && forall i :: 0 <= i < |pool.batch| ==> pool.batch[i].fd != e.fd
        case Deregistered(e) => e.fd !in pool.registered && e.fd in pool.clients && pool.clients[e.fd] == e.gen)
    && (!pool.running ==> pool.batch == [] && pool.handling == Nothing)
  }

  /** What the accept thread has put in a client map and not yet in the poller. */
  ghost predicate InsertedOk(s: State) {
    match s.accepting
    case Chosen(_, _, p) => p < |s.pools|
    case Inserted(fd, gen, p) =>
      && p < |s.pools| && fd in s.pools[p].clients && s.pools[p].clients[fd] == gen && fd !in s.pools[p].registered
      && !(s.pools[p].handling.Deregistered? && s.pools[p].handling.event.fd == fd)
    case _ => true
  }

  ghost predicate Inv(s: State) {
    && UniquelyOwned(s)
    && ClosedOnce(s)
    && (forall p :: 0 <= p < |s.pools| ==> PoolOk(s.pools[p]))
    && InsertedOk(s)
    && (forall q :: 0 <= q < |s.pools| && !s.pools[q].running ==> s.accepting == Done)
    && (s.nextPool < |s.pools| || s.nextPool == 0)
  }

  lemma InitInv(n: nat)
    ensures Inv(Init(n))
  {
  }

  // ---------- Every step keeps it ----------

  /** Same open sockets, same owners. */
  lemma SameOwners(s: State, s': State)
    requires UniquelyOwned(s) && s'.open == s.open
    requires forall o, fd :: Holds(s', o, fd) <==> Holds(s, o, fd)
    requires forall o, fd :: Holds(s, o, fd) ==> HeldGen(s', o, fd) == HeldGen(s, o, fd)
    ensures UniquelyOwned(s')
  {
    forall fd | fd in s'.open ensures exists o :: Holds(s', o, fd) {
      var o :| Holds(s, o, fd);
      assert Holds(s', o, fd);
    }
  }

  /** One pool changes, but not its client map, and the accept thread owns what it owned. */
  lemma PoolSwap(s: State, s': State, p: nat)
    requires Inv(s) && p < |s.pools| && |s'.pools| == |s.pools| && s'.pools == s.pools[p := s'.pools[p]]
    requires s'.pools[p].clients == s.pools[p].clients && PoolOk(s'.pools[p])
    requires s'.open == s.open && s'.closed == s.closed && s'.nextGen == s.nextGen && s'.nextPool == s.nextPool
    requires s'.accepting == s.accepting || (s.accepting.Inserted? && s'.accepting == Idle)
    requires InsertedOk(s')
    requires !s'.pools[p].running ==> s'.accepting == Done
    ensures Inv(s')
  {
    forall o, fd ensures Holds(s', o, fd) <==> Holds(s, o, fd) {}
    SameOwners(s, s');
  }

  /** A pool changes, but not its client map. */
  lemma PoolChange(s: State, p: nat, pool: Pool)
    requires Inv(s) && p < |s.pools| && pool.clients == s.pools[p].clients && PoolOk(pool)
    requires pool.running == s.pools[p].running
    requires s.accepting.Inserted? && s.accepting.pool == p ==>
               s.accepting.fd !in pool.registered
               && !(pool.handling.Deregistered? && pool.handling.event.fd == s.accepting.fd)
    ensures Inv(WithPool(s, p, pool))
  {
    PoolSwap(s, WithPool(s, p, pool), p);
  }

  lemma PollKeepsInv(s: State, p: nat, fds: seq<Fd>)
    requires Inv(s) && Enabled(s, Poll(p, fds))
    ensures Inv(Next(s, Poll(p, fds)))
  {
    PoolChange(s, p, Next(s, Poll(p, fds)).pools[p]);
  }

  lemma DispatchKeepsInv(s: State, p: nat, step: Step)
    requires Inv(s) && Enabled(s, step) && (step == Begin(p) || step == Keep(p) || step == Deregister(p))
    ensures Inv(Next(s, step))
  {
    var pool := s.pools[p];
    assert PoolOk(pool);
    PoolChange(s, p, Next(s, step).pools[p]);
  }

  lemma SelectKeepsInv(s: State)
    requires Inv(s) && Enabled(s, Select)
    ensures Inv(Next(s, Select))
  {
    var s' := Next(s, Select);
    if s.pools != [] {
      SameOwners(s, s');
    } else {
      assert Holds(s, AcceptThread, s.accepting.fd);
      CloseOwned(s, s', AcceptThread, s.accepting.fd);
    }
  }

  /** Closing an owned descriptor, its owner giving it up. */
  lemma CloseOwned(s: State, s': State, owner: Owner, fd: Fd)
    requires UniquelyOwned(s) && ClosedOnce(s) && Holds(s, owner, fd)
    requires s'.open == s.open - {fd} && s'.closed == s.closed + [HeldGen(s, owner, fd)] && s'.nextGen == s.nextGen
    requires forall o, f :: Holds(s', o, f) <==> Holds(s, o, f) && !(o == owner && f == fd)
    requires forall o, f :: Holds(s', o, f) ==> HeldGen(s', o, f) == HeldGen(s, o, f)
    ensures UniquelyOwned(s') && ClosedOnce(s')
  {
    assert s.open[fd] == HeldGen(s, owner, fd);
    forall f | f in s'.open ensures exists o :: Holds(s', o, f) {
      var o :| Holds(s, o, f);
      assert Holds(s', o, f);
    }
    CloseOnce(s, s', fd);
  }

  lemma CloseOnce(s: State, s': State, fd: Fd)
    requires ClosedOnce(s) && fd in s.open
    requires s'.open == s.open - {fd} && s'.closed == s.closed + [s.open[fd]] && s'.nextGen == s.nextGen
    ensures ClosedOnce(s')
  {
    forall g: Gen | g < s.nextGen ensures g in s'.closed || g in s'.open.Values {
      if g in s.open.Values {
        var f :| f in s.open && s.open[f] == g;
        if f == fd {
          assert s'.closed[|s.closed|] == g;
        } else {
          assert f in s'.open && s'.open[f] == g;
        }
      }
    }
  }

  lemma AcceptKeepsInv(s: State, fd: Fd)
    requires Inv(s) && Enabled(s, Accept(fd))
    ensures Inv(Next(s, Accept(fd)))
  {
    AcceptOwned(s, Next(s, Accept(fd)), fd);
    OpenOnce(s, Next(s, Accept(fd)), fd);
  }

  lemma OpenOnce(s: State, s': State, fd: Fd)
    requires ClosedOnce(s) && fd !in s.open
    requires s'.open == s.open[fd := s.nextGen] && s'.nextGen == s.nextGen + 1 && s'.closed == s.closed
    ensures ClosedOnce(s')
  {
    forall g: Gen | g < s'.nextGen ensures g in s'.closed || g in s'.open.Values {
      if g == s.nextGen {
        assert s'.open[fd] == g;
      } else if g in s.open.Values {
        var f :| f in s.open && s.open[f] == g;
        assert f in s'.open && s'.open[f] == g;
      }
    }
  }

  lemma AcceptOwned(s: State, s': State, fd: Fd)
    requires Inv(s) && Enabled(s, Accept(fd)) && s' == Next(s, Accept(fd))
    ensures UniquelyOwned(s')
  {
    assert Holds(s', AcceptThread, fd);
    forall o, f ensures Holds(s', o, f) <==> Holds(s, o, f) || (o == AcceptThread && f == fd) {}
    forall f | f in s'.open ensures exists o :: Holds(s', o, f) {
      if f != fd {
        var o :| Holds(s, o, f);
        assert Holds(s', o, f);
      }
    }
  }

  /** The descriptor the accept thread hands over is in no client map, so no client is overwritten. */
  lemma InsertFindsRoom(s: State)
    requires Inv(s) && Enabled(s, Insert)
    ensures s.accepting.fd !in s.pools[s.accepting.pool].clients
  {
    var fd, p := s.accepting.fd, s.accepting.pool;
    assert Holds(s, AcceptThread, fd);
    assert fd in s.pools[p].clients ==> Holds(s, PoolThread(p), fd);
    assert AcceptThread != PoolThread(p);
  }

  lemma InsertKeepsInv(s: State)
    requires Inv(s) && Enabled(s, Insert)
    ensures Inv(Next(s, Insert))
  {
    InsertFindsRoom(s);
    var s', fd, p := Next(s, Insert), s.accepting.fd, s.accepting.pool;
    assert PoolOk(s.pools[p]);
    assert PoolOk(s'.pools[p]);
    InsertOwned(s, s');
  }

  lemma InsertMoves(s: State, s': State, o: Owner, f: Fd)
    requires Enabled(s, Insert) && s.accepting.fd !in s.pools[s.accepting.pool].clients && s' == Next(s, Insert)
    ensures Holds(s', o, f) <==>
            (Holds(s, o, f) && o != AcceptThread) || (o == PoolThread(s.accepting.pool) && f == s.accepting.fd)
    ensures Holds(s', o, f) ==>
              HeldGen(s', o, f) == if o == PoolThread(s.accepting.pool) && f == s.accepting.fd
                                   then s.accepting.gen else HeldGen(s, o, f)
  {
  }

  lemma InsertOwned(s: State, s': State)
    requires Inv(s) && Enabled(s, Insert) && s' == Next(s, Insert)
    requires s.accepting.fd !in s.pools[s.accepting.pool].clients
    ensures UniquelyOwned(s')
  {
    var fd, p := s.accepting.fd, s.accepting.pool;
    assert Holds(s, AcceptThread, fd);
    assert s'.open == s.open;
    forall o, f ensures Holds(s', o, f) <==> (Holds(s, o, f) && o != AcceptThread) || (o == PoolThread(p) && f == fd) {
      InsertMoves(s, s', o, f);
    }
    forall o, f | Holds(s', o, f) ensures f in s.open && s.open[f] == HeldGen(s', o, f) {
      InsertMoves(s, s', o, f);
    }
    forall f | f in s'.open ensures exists o :: Holds(s', o, f) {
      if f == fd {
        assert Holds(s', PoolThread(p), fd);
      } else {
        var o :| Holds(s, o, f);
        assert Holds(s', o, f);
      }
    }
  }

  lemma RegisteredPoolOk(pool: Pool, fd: Fd, gen: Gen)
    requires PoolOk(pool) && fd in pool.clients && pool.clients[fd] == gen && fd !in pool.registered
    requires !(pool.handling.Deregistered? && pool.handling.event.fd == fd)
    ensures PoolOk(pool.(registered := pool.registered[fd := gen]))
  {
  }

  lemma RegisterKeepsInv(s: State)
    requires Inv(s) && Enabled(s, Register)
    ensures Inv(Next(s, Register))
  {
    var s', p := Next(s, Register), s.accepting.pool;
    RegisteredPoolOk(s.pools[p], s.accepting.fd, s.accepting.gen);
    PoolSwap(s, s', p);
  }

  /** Destroying a client of a pool, once it is out of the poller. */
  lemma EraseKeepsOwners(s: State, p: nat, fd: Fd, pool: Pool)
    requires UniquelyOwned(s) && ClosedOnce(s) && p < |s.pools| && fd in s.pools[p].clients
    requires pool.clients == s.pools[p].clients - {fd}
    ensures var s' := WithPool(EraseClient(s, p, fd), p, pool);
            UniquelyOwned(s') && ClosedOnce(s')
  {
    var s' := WithPool(EraseClient(s, p, fd), p, pool);
    assert Holds(s, PoolThread(p), fd);
    CloseOwned(s, s', PoolThread(p), fd);
  }

  lemma RemoveKeepsInv(s: State, p: nat)
    requires Inv(s) && Enabled(s, Remove(p))
    ensures Inv(Next(s, Remove(p)))
  {
    var s', pool := Next(s, Remove(p)), s.pools[p];
    assert PoolOk(pool);
    var fd := pool.handling.event.fd;
    EraseKeepsOwners(s, p, fd, s'.pools[p]);
    assert PoolOk(s'.pools[p]);
  }

  lemma DestroyKeepsInv(s: State, p: nat, fd: Fd)
    requires Inv(s) && Enabled(s, Destroy(p, fd))
    ensures Inv(Next(s, Destroy(p, fd)))
  {
    var s', pool := Next(s, Destroy(p, fd)), s.pools[p];
    assert PoolOk(pool);
    EraseKeepsOwners(s, p, fd, s'.pools[p]);
    assert s' == WithPool(EraseClient(s, p, fd), p, s'.pools[p]);
    assert PoolOk(s'.pools[p]);
  }

  lemma JoinPoolKeepsInv(s: State, p: nat)
    requires Inv(s) && Enabled(s, JoinPool(p))
    ensures Inv(Next(s, JoinPool(p)))
  {
    var s' := Next(s, JoinPool(p));
    assert PoolOk(s.pools[p]);
    assert PoolOk(s'.pools[p]);
    PoolSwap(s, s', p);
  }

  lemma ControlKeepsInv(s: State, step: Step)
    requires Inv(s) && Enabled(s, step) && (step == TestFlag || step == NoClient || step == StopServer)
    ensures Inv(Next(s, step))
  {
    SameOwners(s, Next(s, step));
  }

  /** Every step of every interleaving keeps the invariant. */
  lemma StepKeepsInv(s: State, step: Step)
    requires Inv(s) && Enabled(s, step)
    ensures Inv(Next(s, step))
  {
    match step
    case Accept(fd) => AcceptKeepsInv(s, fd);
    case Select => SelectKeepsInv(s);
    case Insert => InsertKeepsInv(s);
    case Register => RegisterKeepsInv(s);
    case Poll(p, fds) => PollKeepsInv(s, p, fds);
    case Begin(p) => DispatchKeepsInv(s, p, step);
    case Keep(p) => DispatchKeepsInv(s, p, step);
    case Deregister(p) => DispatchKeepsInv(s, p, step);
    case Remove(p) => RemoveKeepsInv(s, p);
    case StopServer => ControlKeepsInv(s, step);
    case TestFlag => ControlKeepsInv(s, step);
    case NoClient => ControlKeepsInv(s, step);
    case JoinPool(p) => JoinPoolKeepsInv(s, p);
    case Destroy(p, fd) => DestroyKeepsInv(s, p, fd);
  }

  // ---------- Runs ----------

  ghost predicate IsRun(states: seq<State>, steps: seq<Step>) {
    |states| == |steps| + 1
    && forall i :: 0 <= i < |steps| ==> Enabled(states[i], steps[i]) && states[i + 1] == Next(states[i], steps[i])
  }

  ghost predicate Reachable(s: State, n: nat) {
    exists states, steps :: IsRun(states, steps) && states[0] == Init(n) && states[|steps|] == s
  }

  lemma {:induction false} RunKeepsInv(states: seq<State>, steps: seq<Step>, i: nat)
    requires IsRun(states, steps) && Inv(states[0]) && i < |states|
    ensures Inv(states[i])
  {
    if i > 0 {
      RunKeepsInv(states, steps, i - 1);
      StepKeepsInv(states[i - 1], steps[i - 1]);
    }
  }

  lemma ReachableInv(s: State, n: nat)
    requires Reachable(s, n)
    ensures Inv(s)
  {
    var states, steps :| IsRun(states, steps) && states[0] == Init(n) && states[|steps|] == s;
    InitInv(n);
    RunKeepsInv(states, steps, |steps|);
  }

  // ---------- Main results ----------

  /** In every interleaving each open socket has exactly one owner, and pools poll only their own clients. */
  lemma OneOwner(s: State, n: nat, fd: Fd)
    requires Reachable(s, n)
    ensures fd in s.open <==> exists o :: Holds(s, o, fd)
    ensures forall o1, o2 :: Holds(s, o1, fd) && Holds(s, o2, fd) ==> o1 == o2
    ensures forall p :: 0 <= p < |s.pools| && fd in s.pools[p].registered ==>
              Holds(s, PoolThread(p), fd) && s.pools[p].registered[fd] == s.open[fd]
  {
    ReachableInv(s, n);
    forall p | 0 <= p < |s.pools| && fd in s.pools[p].registered
      ensures Holds(s, PoolThread(p), fd) && s.pools[p].registered[fd] == s.open[fd]
    {
      assert PoolOk(s.pools[p]);
      assert Holds(s, PoolThread(p), fd);
    }
  }

  /** Storing a client never overwrites one, so it closes nothing. */
  lemma InsertOverwritesNothing(s: State, n: nat)
    requires Reachable(s, n) && Enabled(s, Insert)
    ensures Next(s, Insert).closed == s.closed && Next(s, Insert).open == s.open
  {
    ReachableInv(s, n);
    InsertFindsRoom(s);
  }

  /** An event is always dispatched to the client it was polled for: never to none, never to a reused descriptor's. */
  lemma NoStaleEvent(s: State, n: nat, p: nat)
    requires Reachable(s, n) && Enabled(s, Begin(p))
    ensures var e := s.pools[p].batch[0];
            && Next(s, Begin(p)).pools[p].handling == Got(e, Some(e.gen))
            && e.fd in s.open && s.open[e.fd] == e.gen
  {
    ReachableInv(s, n);
    assert PoolOk(s.pools[p]);
    assert Fresh(s.pools[p], s.pools[p].batch[0]);
    assert Holds(s, PoolThread(p), s.pools[p].batch[0].fd);
  }

  /** While a pool's thread uses the client it was given, that client is alive, whatever other threads do. */
  lemma NoDanglingClient(s: State, n: nat, p: nat)
    requires Reachable(s, n) && p < |s.pools| && s.pools[p].handling != Nothing
    ensures var e := s.pools[p].handling.event;
            e.fd in s.pools[p].clients && s.pools[p].clients[e.fd] == e.gen && e.fd in s.open && s.open[e.fd] == e.gen
  {
    ReachableInv(s, n);
    assert PoolOk(s.pools[p]);
    assert Holds(s, PoolThread(p), s.pools[p].handling.event.fd);
  }

  /** No generation is closed twice, and a descriptor is closed only by the owner of its present generation. */
  lemma ClosedByOwnerOnce(s: State, n: nat, step: Step)
    requires Reachable(s, n) && Enabled(s, step)
    ensures forall i, j :: 0 <= i < j < |s.closed| ==> s.closed[i] != s.closed[j]
    ensures var s' := Next(s, step);
            s'.closed == s.closed
            || exists o, fd :: Holds(s, o, fd) && fd in s.open && s.open[fd] == HeldGen(s, o, fd)
                               && s'.closed == s.closed + [s.open[fd]] && s'.open == s.open - {fd}
  {
    ReachableInv(s, n);
    match step {
      case Insert => InsertFindsRoom(s);
      case Select =>
        if s.pools == [] { assert Holds(s, AcceptThread, s.accepting.fd); }
      case Remove(p) =>
        assert PoolOk(s.pools[p]);
        assert Holds(s, PoolThread(p), s.pools[p].handling.event.fd);
      case Destroy(p, fd) => assert Holds(s, PoolThread(p), fd);
      case _ =>
    }
  }

  function Accepts(steps: seq<Step>): nat {
    if steps == [] then 0
    else Accepts(steps[..|steps| - 1]) + if steps[|steps| - 1].Accept? then 1 else 0
  }

  /** Once the flag is down at most one more client is accepted: the one the accept thread was waiting for. */
  lemma {:induction false} OneLateAccept(states: seq<State>, steps: seq<Step>)
    requires IsRun(states, steps) && !states[0].running
    ensures !states[|steps|].running
    ensures Accepts(steps) + (if states[|steps|].accepting == Waiting then 1 else 0)
            <= if states[0].accepting == Waiting then 1 else 0
    decreases |steps|
  {
    if steps != [] {
      var n := |steps| - 1;
      RunPrefix(states, steps);
      OneLateAccept(states[..n + 1], steps[..n]);
      LateStep(states[n], steps[n]);
    }
  }

  lemma LateStep(s: State, step: Step)
    requires Enabled(s, step) && !s.running
    ensures var s' := Next(s, step);
            && !s'.running
            && (if step.Accept? then 1 else 0) + (if s'.accepting == Waiting then 1 else 0)
               <= if s.accepting == Waiting then 1 else 0
  {
  }

  /** A run without its last step is a run. */
  lemma RunPrefix(states: seq<State>, steps: seq<Step>)
    requires IsRun(states, steps) && steps != []
    ensures var n := |steps| - 1;
            && IsRun(states[..n + 1], steps[..n]) && states[..n + 1][0] == states[0] && states[..n + 1][n] == states[n]
            && Enabled(states[n], steps[n]) && states[n + 1] == Next(states[n], steps[n])
  {
    var n := |steps| - 1;
    forall i | 0 <= i < n ensures Enabled(states[i], steps[i]) && states[i + 1] == Next(states[i], steps[i]) {}
  }

  /** After shutdown, with the client maps empty, every socket ever accepted has been closed exactly once. */
  lemma NothingLeaks(s: State, n: nat)
    requires Reachable(s, n) && s.accepting == Done && forall p :: 0 <= p < |s.pools| ==> s.pools[p].clients == map[]
    ensures s.open == map[]
    ensures forall g: Gen :: g < s.nextGen <==> g in s.closed
    ensures forall i, j :: 0 <= i < j < |s.closed| ==> s.closed[i] != s.closed[j]
  {
    ReachableInv(s, n);
    forall o, fd ensures !Holds(s, o, fd) {}
    assert s.open == map[];
  }
}
