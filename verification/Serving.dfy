/**
 Ownership and connections together: every client object carries a connection, every use of a
 descriptor carries what went over the wire, and the two are looked up as the program does - the
 client by its descriptor in the pool's map, the socket by its descriptor in the kernel's table.
 */
module Serving {
  import opened Text
  import opened Requests
  import opened Connections
  import Framing
  import Net = Ownership

  type Gen = Net.Gen

  /** What went over one socket: the bytes received, and the runs of bytes that send took. */
  datatype Wire = Wire(received: string, sent: seq<string>)

  /** `conns` are the client objects, each known by the generation it was made for. */
  datatype State = State(net: Net.State, conns: map<Gen, Conn>, wires: map<Gen, Wire>)

  /** A step of the sockets' owners, or the handling of an event by the thread that has looked its client up. */
  datatype Step =
    | Own(step: Net.Step)
    | Handle(pool: nat, event: Event)

  function Init(n: nat): State { State(Net.Init(n), map[], map[]) }

  predicate Enabled(s: State, step: Step) {
    match step
    case Own(o) => Net.Enabled(s.net, o) && !o.Keep? && !o.Deregister?
    case Handle(p, _) => p < |s.net.pools| && s.net.pools[p].handling.Got?
  }

  function ConnOf(s: State, client: Gen): Conn { if client in s.conns then s.conns[client] else FRESH }

  /** The bytes that the recv of an event brings. */
  function Incoming(e: Event): string {
    if !e.failed && e.readable && e.recv.Bytes? then e.recv.data else ""
  }

  /** recv and send act on the socket that the descriptor names at that moment. */
  function OnSocket(s: State, fd: Net.Fd, received: string, sent: seq<string>): map<Gen, Wire> {
    if fd in s.net.open && s.net.open[fd] in s.wires then
      var w := s.wires[s.net.open[fd]];
      s.wires[s.net.open[fd] := Wire(w.received + received, w.sent + sent)]
    else s.wires
  }

  /** The runs of bytes sent between two states of a connection. */
  function SentBetween(c: Conn, c': Conn): seq<string> {
    if |c.sent| <= |c'.sent| then c'.sent[|c.sent|..] else []
  }

  function Next(app: App, s: State, step: Step): State
    requires Enabled(s, step)
  {
    match step
    case Own(o) =>
      var net := Net.Next(s.net, o);
      (match o
       case Accept(_) => s.(net := net, wires := s.wires[s.net.nextGen := Wire("", [])])
       case Insert => s.(net := net, conns := s.conns[s.net.accepting.gen := FRESH])
       case _ => s.(net := net))
    case Handle(p, e) =>
      var h := s.net.pools[p].handling;
      match h.client
      case None => s.(net := Net.Next(s.net, Net.Keep(p)))
      case Some(client) =>
        var c := ConnOf(s, client);
        var (c', keep) := HandleEvent(app, c, e);
        State(Net.Next(s.net, if keep then Net.Keep(p) else Net.Deregister(p)),
              s.conns[client := c'],
              OnSocket(s, h.event.fd, Incoming(e), SentBetween(c, c')))
  }

  // ---------- The invariant ----------

  /** A client that its pool has not begun to drop. */
  predicate Kept(net: Net.State, p: nat, fd: Net.Fd) {
    && p < |net.pools| && fd in net.pools[p].clients
    && !(net.pools[p].handling.Deregistered? && net.pools[p].handling.event.fd == fd)
  }

  /** A client object agrees with the wire of the generation it was made for, and was served at most once. */
  ghost predicate ConnOk(app: App, c: Conn, w: Wire) {
    c.request == w.received && c.sent == w.sent && LifecycleOk(app, c, false)
  }

  /** Every generation below `n` has a wire, and nothing went over it before there was a client object. */
  ghost predicate WiresOk(app: App, conns: map<Gen, Conn>, wires: map<Gen, Wire>, n: Gen) {
    && (forall g: Gen :: g in wires <==> g < n)
    && (forall g: Gen :: g in conns ==> g in wires && ConnOk(app, conns[g], wires[g]))
    && (forall g: Gen :: g in wires && g !in conns ==> wires[g] == Wire("", []))
  }

  ghost predicate KeptOk(app: App, s: State) {
    forall p: nat, fd: Net.Fd :: Kept(s.net, p, fd) ==>
      var g := s.net.pools[p].clients[fd]; g in s.conns && LifecycleOk(app, s.conns[g], true)
  }

  /** What the accept thread holds has no client object yet. */
  predicate HeldIsNew(s: State) {
    (s.net.accepting.Holding? || s.net.accepting.Chosen?) ==> s.net.accepting.gen !in s.conns
  }

  ghost predicate Inv(app: App, s: State) {
    Net.Inv(s.net) && WiresOk(app, s.conns, s.wires, s.net.nextGen) && KeptOk(app, s) && HeldIsNew(s)
  }

  lemma InitInv(app: App, n: nat)
    ensures Inv(app, Init(n))
  {
    Net.InitInv(n);
  }

  // ---------- The owners' steps ----------

  /** The owners' steps other than an insertion keep every kept client they do not begin to drop. */
  lemma KeptBefore(net: Net.State, o: Net.Step, p: nat, fd: Net.Fd)
    requires Net.Inv(net) && Net.Enabled(net, o) && !o.Insert?
    requires Kept(Net.Next(net, o), p, fd)
    ensures Kept(net, p, fd) && Net.Next(net, o).pools[p].clients[fd] == net.pools[p].clients[fd]
  {
  }

  lemma InsertKept(net: Net.State, p: nat, fd: Net.Fd)
    requires Net.Inv(net) && Net.Enabled(net, Net.Insert) && Kept(Net.Next(net, Net.Insert), p, fd)
    ensures var g := Net.Next(net, Net.Insert).pools[p].clients[fd];
            g == net.accepting.gen || (Kept(net, p, fd) && g == net.pools[p].clients[fd])
  {
    Net.InsertFindsRoom(net);
  }

  /** Only an accept makes a generation. */
  lemma GenerationsStay(net: Net.State, o: Net.Step)
    requires Net.Enabled(net, o)
    ensures Net.Next(net, o).nextGen == if o.Accept? then net.nextGen + 1 else net.nextGen
  {
  }

  /** What the accept thread holds it held before, or has just accepted. */
  lemma HeldBefore(net: Net.State, o: Net.Step)
    requires Net.Enabled(net, o)
    ensures var a, a' := net.accepting, Net.Next(net, o).accepting;
            a'.Holding? || a'.Chosen? ==>
              (o.Accept? && a'.gen == net.nextGen) || ((a.Holding? || a.Chosen?) && a'.gen == a.gen)
  {
  }

  lemma HoldsNewGen(net: Net.State)
    requires Net.Inv(net) && (net.accepting.Holding? || net.accepting.Chosen?)
    ensures net.accepting.gen < net.nextGen
  {
    assert Net.Holds(net, Net.AcceptThread, net.accepting.fd);
  }

  lemma NewWire(app: App, conns: map<Gen, Conn>, wires: map<Gen, Wire>, n: Gen)
    requires WiresOk(app, conns, wires, n)
    ensures WiresOk(app, conns, wires[n := Wire("", [])], n + 1)
  {
  }

  lemma NewClient(app: App, conns: map<Gen, Conn>, wires: map<Gen, Wire>, n: Gen, g: Gen)
    requires WiresOk(app, conns, wires, n) && g < n && g !in conns
    ensures WiresOk(app, conns[g := FRESH], wires, n)
  {
    FreshIsLive(app);
  }

  lemma ClientMoves(app: App, conns: map<Gen, Conn>, wires: map<Gen, Wire>, n: Gen, g: Gen, c: Conn, w: Wire)
    requires WiresOk(app, conns, wires, n) && g in conns && ConnOk(app, c, w)
    ensures WiresOk(app, conns[g := c], wires[g := w], n)
  {
  }

  lemma OwnKeepsWires(app: App, s: State, o: Net.Step)
    requires Inv(app, s) && Enabled(s, Own(o))
    ensures var s' := Next(app, s, Own(o)); WiresOk(app, s'.conns, s'.wires, s'.net.nextGen)
  {
    GenerationsStay(s.net, o);
    if o.Accept? { NewWire(app, s.conns, s.wires, s.net.nextGen); }
    if o.Insert? {
      HoldsNewGen(s.net);
      NewClient(app, s.conns, s.wires, s.net.nextGen, s.net.accepting.gen);
    }
  }

  lemma FreshIsLive(app: App)
    ensures LifecycleOk(app, FRESH, true) && LifecycleOk(app, FRESH, false)
  {
    EmptyIsNotWhole();
  }

  lemma OwnKeepsKept(app: App, s: State, o: Net.Step)
    requires Inv(app, s) && Enabled(s, Own(o))
    ensures KeptOk(app, Next(app, s, Own(o)))
  {
    var s' := Next(app, s, Own(o));
    FreshIsLive(app);
    forall p: nat, fd: Net.Fd | Kept(s'.net, p, fd)
      ensures var g := s'.net.pools[p].clients[fd]; g in s'.conns && LifecycleOk(app, s'.conns[g], true)
    {
      if o.Insert? { InsertKept(s.net, p, fd); } else { KeptBefore(s.net, o, p, fd); }
    }
  }

  lemma OwnKeepsInv(app: App, s: State, o: Net.Step)
    requires Inv(app, s) && Enabled(s, Own(o))
    ensures Inv(app, Next(app, s, Own(o)))
  {
    Net.StepKeepsInv(s.net, o);
    OwnKeepsWires(app, s, o);
    OwnKeepsKept(app, s, o);
    HeldBefore(s.net, o);
  }

  // ---------- Handling an event ----------

  /** A generation is the client of one descriptor in one pool. */
  lemma OnePlace(net: Net.State, p: nat, fd: Net.Fd, q: nat, fd': Net.Fd)
    requires Net.Inv(net) && p < |net.pools| && q < |net.pools|
    requires fd in net.pools[p].clients && fd' in net.pools[q].clients
    requires net.pools[p].clients[fd] == net.pools[q].clients[fd']
    ensures p == q && fd == fd'
  {
    assert Net.Holds(net, Net.PoolThread(p), fd) && Net.Holds(net, Net.PoolThread(q), fd');
    assert net.open[fd] == net.open[fd'];
    assert Net.PoolThread(p) == Net.PoolThread(q);
  }

  /** The thread that handles an event has the client, and the socket, of the generation it was polled for. */
  lemma HandledClient(net: Net.State, p: nat)
    requires Net.Inv(net) && p < |net.pools| && net.pools[p].handling.Got?
    ensures var h := net.pools[p].handling;
            && h.client == Some(h.event.gen) && Kept(net, p, h.event.fd)
            && net.pools[p].clients[h.event.fd] == h.event.gen
            && h.event.fd in net.open && net.open[h.event.fd] == h.event.gen
  {
    var fd := net.pools[p].handling.event.fd;
    assert Net.PoolOk(net.pools[p]);
    assert Net.Holds(net, Net.PoolThread(p), fd);
  }

  /** What an event does to a live connection is what goes over its wire. */
  lemma EventOnWire(app: App, c: Conn, e: Event)
    requires LifecycleOk(app, c, true)
    ensures var (c', keep) := HandleEvent(app, c, e);
            && c'.request == c.request + Incoming(e) && c'.sent == c.sent + SentBetween(c, c')
            && LifecycleOk(app, c', keep) && LifecycleOk(app, c', false)
  {
    EventKeepsLifecycle(app, c, e);
  }

  /** Everything that one handled event changes, seen from the generation it is about. */
  lemma HandledStep(app: App, s: State, p: nat, e: Event) returns (g: Gen, fd: Net.Fd, c: Conn, keep: bool)
    requires Inv(app, s) && Enabled(s, Handle(p, e))
    ensures Kept(s.net, p, fd) && s.net.pools[p].clients[fd] == g && fd == s.net.pools[p].handling.event.fd
    ensures g in s.conns && g in s.wires && (c, keep) == HandleEvent(app, s.conns[g], e)
    ensures var o := if keep then Net.Keep(p) else Net.Deregister(p);
            var w := Wire(s.wires[g].received + Incoming(e), s.wires[g].sent + SentBetween(s.conns[g], c));
            && Net.Enabled(s.net, o) && ConnOk(app, c, w) && LifecycleOk(app, c, keep)
            && Next(app, s, Handle(p, e)) == State(Net.Next(s.net, o), s.conns[g := c], s.wires[g := w])
  {
    HandledClient(s.net, p);
    fd := s.net.pools[p].handling.event.fd;
    g := s.net.pools[p].handling.event.gen;
    var result := HandleEvent(app, s.conns[g], e);
    c, keep := result.0, result.1;
    EventOnWire(app, s.conns[g], e);
    NextOfHandle(app, s, p, e, g, c, keep);
  }

  lemma NextOfHandle(app: App, s: State, p: nat, e: Event, g: Gen, c: Conn, keep: bool)
    requires Enabled(s, Handle(p, e)) && s.net.pools[p].handling.client == Some(g) && g in s.conns && g in s.wires
    requires var fd := s.net.pools[p].handling.event.fd; fd in s.net.open && s.net.open[fd] == g
    requires (c, keep) == HandleEvent(app, s.conns[g], e)
    ensures var w := Wire(s.wires[g].received + Incoming(e), s.wires[g].sent + SentBetween(s.conns[g], c));
            Next(app, s, Handle(p, e)) ==
            State(Net.Next(s.net, if keep then Net.Keep(p) else Net.Deregister(p)), s.conns[g := c], s.wires[g := w])
  {
  }

  /** A pool that goes on, or begins to drop one client, keeps the others. */
  lemma KeptElsewhere(net: Net.State, p: nat, keep: bool, q: nat, fd: Net.Fd)
    requires Net.Inv(net)
    requires Net.Enabled(net, if keep then Net.Keep(p) else Net.Deregister(p))
    requires Kept(Net.Next(net, if keep then Net.Keep(p) else Net.Deregister(p)), q, fd)
    ensures Kept(net, q, fd) && (keep || q != p || fd != net.pools[p].handling.event.fd)
    ensures Net.Next(net, if keep then Net.Keep(p) else Net.Deregister(p)).pools[q].clients[fd] == net.pools[q].clients[fd]
  {
  }

  lemma HandleKeepsInv(app: App, s: State, p: nat, e: Event)
    requires Inv(app, s) && Enabled(s, Handle(p, e))
    ensures Inv(app, Next(app, s, Handle(p, e)))
  {
    var s' := Next(app, s, Handle(p, e));
    var g, fd, c, keep := HandledStep(app, s, p, e);
    var o := if keep then Net.Keep(p) else Net.Deregister(p);
    Net.StepKeepsInv(s.net, o);
    GenerationsStay(s.net, o);
    ClientMoves(app, s.conns, s.wires, s.net.nextGen, g, c, s'.wires[g]);
    HandleKeepsKept(app, s, s', p, fd, g, c, keep);
    HeldBefore(s.net, o);
  }

  lemma HandleKeepsKept(app: App, s: State, s': State, p: nat, fd: Net.Fd, g: Gen, c: Conn, keep: bool)
    requires Net.Inv(s.net) && KeptOk(app, s) && LifecycleOk(app, c, keep)
    requires Kept(s.net, p, fd) && s.net.pools[p].clients[fd] == g
    requires Net.Enabled(s.net, if keep then Net.Keep(p) else Net.Deregister(p))
    requires s.net.pools[p].handling.event.fd == fd
    requires s'.net == Net.Next(s.net, if keep then Net.Keep(p) else Net.Deregister(p)) && s'.conns == s.conns[g := c]
    ensures KeptOk(app, s')
  {
    forall q: nat, fd': Net.Fd | Kept(s'.net, q, fd')
      ensures var g' := s'.net.pools[q].clients[fd']; g' in s'.conns && LifecycleOk(app, s'.conns[g'], true)
    {
      KeptElsewhere(s.net, p, keep, q, fd');
      if s.net.pools[q].clients[fd'] == g { OnePlace(s.net, p, fd, q, fd'); }
    }
  }

  /** Every step of every interleaving, whatever recv and send do, keeps the invariant. */
  lemma StepKeepsInv(app: App, s: State, step: Step)
    requires Inv(app, s) && Enabled(s, step)
    ensures Inv(app, Next(app, s, step))
  {
    match step
    case Own(o) => OwnKeepsInv(app, s, o);
    case Handle(p, e) => HandleKeepsInv(app, s, p, e);
  }

  // ---------- Runs ----------

  ghost predicate IsRun(app: App, states: seq<State>, steps: seq<Step>) {
    |states| == |steps| + 1
    && forall i :: 0 <= i < |steps| ==> Enabled(states[i], steps[i]) && states[i + 1] == Next(app, states[i], steps[i])
  }

  ghost predicate Reachable(app: App, s: State, n: nat) {
    exists states, steps :: IsRun(app, states, steps) && states[0] == Init(n) && states[|steps|] == s
  }

  lemma {:induction false} RunKeepsInv(app: App, states: seq<State>, steps: seq<Step>, i: nat)
    requires IsRun(app, states, steps) && Inv(app, states[0]) && i < |states|
    ensures Inv(app, states[i])
  {
    if i > 0 {
      RunKeepsInv(app, states, steps, i - 1);
      RunStep(app, states, steps, i);
      StepKeepsInv(app, states[i - 1], steps[i - 1]);
    }
  }

  lemma RunStep(app: App, states: seq<State>, steps: seq<Step>, i: nat)
    requires IsRun(app, states, steps) && 0 < i < |states|
    ensures Enabled(states[i - 1], steps[i - 1]) && states[i] == Next(app, states[i - 1], steps[i - 1])
  {
    assert states[i - 1 + 1] == states[i];
  }

  lemma ReachableInv(app: App, s: State, n: nat)
    requires Reachable(app, s, n)
    ensures Inv(app, s)
  {
    var states, steps :| IsRun(app, states, steps) && states[0] == Init(n) && states[|steps|] == s;
    InitInv(app, n);
    RunKeepsInv(app, states, steps, |steps|);
  }

  // ---------- Main result ----------

  /** At most one run of bytes was sent, which begins the reply to the ready request that was received. */
  ghost predicate AnsweredAtMostOnce(app: App, w: Wire) {
    && |w.sent| <= 1
    && (w.sent != [] ==>
          Framing.IsReady(w.received) && w.sent[0] != "" && w.sent[0] <= ProcessBytes(app, w.received))
  }

  lemma OkIsAnswered(app: App, c: Conn, w: Wire)
    requires ConnOk(app, c, w)
    ensures AnsweredAtMostOnce(app, w)
  {
    if w.sent != [] {
      assert |c.processed| == 1 && c.processed[0] == c.request;
      assert c.sent[0] == w.sent[0];
    }
  }

  /**
   In every reachable state, whatever descriptors the kernel has handed out again: over one use of
   a descriptor at most one run of bytes is sent, only once what was received over that same use is
   a ready request, and it begins the reply to exactly those bytes.
   */
  lemma RepliesGoHome(app: App, s: State, n: nat, g: Gen)
    requires Reachable(app, s, n) && g in s.wires
    ensures AnsweredAtMostOnce(app, s.wires[g])
  {
    ReachableInv(app, s, n);
    if g in s.conns { OkIsAnswered(app, s.conns[g], s.wires[g]); }
  }
}
