/**
 Answers are possible: from every reachable state in which the server runs, a client can be accepted,
 send a request, and get the reply to it over its own socket, which is then closed.
 */
module Answering {
  import opened Text
  import opened Requests
  import opened Connections
  import opened Serving
  import Framing
  import Net = Ownership
  import Runs = Service

  ghost predicate Leads(app: App, s: State, t: State) {
    exists states, steps :: IsRun(app, states, steps) && states[0] == s && states[|steps|] == t
  }

  lemma LeadsSelf(app: App, s: State)
    ensures Leads(app, s, s)
  {
    var states, steps: seq<Step> := [s], [];
    assert IsRun(app, states, steps);
  }

  lemma LeadsNext(app: App, s: State, t: State, step: Step)
    requires Leads(app, s, t) && Enabled(t, step)
    ensures Leads(app, s, Next(app, t, step))
  {
    var states, steps :| IsRun(app, states, steps) && states[0] == s && states[|steps|] == t;
    var u := Next(app, t, step);
    var all, path := states + [u], steps + [step];
    forall i | 0 <= i < |path| ensures Enabled(all[i], path[i]) && all[i + 1] == Next(app, all[i], path[i]) {
      if i < |steps| { assert Enabled(states[i], steps[i]) && states[i + 1] == Next(app, states[i], steps[i]); }
    }
    assert IsRun(app, all, path) && all[|path|] == u;
  }

  /** One step more, and that the invariant still holds behind it. */
  lemma Take(app: App, s: State, t: State, step: Step) returns (u: State)
    requires Inv(app, t) && Leads(app, s, t) && Enabled(t, step)
    ensures u == Next(app, t, step) && Inv(app, u) && Leads(app, s, u)
  {
    u := Next(app, t, step);
    StepKeepsInv(app, t, step);
    LeadsNext(app, s, t, step);
  }

  /** A step of the sockets' owners that touches neither a wire nor a client object. */
  lemma TakeOwn(app: App, s: State, t: State, o: Net.Step) returns (u: State)
    requires Inv(app, t) && Leads(app, s, t) && Enabled(t, Own(o)) && !o.Accept? && !o.Insert?
    ensures u == t.(net := Net.Next(t.net, o)) && Inv(app, u) && Leads(app, s, u)
  {
    u := Take(app, s, t, Own(o));
  }

  // ---------- Taking a client in ----------

  lemma AcceptClient(app: App, s: State, t: State, fd: Net.Fd) returns (u: State)
    requires Inv(app, t) && Leads(app, s, t) && t.net.accepting == Net.Waiting && fd !in t.net.open
    ensures u == State(Net.Next(t.net, Net.Accept(fd)), t.conns, t.wires[t.net.nextGen := Wire("", [])])
    ensures Inv(app, u) && Leads(app, s, u)
  {
    u := Take(app, s, t, Own(Net.Accept(fd)));
  }

  lemma InsertClient(app: App, s: State, t: State) returns (u: State)
    requires Inv(app, t) && Leads(app, s, t) && Net.Enabled(t.net, Net.Insert)
    ensures u == State(Net.Next(t.net, Net.Insert), t.conns[t.net.accepting.gen := FRESH], t.wires)
    ensures Inv(app, u) && Leads(app, s, u)
  {
    u := Take(app, s, t, Own(Net.Insert));
  }

  /** The net part of taking a client in, step by step. */
  lemma NetSteps(net: Net.State, fd: Net.Fd) returns (n1: Net.State, n2: Net.State, n3: Net.State, n4: Net.State)
    requires Net.Inv(net) && net.running && net.accepting == Net.Idle && net.pools != [] && fd !in net.open
    ensures Net.Enabled(net, Net.TestFlag) && n1 == Net.Next(net, Net.TestFlag) && n1.accepting == Net.Waiting
    ensures n1.open == net.open && n1.nextGen == net.nextGen
    ensures Net.Enabled(n1, Net.Accept(fd)) && n2 == Net.Next(n1, Net.Accept(fd))
    ensures Net.Enabled(n2, Net.Select) && n3 == Net.Next(n2, Net.Select)
    ensures Net.Enabled(n3, Net.Insert) && n3.accepting.gen == net.nextGen && n4 == Net.Next(n3, Net.Insert)
    ensures net.nextPool < |net.pools|
    ensures Net.Enabled(n4, Net.Register) && Net.Next(n4, Net.Register) == Runs.TakenIn(net, fd)
  {
    n1 := Net.Next(net, Net.TestFlag);
    Net.StepKeepsInv(net, Net.TestFlag);
    n2 := Net.Next(n1, Net.Accept(fd));
    Net.StepKeepsInv(n1, Net.Accept(fd));
    n3 := Net.Next(n2, Net.Select);
    Net.StepKeepsInv(n2, Net.Select);
    Net.InsertFindsRoom(n3);
    n4 := Net.Next(n3, Net.Insert);
    assert Net.Next(n4, Net.Register).pools == Runs.TakenIn(net, fd).pools;
  }

  lemma TakeIn(app: App, s: State, fd: Net.Fd) returns (t: State)
    requires Inv(app, s) && s.net.running && s.net.accepting == Net.Idle && s.net.pools != [] && fd !in s.net.open
    ensures Inv(app, t) && Leads(app, s, t) && s.net.nextPool < |s.net.pools| && t.net == Runs.TakenIn(s.net, fd)
    ensures var g := s.net.nextGen;
            g in t.conns && t.conns[g] == FRESH && g in t.wires && t.wires[g] == Wire("", [])
  {
    var n1, n2, n3, n4 := NetSteps(s.net, fd);
    LeadsSelf(app, s);
    t := TakeOwn(app, s, s, Net.TestFlag);
    t := AcceptClient(app, s, t, fd);
    t := TakeOwn(app, s, t, Net.Select);
    t := InsertClient(app, s, t);
    t := TakeOwn(app, s, t, Net.Register);
  }

  // ---------- Finishing what a pool has in hand ----------

  const QUIET := Event(false, false, PeerClosed, SendFailed)

  lemma QuietConn(app: App, c: Conn)
    ensures HandleEvent(app, c, QUIET) == (c, true) && Incoming(QUIET) == "" && SentBetween(c, c) == []
  {
  }

  lemma SameMaps(conns: map<Net.Gen, Conn>, wires: map<Net.Gen, Wire>, g: Net.Gen)
    requires g in conns && g in wires
    ensures conns[g := conns[g]] == conns
    ensures wires[g := Wire(wires[g].received + "", wires[g].sent + [])] == wires
  {
    assert wires[g].received + "" == wires[g].received && wires[g].sent + [] == wires[g].sent;
  }

  /** An event that is neither an error nor a read changes nothing. */
  lemma QuietEvent(app: App, s: State, t: State, p: nat) returns (u: State)
    requires Inv(app, t) && Leads(app, s, t) && Enabled(t, Handle(p, QUIET))
    ensures u == t.(net := Net.Next(t.net, Net.Keep(p))) && Inv(app, u) && Leads(app, s, u)
  {
    u := Take(app, s, t, Handle(p, QUIET));
    var g, fd, c, keep := HandledStep(app, t, p, QUIET);
    QuietConn(app, t.conns[g]);
    SameMaps(t.conns, t.wires, g);
  }

  /** The next step of a pool's thread that drops nobody. */
  lemma WorkOn(app: App, s: State, t: State, p: nat) returns (u: State)
    requires Inv(app, t) && Leads(app, s, t) && p < |t.net.pools| && !Runs.AtRest(t.net.pools[p])
    ensures Inv(app, u) && Leads(app, s, u) && u.conns == t.conns && u.wires == t.wires
    ensures Runs.OnlyWorked(t.net, u.net, p) && Runs.Work(u.net.pools[p]) < Runs.Work(t.net.pools[p])
  {
    Runs.WorkStep(t.net, p);
    var o := Runs.NextWork(t.net.pools[p], p);
    if o.Keep? {
      u := QuietEvent(app, s, t, p);
    } else {
      u := TakeOwn(app, s, t, o);
    }
  }

  lemma {:induction false} Finish(app: App, s: State, t: State, p: nat) returns (u: State)
    requires Inv(app, t) && Leads(app, s, t) && p < |t.net.pools|
    ensures Inv(app, u) && Leads(app, s, u) && u.conns == t.conns && u.wires == t.wires
    ensures Runs.OnlyWorked(t.net, u.net, p) && Runs.AtRest(u.net.pools[p])
    decreases Runs.Work(t.net.pools[p])
  {
    if Runs.AtRest(t.net.pools[p]) {
      u := t;
    } else {
      var v := WorkOn(app, s, t, p);
      u := Finish(app, s, v, p);
    }
  }

  // ---------- A request and its answer ----------

  /** Poll a registered client and look it up. */
  lemma LookUp(app: App, s: State, t: State, p: nat, fd: Net.Fd) returns (u: State)
    requires Inv(app, t) && Leads(app, s, t) && p < |t.net.pools| && Runs.AtRest(t.net.pools[p])
    requires t.net.pools[p].running && fd in t.net.pools[p].registered
    ensures Inv(app, u) && Leads(app, s, u) && u.conns == t.conns && u.wires == t.wires && p < |u.net.pools|
    ensures var g := t.net.pools[p].registered[fd]; u.net.pools[p].handling == Net.Got(Net.Event(fd, g), Some(g))
  {
    var n1, n2 := Runs.PollsOne(t.net, p, fd);
    u := TakeOwn(app, s, t, Net.Poll(p, [fd]));
    u := TakeOwn(app, s, u, Net.Begin(p));
  }

  /** The event that brings a whole request to a fresh connection answers it, and the connection is over. */
  lemma RequestEvent(app: App, data: string, taken: nat)
    requires Framing.IsReady(data) && data != "" && taken > 0
    ensures var e, reply := Event(false, true, Bytes(data), Took(taken)), ProcessBytes(app, data);
            var (c, keep) := HandleEvent(app, FRESH, e);
            && !keep && Incoming(e) == data
            && SentBetween(FRESH, c) == [if taken <= |reply| then reply[..taken] else reply]
  {
    EventBrings(app, "", Event(false, true, Bytes(data), Took(taken)));
    assert "" + data == data && FRESH.(request := "") == FRESH;
  }

  /** The request received, and what send took of its reply. */
  function AnswerWire(app: App, data: string, taken: nat): Wire {
    var reply := ProcessBytes(app, data);
    Wire(data, [if taken <= |reply| then reply[..taken] else reply])
  }

  /** Handle that event: its bytes, and the reply, go over the wire of the generation looked up. */
  lemma Answer(app: App, s: State, t: State, p: nat, data: string, taken: nat) returns (u: State)
    requires Inv(app, t) && Leads(app, s, t) && p < |t.net.pools| && t.net.pools[p].handling.Got?
    requires Framing.IsReady(data) && data != "" && taken > 0
    requires var g := t.net.pools[p].handling.event.gen;
             g in t.conns && t.conns[g] == FRESH && g in t.wires && t.wires[g] == Wire("", [])
    ensures Inv(app, u) && Leads(app, s, u)
    ensures u.wires == t.wires[t.net.pools[p].handling.event.gen := AnswerWire(app, data, taken)]
    ensures Net.Enabled(t.net, Net.Deregister(p)) && u.net == Net.Next(t.net, Net.Deregister(p))
  {
    var e := Event(false, true, Bytes(data), Took(taken));
    HandledClient(t.net, p);
    u := Take(app, s, t, Handle(p, e));
    var g, fd, c, keep := HandledStep(app, t, p, e);
    RequestEvent(app, data, taken);
    FirstOnWire(data, SentBetween(FRESH, c));
  }

  lemma FirstOnWire(data: string, sent: seq<string>)
    ensures Wire("" + data, [] + sent) == Wire(data, sent)
  {
    assert "" + data == data && [] + sent == sent;
  }

  /** Take a client in, finish what its pool has in hand, and take up an event of the new client. */
  lemma TakenUp(app: App, s: State, fd: Net.Fd) returns (t: State, p: nat)
    requires Inv(app, s) && s.net.running && s.net.accepting == Net.Idle && s.net.pools != [] && fd !in s.net.open
    ensures Inv(app, t) && Leads(app, s, t) && p < |t.net.pools|
    ensures var g := s.net.nextGen;
            && t.net.pools[p].handling == Net.Got(Net.Event(fd, g), Some(g))
            && g in t.conns && t.conns[g] == FRESH && g in t.wires && t.wires[g] == Wire("", [])
  {
    p := s.net.nextPool;
    t := TakeIn(app, s, fd);
    Runs.RunningWhileAccepting(t.net, p);
    t := Finish(app, s, t, p);
    t := LookUp(app, s, t, p, fd);
  }

  /**
   In every reachable state in which the server runs and is about to accept, for every free descriptor,
   every ready request and every size that send may take, there is a run in which that request is received
   over that use of the descriptor, what send takes of the reply goes out over it, and it is closed.
   */
  lemma AnswerIsPossible(app: App, s: State, n: nat, fd: Net.Fd, data: string, taken: nat) returns (t: State)
    requires Reachable(app, s, n) && s.net.running && s.net.accepting == Net.Idle && s.net.pools != []
    requires fd !in s.net.open && Framing.IsReady(data) && data != "" && taken > 0
    ensures Leads(app, s, t) && s.net.nextGen in t.net.closed && fd !in t.net.open
    ensures s.net.nextGen in t.wires && t.wires[s.net.nextGen] == AnswerWire(app, data, taken)
  {
    ReachableInv(app, s, n);
    var u, p := TakenUp(app, s, fd);
    var v := Answer(app, s, u, p, data, taken);
    DeregisteredNext(u.net, p);
    t := LetGo(app, s, v, p, s.net.nextGen, fd);
  }

  lemma DeregisteredNext(net: Net.State, p: nat)
    requires Net.Enabled(net, Net.Deregister(p))
    ensures var net' := Net.Next(net, Net.Deregister(p));
            p < |net'.pools| && net'.pools[p].handling == Net.Deregistered(net.pools[p].handling.event)
  {
  }

  lemma LetGo(app: App, s: State, t: State, p: nat, g: Net.Gen, fd: Net.Fd) returns (u: State)
    requires Inv(app, t) && Leads(app, s, t) && p < |t.net.pools|
    requires t.net.pools[p].handling == Net.Deregistered(Net.Event(fd, g))
    ensures Leads(app, s, u) && u.wires == t.wires && g in u.net.closed && fd !in u.net.open
  {
    assert Net.PoolOk(t.net.pools[p]);
    u := TakeOwn(app, s, t, Net.Remove(p));
    assert u.net.closed[|t.net.closed|] == g;
  }
}
