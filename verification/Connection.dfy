/**
 One connection from accept to close: the client object and its buffers, the pool's map
 of clients and its poller set, and what every sequence of events does to a connection.
 Socket calls are parameters: what recv brought, how many bytes send took.
 */
module Connections {
  import opened Text
  import opened Message
  import opened Framing
  import opened Routing
  import opened Requests

  type Fd = nat

  /** What recv returned: 1 to 4096 bytes, 0 (closed by the peer) or -1. */
  datatype Recv = Bytes(data: string) | PeerClosed | RecvFailed

  /** What send returned. */
  datatype Send = Took(count: nat) | SendFailed

  /** A polled event, with what the socket calls made for it return. */
  datatype Event = Event(failed: bool, readable: bool, recv: Recv, send: Send)

  /** A connection's buffers, and the history of what was processed and sent. */
  datatype Conn = Conn(request: string, response: string, processing: bool, processed: seq<string>, sent: seq<string>)

  const FRESH := Conn("", "", false, [], [])

  // ---------- What one event does ----------

  /** writeResponse; a send that takes anything is taken for a full send. */
  function SendResponse(c: Conn, send: Send): Conn {
    match send
    case SendFailed => c
    case Took(n) =>
      if c.response == "" || n == 0 then c
      else c.(response := "", sent := c.sent + [if n <= |c.response| then c.response[..n] else c.response])
  }

  /** process_request. */
  function Process(app: App, c: Conn): Conn {
    c.(processing := true, response := ProcessBytes(app, c.request), processed := c.processed + [c.request])
  }

  /** handle_client_event on a client that is there: its new value, and whether the pool keeps it. */
  function HandleEvent(app: App, c: Conn, e: Event): (Conn, bool) {
    if e.failed then (c, false)
    else if !e.readable then (c, true)
    else if !e.recv.Bytes? || e.recv.data == "" then (c, false)
    else
      var c1 := c.(request := c.request + e.recv.data);
      if IsReady(c1.request) then (SendResponse(Process(app, c1), e.send), false) else (c1, true)
  }

  // ---------- The objects ----------

  class Client {
    const fd: Fd
    var requestBuffer: string
    var responseBuffer: string
    var processing: bool
    ghost var processed: seq<string>
    ghost var sent: seq<string>

    constructor (fd: Fd)
      ensures this.fd == fd && Value() == FRESH
    {
      this.fd, requestBuffer, responseBuffer, processing, processed, sent := fd, "", "", false, [], [];
    }

    ghost function Value(): Conn
      reads this
    {
      Conn(requestBuffer, responseBuffer, processing, processed, sent)
    }

    method ReadRequest(recv: Recv) returns (bytesRead: int)
      modifies this`requestBuffer
      ensures match recv
              case Bytes(data) => bytesRead == |data| && requestBuffer == old(requestBuffer) + data
              case PeerClosed => bytesRead == 0 && requestBuffer == old(requestBuffer)
              case RecvFailed => bytesRead == -1 && requestBuffer == old(requestBuffer)
    {
      match recv
      case Bytes(data) =>
        requestBuffer := requestBuffer + data;
        bytesRead := |data|;
      case PeerClosed => bytesRead := 0;
      case RecvFailed => bytesRead := -1;
    }

    method IsRequestReady() returns (ready: bool)
      ensures ready == IsReady(requestBuffer)
    {
      var str := requestBuffer;
      if str == "" {
        return false;
      }
      var headersEnd := Find(str, BLANK_LINE, 0);
      if headersEnd.None? {
        return false;
      }
      var lengthPos := Find(str, CONTENT_LENGTH, 0);
      if lengthPos.None? {
        return true;
      }
      var valueStart := lengthPos.value + 15;
      while valueStart < |str| && (str[valueStart] == ' ' || str[valueStart] == '\t')
        invariant valueStart <= |str|
        invariant SkipBlanks(str, valueStart) == SkipBlanks(str, lengthPos.value + 15)
      {
        valueStart := valueStart + 1;
      }
      var valueEnd := Find(str, CRLF, valueStart);
      if valueEnd.None? {
        return false;
      }
      var contentLength := Stoull(Substr(str, valueStart, SizeMinus(valueEnd.value, valueStart)));
      if contentLength.None? {
        return true;
      }
      var bodyReceived := SizeMinus(|str|, headersEnd.value + 4);
      return bodyReceived >= contentLength.value;
    }

    /** The buffer gets the serialised response; when serialising throws it stays. */
    method PrepareResponse(response: Response) returns (threw: bool)
      modifies this`responseBuffer
      ensures match RawResponse(response)
              case Some(raw) => !threw && responseBuffer == raw
              case None => threw && responseBuffer == old(responseBuffer)
    {
      var raw := ToRawResponse(response);
      if raw.None? {
        return true;
      }
      responseBuffer := "";
      responseBuffer := responseBuffer + raw.value;
      return false;
    }

    method WriteResponse(send: Send) returns (bytesSent: int)
      modifies this`responseBuffer, this`sent
      ensures Value() == SendResponse(old(Value()), send)
      ensures bytesSent == if old(responseBuffer) == "" then 0 else match send case Took(n) => n case SendFailed => -1
    {
      if responseBuffer == "" {
        return 0;
      }
      match send
      case SendFailed => bytesSent := -1;
      case Took(n) =>
        bytesSent := n;
        if n > 0 {
          sent := sent + [if n <= |responseBuffer| then responseBuffer[..n] else responseBuffer];
          responseBuffer := "";
        }
    }
  }

  class Pool {
    var clients: map<Fd, Client>
    var poller: set<Fd>

    /** The poller watches only clients of this pool, and no client object serves two descriptors. */
    ghost predicate Valid()
      reads this, clients.Values
    {
      && poller <= clients.Keys
      && forall fd :: fd in clients ==> clients[fd].fd == fd
    }

    constructor ()
      ensures Valid() && clients == map[] && poller == {}
    {
      clients, poller := map[], {};
    }

    method AddClient(fd: Fd)
      requires Valid()
      modifies this
      ensures Valid() && poller == old(poller) + {fd}
      ensures fd in clients && fresh(clients[fd]) && clients[fd].Value() == FRESH
      ensures clients == old(clients)[fd := clients[fd]]
    {
      var client := new Client(fd);
      clients := clients[fd := client];
      poller := poller + {fd};
    }

    method RemoveClient(fd: Fd)
      requires Valid()
      modifies this
      ensures Valid() && poller == old(poller) - {fd} && clients == old(clients) - {fd}
    {
      poller := poller - {fd};
      clients := clients - {fd};
    }

    method HandleClientEvent(app: App, fd: Fd, e: Event)
      requires Valid()
      modifies this, if fd in clients then {clients[fd]} else {}
      ensures Valid()
      ensures fd !in old(clients) ==> clients == old(clients) && poller == old(poller)
      ensures fd in old(clients) ==>
                var client := old(clients)[fd];
                var (c, keep) := HandleEvent(app, old(client.Value()), e);
                && client.Value() == c
                && clients == (if keep then old(clients) else old(clients) - {fd})
                && poller == (if keep then old(poller) else old(poller) - {fd})
      ensures fd in old(clients) && (e.failed || (e.readable && (!e.recv.Bytes? || e.recv.data == ""))) ==>
                fd !in clients && fd !in poller
      ensures fd in old(clients) && !e.failed && e.readable && e.recv.Bytes? && e.recv.data != "" ==>
                (fd in clients <==> !IsReady(old(clients[fd].requestBuffer) + e.recv.data)) && (fd in poller ==> fd in clients)
      ensures fd in old(clients) && !e.failed && !e.readable ==> fd in clients
    {
      if fd !in clients {
        return;
      }
      var client := clients[fd];
      if e.failed {
        RemoveClient(fd);
        return;
      }
      if e.readable {
        var keep := HandleReadable(app, client, e);
        if !keep {
          RemoveClient(fd);
        }
      }
    }

    /** A read event: collect, and when the request is ready process it and send; false means close. */
    method HandleReadable(app: App, client: Client, e: Event) returns (keep: bool)
      requires !e.failed && e.readable
      modifies client
      ensures (client.Value(), keep) == HandleEvent(app, old(client.Value()), e)
      ensures keep <==> e.recv.Bytes? && e.recv.data != "" && !IsReady(old(client.requestBuffer) + e.recv.data)
    {
      var bytesRead := client.ReadRequest(e.recv);
      if bytesRead <= 0 {
        assert client.requestBuffer == old(client.requestBuffer) by {
          if e.recv.Bytes? { assert old(client.requestBuffer) + "" == old(client.requestBuffer); }
        }
        return false;
      }
      var ready := client.IsRequestReady();
      if ready {
        var bytesSent := ProcessAndSend(app, client, e.send);
      }
      return !ready;
    }

    method ProcessAndSend(app: App, client: Client, send: Send) returns (bytesSent: int)
      modifies client
      ensures client.Value() == SendResponse(Process(app, old(client.Value())), send)
    {
      client.processing := true;
      ProcessRequest(app, client);
      bytesSent := client.WriteResponse(send);
    }

    /** Split, reply and serialise; whatever throws is answered by a server error. */
    method ProcessRequest(app: App, client: Client)
      modifies client`responseBuffer, client`processed
      ensures client.responseBuffer == ProcessBytes(app, client.requestBuffer)
      ensures client.processed == old(client.processed) + [client.requestBuffer]
    {
      client.processed := client.processed + [client.requestBuffer];
      var parts := SplitRequest(client.requestBuffer);
      var reply := MakeReply(app, parts);
      var threw := true;
      if reply.Some? {
        threw := client.PrepareResponse(reply.value);
      }
      if threw {
        threw := client.PrepareResponse(SERVER_ERROR);
      }
    }

    /** Parse, route and run; None when something throws. */
    method MakeReply(app: App, parts: CutResult) returns (reply: Option<Response>)
      ensures reply == ReplyFor(app, parts)
    {
      if !parts.Parts? {
        return Some(BAD_REQUEST);
      }
      var request := ParseRequest(parts.startLine, parts.headers, parts.body);
      if request.None? {
        return None;
      }
      reply := Dispatch(app, request.value);
    }

    /** The cut points of process_request. */
    method SplitRequest(data: string) returns (parts: CutResult)
      ensures parts == Cut(data)
    {
      var firstCrlf := Find(data, CRLF, 0);
      if firstCrlf.None? {
        return NoStartLine;
      }
      var startLine := data[..firstCrlf.value];
      var headersEnd := Find(data, BLANK_LINE, 0);
      if headersEnd.None? {
        return NoHeadersEnd;
      }
      var headers := Substr(data, firstCrlf.value + 2, SizeMinus(SizeMinus(headersEnd.value, firstCrlf.value), 2));
      var body := data[headersEnd.value + 4..];
      return Parts(startLine, headers, body);
    }

    method Dispatch(app: App, request: Request) returns (reply: Option<Response>)
      ensures reply == Reply(app, request)
    {
      var router := new Router();
      router.routes := app.routes;
      var threw, handler, params, middleware :=
        router.FindRoute(request.url.path, RoutingVerb(request.verb), app.regex, map[], []);
      if threw {
        return None;
      }
      if handler.None? {
        return Some(NOT_FOUND);
      }
      var current := Some(WithParams(request, params));
      for i := 0 to |middleware|
        invariant current.Some? ==>
                    RunMiddleware(app, middleware[i..], current.value)
                    == RunMiddleware(app, middleware, WithParams(request, params))
        invariant current.None? ==> RunMiddleware(app, middleware, WithParams(request, params)) == None
      {
        if current.Some? {
          assert middleware[i..][1..] == middleware[i + 1..];
          current := app.middleware(middleware[i], current.value);
        }
      }
      if current.None? {
        return None;
      }
      var response := app.handlers(handler.value, current.value);
      if response.None? {
        return None;
      }
      return Some(response.value.(headers := response.value.headers["Connection" := "close"]));
    }
  }

  // ---------- What every sequence of events does ----------

  /** A connection after events in order; once the pool has dropped it, events find no client. */
  function Serve(app: App, events: seq<Event>): (Conn, bool) {
    if events == [] then (FRESH, true)
    else
      var (c, live) := Serve(app, events[..|events| - 1]);
      if live then HandleEvent(app, c, events[|events| - 1]) else (c, false)
  }

  /** A ready buffer is never answered by one of the two bad-request branches. */
  lemma ReadyIsNeverBadRequest(data: string)
    requires IsReady(data)
    ensures Cut(data).Parts?
  {
    HeadGeometry(data);
  }

  ghost predicate LifecycleOk(app: App, c: Conn, live: bool) {
    if live then c.processed == [] && c.sent == [] && !IsReady(c.request)
    else
      && |c.sent| <= |c.processed| <= 1
      && (forall i :: 0 <= i < |c.processed| ==> c.processed[i] == c.request && IsReady(c.request))
      && forall i :: 0 <= i < |c.sent| ==> c.sent[i] != "" && c.sent[i] <= ProcessBytes(app, c.request)
  }

  /**
   Over every sequence of events a connection is processed at most once and only with a ready
   buffer, and is sent at most one run of bytes, which begin the reply to that buffer; while the
   pool keeps it, nothing has been processed or sent.
   */
  lemma {:induction false} Lifecycle(app: App, events: seq<Event>)
    ensures var (c, live) := Serve(app, events); LifecycleOk(app, c, live)
    decreases |events|
  {
    if events == [] {
      EmptyIsNotWhole();
    } else {
      var (c, live) := Serve(app, events[..|events| - 1]);
      Lifecycle(app, events[..|events| - 1]);
      if live { EventKeepsLifecycle(app, c, events[|events| - 1]); }
    }
  }

  /** A send takes at most one run of bytes, and those begin the prepared reply. */
  lemma SendOnce(c: Conn, send: Send)
    requires c.sent == [] && c.response != ""
    ensures var c' := SendResponse(c, send);
            && c'.request == c.request && c'.processed == c.processed
            && match send
               case SendFailed => c'.sent == []
               case Took(n) =>
                 if n == 0 then c'.sent == []
                 else |c'.sent| == 1 && c'.sent[0] != "" && c'.sent[0] <= c.response
  {
  }

  lemma AnsweredIsOk(app: App, c: Conn, send: Send)
    requires c.processed == [] && c.sent == [] && IsReady(c.request)
    ensures LifecycleOk(app, SendResponse(Process(app, c), send), false)
  {
    ReplyIsNotEmpty(app, c.request);
    SendOnce(Process(app, c), send);
  }

  lemma EventKeepsLifecycle(app: App, c: Conn, e: Event)
    requires LifecycleOk(app, c, true)
    ensures var (c', live) := HandleEvent(app, c, e); LifecycleOk(app, c', live)
  {
    if !e.failed && e.readable && e.recv.Bytes? && IsReady(c.request + e.recv.data) {
      AnsweredIsOk(app, c.(request := c.request + e.recv.data), e.send);
    }
  }

  // ---------- When a connection ends, and what it has done by then ----------

  /** The bytes that a sequence of events brings. */
  function Gathered(events: seq<Event>): string {
    if events == [] then ""
    else
      var e := events[|events| - 1];
      Gathered(events[..|events| - 1]) + if e.readable && e.recv.Bytes? then e.recv.data else ""
  }

  /** The poller reports an error, recv brings nothing, or the bytes so far are a ready request. */
  predicate EndsAt(events: seq<Event>, i: nat)
    requires i < |events|
  {
    var e := events[i];
    || e.failed
    || (e.readable && (!e.recv.Bytes? || e.recv.data == "" || IsReady(Gathered(events[..i + 1]))))
  }

  /** What a ready request leaves: it is processed, and what send takes of the reply is sent. */
  ghost predicate ServedOnce(app: App, c: Conn, data: string, send: Send) {
    var reply := ProcessBytes(app, data);
    && c.request == data && c.processed == [data] && c.processing
    && match send
       case Took(n) =>
         if n == 0 then c.sent == [] && c.response == reply
         else c.sent == [if n <= |reply| then reply[..n] else reply] && c.response == ""
       case SendFailed => c.sent == [] && c.response == reply
  }

  lemma GatheredPrefix(events: seq<Event>, i: nat)
    requires i < |events| - 1
    ensures events[..|events| - 1][..i + 1] == events[..i + 1]
    ensures EndsAt(events[..|events| - 1], i) <==> EndsAt(events, i)
  {
  }

  /** While nothing has ended it a connection holds the bytes received, and has done nothing else. */
  lemma {:induction false} NotEnded(app: App, events: seq<Event>)
    requires forall i :: 0 <= i < |events| ==> !EndsAt(events, i)
    ensures Serve(app, events) == (FRESH.(request := Gathered(events)), true)
    decreases |events|
  {
    if events != [] {
      var n := |events| - 1;
      forall i | 0 <= i < n ensures !EndsAt(events[..n], i) { GatheredPrefix(events, i); }
      NotEnded(app, events[..n]);
      assert events[..n + 1] == events && !EndsAt(events, n);
      EventBrings(app, Gathered(events[..n]), events[n]);
    }
  }

  /** One event on a connection that only holds received bytes. */
  lemma EventBrings(app: App, data: string, e: Event)
    ensures var (c, live) := HandleEvent(app, FRESH.(request := data), e);
            var more := data + if e.readable && e.recv.Bytes? then e.recv.data else "";
            if e.failed || (e.readable && (!e.recv.Bytes? || e.recv.data == "")) then
              !live && c == FRESH.(request := data)
            else if e.readable && IsReady(more) then !live && ServedOnce(app, c, more, e.send)
            else live && c == FRESH.(request := more)
  {
    assert data + "" == data;
    ReplyIsNotEmpty(app, data + if e.readable && e.recv.Bytes? then e.recv.data else "");
  }

  lemma {:induction false} GoneForGood(app: App, events: seq<Event>, k: nat)
    requires k <= |events| && !Serve(app, events[..k]).1
    ensures Serve(app, events) == Serve(app, events[..k])
    decreases |events|
  {
    if k == |events| {
      assert events[..k] == events;
    } else {
      assert events[..|events| - 1][..k] == events[..k];
      GoneForGood(app, events[..|events| - 1], k);
    }
  }

  /**
   The first event that ends a connection decides what becomes of it: on an error it keeps what it had
   received, on the end of the stream too, and a ready request is processed and answered, once.
   */
  lemma EndedAt(app: App, events: seq<Event>, i: nat)
    requires i < |events| && EndsAt(events, i) && forall j :: 0 <= j < i ==> !EndsAt(events, j)
    ensures var (c, live) := Serve(app, events);
            && !live
            && var e := events[i];
               if e.failed || !e.recv.Bytes? || e.recv.data == "" then c == FRESH.(request := Gathered(events[..i]))
               else ServedOnce(app, c, Gathered(events[..i + 1]), e.send)
  {
    var most := events[..i];
    forall j | 0 <= j < i ensures !EndsAt(most, j) { assert !EndsAt(events, j) && most[..j + 1] == events[..j + 1]; }
    NotEnded(app, most);
    assert events[..i + 1][..i] == most;
    EventBrings(app, Gathered(most), events[i]);
    GoneForGood(app, events, i + 1);
  }

  lemma FirstEnd(events: seq<Event>, k: nat) returns (i: nat)
    requires k < |events| && EndsAt(events, k)
    ensures i <= k && EndsAt(events, i) && forall j :: 0 <= j < i ==> !EndsAt(events, j)
  {
    if j :| 0 <= j < k && EndsAt(events, j) {
      i := FirstEnd(events, j);
    } else {
      i := k;
    }
  }

  /** A connection is still there if and only if no event failed, no read came back empty, and no prefix was ready. */
  lemma LiveIff(app: App, events: seq<Event>)
    ensures Serve(app, events).1 <==>
            forall i :: 0 <= i < |events| ==>
              && !events[i].failed
              && (events[i].readable ==> events[i].recv.Bytes? && events[i].recv.data != "")
              && (events[i].readable ==> !IsReady(Gathered(events[..i + 1])))
  {
    if i :| 0 <= i < |events| && EndsAt(events, i) {
      var first := FirstEnd(events, i);
      EndedAt(app, events, first);
    } else {
      NotEnded(app, events);
      forall i | 0 <= i < |events|
        ensures !events[i].failed
        ensures events[i].readable ==> events[i].recv.Bytes? && events[i].recv.data != ""
        ensures events[i].readable ==> !IsReady(Gathered(events[..i + 1]))
      {
        assert !EndsAt(events, i);
      }
    }
  }

  /** The events of plain reads. */
  function Reads(chunks: seq<string>, send: Send): seq<Event> {
    seq(|chunks|, i requires 0 <= i < |chunks| => Event(false, true, Bytes(chunks[i]), send))
  }

  lemma {:induction false} ReadsBeforeReady(app: App, chunks: seq<string>, send: Send)
    requires forall i :: 0 <= i < |chunks| ==> chunks[i] != ""
    requires forall j :: 0 < j <= |chunks| ==> !IsReady(Received(chunks[..j]))
    ensures Serve(app, Reads(chunks, send)) == (FRESH.(request := Received(chunks)), true)
    decreases |chunks|
  {
    if chunks != [] {
      var most := chunks[..|chunks| - 1];
      forall j | 0 < j <= |most| ensures !IsReady(Received(most[..j])) {
        assert most[..j] == chunks[..j];
      }
      ReadsBeforeReady(app, most, send);
      assert Reads(chunks, send)[..|chunks| - 1] == Reads(most, send);
      assert chunks[..|chunks|] == chunks;
    }
  }

  lemma EmptyIsNotWhole()
    ensures !IsWholeMessage("") && !IsReady("") && Received([]) == ""
  {
    assert !OccursAt("", BLANK_LINE, 0);
  }

  /** While the message is incomplete the connection only collects bytes. */
  lemma CollectsUntilWhole(app: App, chunks: seq<string>, send: Send, j: nat)
    requires forall i :: 0 <= i < |chunks| ==> chunks[i] != ""
    requires j < |chunks| && forall i :: 0 <= i < |chunks| ==> !IsReady(Received(chunks[..i]))
    ensures Serve(app, Reads(chunks[..j], send)) == (FRESH.(request := Received(chunks[..j])), true)
  {
    forall i | 0 < i <= j ensures !IsReady(Received(chunks[..j][..i])) {
      assert chunks[..j][..i] == chunks[..i];
    }
    ReadsBeforeReady(app, chunks[..j], send);
  }

  lemma ServeLast(app: App, chunks: seq<string>, send: Send)
    requires chunks != []
    ensures var (c, live) := Serve(app, Reads(chunks[..|chunks| - 1], send));
            Serve(app, Reads(chunks, send)) ==
            if live then HandleEvent(app, c, Event(false, true, Bytes(chunks[|chunks| - 1]), send)) else (c, false)
  {
    assert Reads(chunks, send)[..|chunks| - 1] == Reads(chunks[..|chunks| - 1], send);
  }

  /**
   However a whole message is cut into reads, its connection is processed once, with exactly that
   message, and is then dropped; if send takes anything, what it takes begins the reply to it.
   */
  lemma WholeMessageServedOnce(app: App, chunks: seq<string>, send: Send)
    requires IsWholeMessage(Received(chunks)) && |Received(chunks)| <= MAX_SIZE
    requires forall i :: 0 <= i < |chunks| ==> chunks[i] != ""
    ensures var m := Received(chunks);
            Serve(app, Reads(chunks, send)) == (SendResponse(Process(app, FRESH.(request := m)), send), false)
    ensures forall j :: 0 <= j < |chunks| ==>
              Serve(app, Reads(chunks[..j], send)) == (FRESH.(request := Received(chunks[..j])), true)
  {
    ChunkingIndependent(chunks);
    EmptyIsNotWhole();
    forall j | 0 <= j < |chunks|
      ensures Serve(app, Reads(chunks[..j], send)) == (FRESH.(request := Received(chunks[..j])), true)
    {
      CollectsUntilWhole(app, chunks, send, j);
    }
    assert chunks != [];
    ServeLast(app, chunks, send);
  }

  // ---------- A stream that goes on behind a message ----------

  lemma {:induction false} DroppedForGood(app: App, chunks: seq<string>, send: Send, j: nat, c: Conn)
    requires j <= |chunks| && Serve(app, Reads(chunks[..j], send)) == (c, false)
    ensures Serve(app, Reads(chunks, send)) == (c, false)
    decreases |chunks|
  {
    if j == |chunks| {
      assert chunks[..j] == chunks;
    } else {
      var most := chunks[..|chunks| - 1];
      assert most[..j] == chunks[..j];
      DroppedForGood(app, most, send, j, c);
      ServeLast(app, chunks, send);
    }
  }

  /** The first read with which `n` bytes have arrived. */
  lemma {:induction false} FirstWith(chunks: seq<string>, n: nat) returns (j: nat)
    requires 0 < n <= |Received(chunks)|
    ensures 0 < j <= |chunks| && n <= |Received(chunks[..j])|
    ensures forall i :: 0 <= i < j ==> |Received(chunks[..i])| < n
    decreases |chunks|
  {
    var most := chunks[..|chunks| - 1];
    if n <= |Received(most)| {
      j := FirstWith(most, n);
      assert most[..j] == chunks[..j] && forall i :: 0 <= i < j ==> most[..i] == chunks[..i];
    } else {
      j := |chunks|;
      assert chunks[..j] == chunks;
      forall i | 0 <= i < j ensures |Received(chunks[..i])| < n {
        ReceivedPrefix(most, i);
        assert most[..i] == chunks[..i];
      }
    }
  }

  /** A connection served once, with the message and as much of what follows it as had arrived with its end. */
  ghost predicate ServedWith(app: App, m: string, chunks: seq<string>, send: Send) {
    exists e :: m + e <= Received(chunks)
                && Serve(app, Reads(chunks, send)) == (SendResponse(Process(app, FRESH.(request := m + e)), send), false)
  }

  /** Bytes that begin with a message, in non-empty reads. */
  ghost predicate Stream(m: string, chunks: seq<string>) {
    m <= Received(chunks) && |Received(chunks)| <= MAX_SIZE && forall i :: 0 <= i < |chunks| ==> chunks[i] != ""
  }

  lemma NotReadyWithin(m: string, chunks: seq<string>, i: nat)
    requires IsWholeMessage(m) && Stream(m, chunks) && i <= |chunks| && |Received(chunks[..i])| < |m|
    ensures !IsReady(Received(chunks[..i]))
  {
    ReadyExactlyAtEndIff(m);
    ReceivedPrefix(chunks, i);
    var k := |Received(chunks[..i])|;
    assert m[..k] == Received(chunks)[..k];
  }

  lemma CollectsUntil(app: App, chunks: seq<string>, send: Send, j: nat)
    requires 0 < j <= |chunks| && (forall i :: 0 <= i < |chunks| ==> chunks[i] != "")
    requires forall i :: 0 <= i < j ==> !IsReady(Received(chunks[..i]))
    requires IsReady(Received(chunks[..j]))
    ensures Serve(app, Reads(chunks[..j], send))
            == (SendResponse(Process(app, FRESH.(request := Received(chunks[..j]))), send), false)
  {
    var part := chunks[..j];
    forall i | 0 <= i < j ensures !IsReady(Received(part[..i])) { assert part[..i] == chunks[..i]; }
    LastMakesReady(app, part, send);
  }

  lemma LastMakesReady(app: App, part: seq<string>, send: Send)
    requires part != [] && (forall i :: 0 <= i < |part| ==> part[i] != "")
    requires (forall i :: 0 <= i < |part| ==> !IsReady(Received(part[..i]))) && IsReady(Received(part))
    ensures Serve(app, Reads(part, send))
            == (SendResponse(Process(app, FRESH.(request := Received(part))), send), false)
  {
    var j := |part| - 1;
    CollectsUntilWhole(app, part, send, j);
    ServeLast(app, part, send);
    ReadMakesReady(app, FRESH.(request := Received(part[..j])), part[j], send);
  }

  lemma ReadMakesReady(app: App, c: Conn, data: string, send: Send)
    requires data != "" && IsReady(c.request + data)
    ensures HandleEvent(app, c, Event(false, true, Bytes(data), send))
            == (SendResponse(Process(app, c.(request := c.request + data)), send), false)
  {
  }

  /**
   A stream that goes on behind a message with a Content-Length is served once, for every cut into
   reads: with that message, and with what had arrived behind it added to its body.
   */
  lemma StreamServedOnce(app: App, m: string, chunks: seq<string>, send: Send)
    requires IsWholeMessage(m) && Find(m, CONTENT_LENGTH, 0).Some? && Stream(m, chunks)
    ensures ServedWith(app, m, chunks, send)
  {
    var j, e := FirstReady(m, chunks);
    CollectsUntil(app, chunks, send, j);
    DroppedForGood(app, chunks, send, j, SendResponse(Process(app, FRESH.(request := m + e)), send));
  }

  /** The read that makes the buffer ready: the first that brings the end of the message. */
  lemma FirstReady(m: string, chunks: seq<string>) returns (j: nat, e: string)
    requires IsWholeMessage(m) && Find(m, CONTENT_LENGTH, 0).Some? && Stream(m, chunks)
    ensures 0 < j <= |chunks| && Received(chunks[..j]) == m + e && m + e <= Received(chunks)
    ensures IsReady(Received(chunks[..j])) && forall i :: 0 <= i < j ==> !IsReady(Received(chunks[..i]))
  {
    EmptyIsNotWhole();
    j := FirstWith(chunks, |m|);
    forall i | 0 <= i < j ensures !IsReady(Received(chunks[..i])) { NotReadyWithin(m, chunks, i); }
    ReceivedPrefix(chunks, j);
    e := Received(chunks[..j])[|m|..];
    assert m + e == Received(chunks[..j]);
    ReadyExactlyAtEndIff(m);
    ReadyIsKept(m, e);
  }

  /** Without a Content-Length, a read that brings more than the message can leave the connection waiting. */
  lemma UnannouncedCanWait(app: App, m: string, send: Send)
    requires Find(m, CONTENT_LENGTH, 0).None? && |m + OPEN_LENGTH| <= MAX_SIZE
    ensures Stream(m, [m + OPEN_LENGTH]) && !ServedWith(app, m, [m + OPEN_LENGTH], send)
  {
    var chunks := [m + OPEN_LENGTH];
    OpenedIsNotReady(m);
    assert chunks[..0] == [] && chunks[..1] == chunks && Received([]) == "";
    assert Received(chunks) == "" + (m + OPEN_LENGTH) == m + OPEN_LENGTH;
    ReadsBeforeReady(app, chunks, send);
  }

  /** Every cut of every stream behind a whole message is served with it exactly when it has a Content-Length. */
  lemma StreamServedIff(app: App, m: string, send: Send)
    requires IsWholeMessage(m) && |m + OPEN_LENGTH| <= MAX_SIZE
    ensures (forall chunks :: Stream(m, chunks) ==> ServedWith(app, m, chunks, send))
            <==> Find(m, CONTENT_LENGTH, 0).Some?
  {
    if Find(m, CONTENT_LENGTH, 0).Some? {
      forall chunks | Stream(m, chunks) ensures ServedWith(app, m, chunks, send) {
        StreamServedOnce(app, m, chunks, send);
      }
    } else {
      UnannouncedCanWait(app, m, send);
    }
  }

  // ---------- End to end ----------

  /**
   End to end: a transmissible request that is one whole message is, for every cut into reads,
   answered exactly once, and what is sent begins the reply computed from the request itself.
   */
  lemma RequestServed(app: App, r: Request, chunks: seq<string>, send: Send)
    requires Transmissible(r) && Received(chunks) == RequestText(r)
    requires IsWholeMessage(RequestText(r)) && |RequestText(r)| <= MAX_SIZE
    requires forall i :: 0 <= i < |chunks| ==> chunks[i] != ""
    ensures Answered(app, r, Serve(app, Reads(chunks, send)), send)
  {
    WholeMessageServedOnce(app, chunks, send);
    RequestUnderstood(app, r);
    AnsweredBySend(app, r, FRESH.(request := RequestText(r)), send);
  }

  /** The request has been processed once, and what send took of its reply has been sent. */
  ghost predicate Answered(app: App, r: Request, served: (Conn, bool), send: Send) {
    var (c, live) := served;
    && !live && c.processed == [RequestText(r)]
    && match send
       case Took(n) => n > 0 ==> |c.sent| == 1 && c.sent[0] != "" && c.sent[0] <= Serialise(Reply(app, r))
       case SendFailed => c.sent == []
  }

  lemma AnsweredBySend(app: App, r: Request, c: Conn, send: Send)
    requires c.request == RequestText(r) && c.processed == [] && c.sent == []
    requires ProcessBytes(app, c.request) == Serialise(Reply(app, r))
    ensures Answered(app, r, (SendResponse(Process(app, c), send), false), send)
  {
    SerialisedIsNotEmpty(Reply(app, r));
    SendOnce(Process(app, c), send);
  }

  /** The same for a request whose own headers announce the length of its body. */
  lemma AnnouncedRequestServed(app: App, r: Request, chunks: seq<string>, send: Send)
    requires Transmissible(r) && Received(chunks) == RequestText(r) && |RequestText(r)| <= MAX_SIZE
    requires Announces(StartLine(r), r.headers, |r.body|)
    requires forall i :: 0 <= i < |chunks| ==> chunks[i] != ""
    ensures Answered(app, r, Serve(app, Reads(chunks, send)), send)
  {
    RequestIsWhole(r);
    RequestServed(app, r, chunks, send);
  }
}
