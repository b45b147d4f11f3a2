/**
 From the bytes of a request to the bytes of its reply: request parsing, routing,
 middleware, handler, and the replies made when one of them fails.
 */
module Requests {
  import opened Text
  import opened UrlSpec
  import opened UrlProofs
  import opened HttpHeaders
  import opened Message
  import Framing
  import opened Routing

  datatype Method = GET | HEAD | POST | PUT | DELETE | CONNECT | OPTIONS | TRACE | PATCH

  function MethodText(m: Method): string {
    match m
    case GET => "GET"
    case HEAD => "HEAD"
    case POST => "POST"
    case PUT => "PUT"
    case DELETE => "DELETE"
    case CONNECT => "CONNECT"
    case OPTIONS => "OPTIONS"
    case TRACE => "TRACE"
    case PATCH => "PATCH"
  }

  /** None stands for the exception on an unknown method. */
  function ParseMethod(s: string): Option<Method> {
    if s == "GET" then Some(GET)
    else if s == "HEAD" then Some(HEAD)
    else if s == "POST" then Some(POST)
    else if s == "PUT" then Some(PUT)
    else if s == "DELETE" then Some(DELETE)
    else if s == "CONNECT" then Some(CONNECT)
    else if s == "OPTIONS" then Some(OPTIONS)
    else if s == "TRACE" then Some(TRACE)
    else if s == "PATCH" then Some(PATCH)
    else None
  }

  function ParseVersion(s: string): Option<Version> {
    if s == "HTTP/0.9" then Some(HTTP_0_9)
    else if s == "HTTP/1.0" then Some(HTTP_1_0)
    else if s == "HTTP/1.1" then Some(HTTP_1_1)
    else if s == "HTTP/2.0" then Some(HTTP_2_0)
    else if s == "HTTP/3.0" then Some(HTTP_3_0)
    else None
  }

  /** The method under which the router is asked; all but four are asked for as GET. */
  function RoutingVerb(m: Method): string {
    match m
    case POST => "POST"
    case PUT => "PUT"
    case DELETE => "DELETE"
    case _ => "GET"
  }

  // ---------- Reading words from a stream ----------

  predicate NoSpace(s: string) { forall i :: 0 <= i < |s| ==> !Framing.IsSpace(s[i]) }

  /** The length of the first word of a text that starts with one. */
  function WordLength(s: string): (n: nat)
    ensures n <= |s| && NoSpace(s[..n]) && (n < |s| ==> Framing.IsSpace(s[n]))
  {
    if s == "" || Framing.IsSpace(s[0]) then 0 else 1 + WordLength(s[1..])
  }

  /** operator>>: skip white space, then take characters up to the next white space. */
  function Word(s: string): string {
    var t := Framing.SkipSpace(s);
    t[..WordLength(t)]
  }

  function AfterWord(s: string): string {
    var t := Framing.SkipSpace(s);
    t[WordLength(t)..]
  }

  // ---------- Requests ----------

  datatype Request = Request(verb: Method, url: UrlValue, version: Version, headers: HeaderMap, body: string)

  /** The constructor; None stands for the exception it throws when any part of the start line is bad. */
  function ParseRequest(startLine: string, headers: string, body: string): Option<Request> {
    var s1 := AfterWord(startLine);
    match (ParseMethod(Word(startLine)), ParseUrl(Word(s1)), ParseVersion(Word(AfterWord(s1))))
    case (Some(m), Ok(u), Some(v)) => Some(Request(m, u, v, ParseHeaders(headers, map[]), body))
    case _ => None
  }

  // ---------- Replies ----------

  /** The registered routes, and what handlers, middleware and regular expressions do; None stands for a throw. */
  datatype App = App(
    routes: seq<Route>,
    regex: RegexMatcher,
    middleware: (MiddlewareId, Request) -> Option<Request>,
    handlers: (HandlerId, Request) -> Option<Response>)

  const CLOSE := map["Connection" := "close"]

  const BAD_REQUEST := Response(HTTP_1_1, 400, map[], "Bad Request")
  const NOT_FOUND := Response(HTTP_1_1, 404, CLOSE, "Not Found")
  const SERVER_ERROR := Response(HTTP_1_1, 500, CLOSE, "Internal Server Error")

  /** Each route parameter becomes a header of the request. */
  function AddParams(ks: seq<string>, params: Params, h: HeaderMap): HeaderMap
    requires forall k :: k in ks ==> k in params
  {
    if ks == [] then h else AddParams(ks[1..], params, h["x-param-" + ks[0] := params[ks[0]]])
  }

  function WithParams(r: Request, params: Params): Request {
    r.(headers := AddParams(SortedKeys(params.Keys), params, r.headers))
  }

  function RunMiddleware(app: App, ids: seq<MiddlewareId>, r: Request): Option<Request> {
    if ids == [] then Some(r)
    else match app.middleware(ids[0], r) case None => None case Some(r') => RunMiddleware(app, ids[1..], r')
  }

  /** The reply of a route, None if anything on the way throws. */
  function RunRoute(app: App, route: Route, params: Params, r: Request): Option<Response> {
    match route.handler
    case None => Some(NOT_FOUND)
    case Some(h) =>
      match RunMiddleware(app, route.middleware, WithParams(r, params))
      case None => None
      case Some(r') =>
        match app.handlers(h, r')
        case None => None
        case Some(reply) => Some(reply.(headers := reply.headers["Connection" := "close"]))
  }

  /** The reply to a request that has been parsed. */
  function Reply(app: App, r: Request): Option<Response> {
    match FirstRoute(app.routes, r.url.path, RoutingVerb(r.verb), app.regex, map[])
    case Threw => None
    case NotFound => Some(NOT_FOUND)
    case Found(i, params) => RunRoute(app, app.routes[i], params, r)
  }

  /** The text sent for a reply; an exception on the way, printing included, makes it a server error. */
  function Serialise(reply: Option<Response>): string {
    if reply.Some? && RawResponse(reply.value).Some? then RawResponse(reply.value).value
    else RawResponse(SERVER_ERROR).value
  }

  /** The reply to a request that has been cut; None when anything on the way throws. */
  function ReplyFor(app: App, parts: CutResult): Option<Response> {
    match parts
    case NoStartLine => Some(BAD_REQUEST)
    case NoHeadersEnd => Some(BAD_REQUEST)
    case Parts(startLine, headers, body) =>
      match ParseRequest(startLine, headers, body)
      case None => None
      case Some(r) => Reply(app, r)
  }

  /** What process_request prepares for the bytes of a request. */
  function ProcessBytes(app: App, data: string): string {
    Serialise(ReplyFor(app, Cut(data)))
  }

  lemma RawIsNotEmpty(r: Response)
    requires RawResponse(r).Some?
    ensures RawResponse(r).value != ""
  {
    assert |MessageText(StatusLine(r), r.headers, r.body)| >= |CRLF|;
  }

  /** There is always something to send. */
  lemma ReplyIsNotEmpty(app: App, data: string)
    ensures ProcessBytes(app, data) != ""
  {
    SerialisedIsNotEmpty(ReplyFor(app, Cut(data)));
  }

  lemma SerialisedIsNotEmpty(reply: Option<Response>)
    ensures Serialise(reply) != ""
  {
    RawIsNotEmpty(SERVER_ERROR);
    if reply.Some? && RawResponse(reply.value).Some? { RawIsNotEmpty(reply.value); }
  }

  /** Every route parameter arrives as its header; the other headers are as they were sent. */
  lemma {:induction false} ParamsArrive(ks: seq<string>, params: Params, h: HeaderMap, name: string)
    requires Ascending(ks) && forall k :: k in ks ==> k in params
    ensures var h' := AddParams(ks, params, h);
            && (forall k :: k in ks ==> "x-param-" + k in h' && h'["x-param-" + k] == params[k])
            && ((forall k :: k in ks ==> name != "x-param-" + k) ==>
                  (name in h' <==> name in h) && (name in h ==> h'[name] == h[name]))
    decreases |ks|
  {
    if ks != [] {
      var first, rest := "x-param-" + ks[0], ks[1..];
      var h1 := h[first := params[ks[0]]];
      ParamsArrive(rest, params, h1, name);
      ParamsArrive(rest, params, h1, first);
      forall k | k in rest ensures first != "x-param-" + k {
        assert first[8..] == ks[0] && ("x-param-" + k)[8..] == k;
      }
    }
  }

  // ---------- What a reply is made of ----------

  /** The name is that of a route parameter's header. */
  ghost predicate IsParamHeader(params: Params, name: string) {
    exists k :: k in params && name == "x-param-" + k
  }

  /** The request with every route parameter under its own header, and everything else as it was. */
  ghost predicate Labelled(r: Request, params: Params, q: Request) {
    && q == r.(headers := q.headers)
    && (forall k :: k in params ==> Held(q.headers, "x-param-" + k) == Some(params[k]))
    && forall name :: !IsParamHeader(params, name) ==> Held(q.headers, name) == Held(r.headers, name)
  }

  /** Each middleware is given what the one before it made of the request. */
  ghost predicate Chain(app: App, ids: seq<MiddlewareId>, q: seq<Request>) {
    |q| == |ids| + 1 && forall j :: 0 <= j < |ids| ==> app.middleware(ids[j], q[j]) == Some(q[j + 1])
  }

  /** The handler's reply to what the last middleware made of the request, told to close the connection. */
  ghost predicate HandledAs(app: App, route: Route, params: Params, r: Request, reply: Response) {
    exists q, raw ::
      && Chain(app, route.middleware, q) && Labelled(r, params, q[0])
      && route.handler.Some? && app.handlers(route.handler.value, q[|route.middleware|]) == Some(raw)
      && reply == raw.(headers := raw.headers["Connection" := "close"])
  }

  /** A middleware, or at last the handler, throws on what the ones before it made of the request. */
  ghost predicate ThrowsAt(app: App, route: Route, q: seq<Request>) {
    var n := |q| - 1;
    && 0 <= n <= |route.middleware| && Chain(app, route.middleware[..n], q)
    && if n < |route.middleware| then app.middleware(route.middleware[n], q[n]) == None
       else route.handler.Some? && app.handlers(route.handler.value, q[n]) == None
  }

  ghost predicate Throws(app: App, route: Route, params: Params, r: Request) {
    exists q :: ThrowsAt(app, route, q) && Labelled(r, params, q[0])
  }

  lemma WithParamsLabels(r: Request, params: Params)
    ensures Labelled(r, params, WithParams(r, params))
  {
    var q, ks := WithParams(r, params), SortedKeys(params.Keys);
    forall k | k in params ensures Held(q.headers, "x-param-" + k) == Some(params[k]) {
      ParamsArrive(ks, params, r.headers, "");
    }
    forall name | !IsParamHeader(params, name) ensures Held(q.headers, name) == Held(r.headers, name) {
      assert forall k :: k in ks ==> name != "x-param-" + k;
      ParamsArrive(ks, params, r.headers, name);
    }
  }

  lemma SameHeld(a: HeaderMap, b: HeaderMap)
    requires forall name :: Held(a, name) == Held(b, name)
    ensures a == b
  {
    forall name ensures name in a <==> name in b { assert Held(a, name) == Held(b, name); }
    forall name | name in a ensures a[name] == b[name] { assert Held(a, name) == Held(b, name); }
  }

  /** There is only one such request. */
  lemma LabelledOnce(r: Request, params: Params, p: Request, q: Request)
    requires Labelled(r, params, p) && Labelled(r, params, q)
    ensures p == q
  {
    forall name ensures Held(p.headers, name) == Held(q.headers, name) {
      if IsParamHeader(params, name) {
        var k :| k in params && name == "x-param-" + k;
      }
    }
    SameHeld(p.headers, q.headers);
  }

  /** The chain as far as it gets. */
  lemma {:induction false} RunChain(app: App, ids: seq<MiddlewareId>, r: Request) returns (q: seq<Request>)
    ensures 0 < |q| <= |ids| + 1 && q[0] == r && Chain(app, ids[..|q| - 1], q)
    ensures match RunMiddleware(app, ids, r)
            case Some(last) => |q| == |ids| + 1 && last == q[|ids|]
            case None => |q| <= |ids| && app.middleware(ids[|q| - 1], q[|q| - 1]) == None
    decreases |ids|
  {
    q := [r];
    if ids != [] && app.middleware(ids[0], r).Some? {
      var rest := RunChain(app, ids[1..], app.middleware(ids[0], r).value);
      q := [r] + rest;
      forall j | 0 <= j < |rest| ensures app.middleware(ids[j], q[j]) == Some(q[j + 1]) {
        if j > 0 { assert app.middleware(ids[1..][..|rest| - 1][j - 1], rest[j - 1]) == Some(rest[j]); }
      }
    }
  }

  /** Chains over the same middleware from the same request agree as far as both go. */
  lemma {:induction false} ChainsAgree(app: App, ids: seq<MiddlewareId>, p: seq<Request>, q: seq<Request>, j: nat)
    requires 0 < |p| <= |ids| + 1 && 0 < |q| <= |ids| + 1 && j < |p| && j < |q| && p[0] == q[0]
    requires Chain(app, ids[..|p| - 1], p) && Chain(app, ids[..|q| - 1], q)
    ensures p[j] == q[j]
  {
    if j > 0 {
      ChainsAgree(app, ids, p, q, j - 1);
      assert app.middleware(ids[..|p| - 1][j - 1], p[j - 1]) == Some(p[j]);
      assert app.middleware(ids[..|q| - 1][j - 1], q[j - 1]) == Some(q[j]);
    }
  }

  /** Where a chain from the labelled request stands agrees with any other such chain. */
  lemma SameChain(app: App, route: Route, params: Params, r: Request, p: seq<Request>, q: seq<Request>, j: nat)
    requires 0 < |p| <= |route.middleware| + 1 && 0 < |q| <= |route.middleware| + 1 && j < |p| && j < |q|
    requires Labelled(r, params, p[0]) && Labelled(r, params, q[0])
    requires Chain(app, route.middleware[..|p| - 1], p) && Chain(app, route.middleware[..|q| - 1], q)
    ensures p[j] == q[j]
  {
    LabelledOnce(r, params, p[0], q[0]);
    ChainsAgree(app, route.middleware, p, q, j);
  }

  lemma WholeChain(app: App, ids: seq<MiddlewareId>, q: seq<Request>)
    requires |q| == |ids| + 1
    ensures Chain(app, ids[..|q| - 1], q) <==> Chain(app, ids, q)
  {
    assert ids[..|q| - 1] == ids;
  }

  /** Where one chain throws, no other goes on. */
  lemma ThrowsHere(app: App, route: Route, params: Params, r: Request, p: seq<Request>, q: seq<Request>)
    requires ThrowsAt(app, route, p) && Labelled(r, params, p[0])
    requires Chain(app, route.middleware, q) && Labelled(r, params, q[0])
    ensures |p| == |q| && route.handler.Some? && app.handlers(route.handler.value, q[|route.middleware|]) == None
  {
    WholeChain(app, route.middleware, q);
    if |p| - 1 < |route.middleware| { ChainGoesOn(app, route.middleware, q, |p| - 1); }
    SameChain(app, route, params, r, p, q, |p| - 1);
  }

  lemma ChainGoesOn(app: App, ids: seq<MiddlewareId>, q: seq<Request>, j: nat)
    requires Chain(app, ids, q) && j < |ids|
    ensures app.middleware(ids[j], q[j]).Some?
  {
    assert app.middleware(ids[j], q[j]) == Some(q[j + 1]);
  }

  /** A route that throws somewhere has no reply of its handler. */
  lemma ThrowsOrHandles(app: App, route: Route, params: Params, r: Request, reply: Response)
    requires HandledAs(app, route, params, r, reply)
    ensures !Throws(app, route, params, r)
  {
    var q, raw :| Chain(app, route.middleware, q) && Labelled(r, params, q[0])
                  && route.handler.Some? && app.handlers(route.handler.value, q[|route.middleware|]) == Some(raw)
                  && reply == raw.(headers := raw.headers["Connection" := "close"]);
    forall p | ThrowsAt(app, route, p) && Labelled(r, params, p[0]) ensures false {
      ThrowsHere(app, route, params, r, p, q);
    }
  }

  lemma HandledOnce(app: App, route: Route, params: Params, r: Request, a: Response, b: Response)
    requires HandledAs(app, route, params, r, a) && HandledAs(app, route, params, r, b)
    ensures a == b
  {
    var p, raw :| Chain(app, route.middleware, p) && Labelled(r, params, p[0])
                  && route.handler.Some? && app.handlers(route.handler.value, p[|route.middleware|]) == Some(raw)
                  && a == raw.(headers := raw.headers["Connection" := "close"]);
    var q, raw' :| Chain(app, route.middleware, q) && Labelled(r, params, q[0])
                   && route.handler.Some? && app.handlers(route.handler.value, q[|route.middleware|]) == Some(raw')
                   && b == raw'.(headers := raw'.headers["Connection" := "close"]);
    WholeChain(app, route.middleware, p);
    WholeChain(app, route.middleware, q);
    SameChain(app, route, params, r, p, q, |route.middleware|);
  }

  lemma RunRouteOutcome(app: App, route: Route, params: Params, r: Request)
    requires route.handler.Some?
    ensures match RunRoute(app, route, params, r)
            case None => Throws(app, route, params, r)
            case Some(reply) => HandledAs(app, route, params, r, reply)
  {
    WithParamsLabels(r, params);
    var q := RunChain(app, route.middleware, WithParams(r, params));
    if |q| == |route.middleware| + 1 { WholeChain(app, route.middleware, q); }
    if RunRoute(app, route, params, r) == None { assert ThrowsAt(app, route, q); }
  }

  lemma RunRouteMeaning(app: App, route: Route, params: Params, r: Request)
    requires route.handler.Some?
    ensures RunRoute(app, route, params, r) == None <==> Throws(app, route, params, r)
    ensures forall reply :: HandledAs(app, route, params, r, reply) <==> RunRoute(app, route, params, r) == Some(reply)
  {
    RunRouteOutcome(app, route, params, r);
    forall reply ensures HandledAs(app, route, params, r, reply) <==> RunRoute(app, route, params, r) == Some(reply) {
      if HandledAs(app, route, params, r, reply) {
        ThrowsOrHandles(app, route, params, r, reply);
        assert RunRoute(app, route, params, r).Some?;
        HandledOnce(app, route, params, r, reply, RunRoute(app, route, params, r).value);
      }
    }
    if RunRoute(app, route, params, r).Some? {
      ThrowsOrHandles(app, route, params, r, RunRoute(app, route, params, r).value);
    }
  }

  /**
   What the reply to a request is. The router is asked with the literal method for POST, PUT and DELETE
   and with GET for all others. No route, or one without a handler, gives 404; a bad expression on the
   way gives none; otherwise the reply is the handler's to what the middleware in order made of the
   request, and there is none exactly when one of them throws.
   */
  lemma ReplyMeaning(app: App, r: Request, asked: string)
    requires asked == match r.verb case POST => "POST" case PUT => "PUT" case DELETE => "DELETE" case _ => "GET"
    ensures match FirstRoute(app.routes, r.url.path, asked, app.regex, map[])
            case Threw => Reply(app, r) == None
            case NotFound => Reply(app, r) == Some(Response(HTTP_1_1, 404, map["Connection" := "close"], "Not Found"))
            case Found(i, params) =>
              var route := app.routes[i];
              if route.handler.None? then
                Reply(app, r) == Some(Response(HTTP_1_1, 404, map["Connection" := "close"], "Not Found"))
              else
                && (Reply(app, r) == None <==> Throws(app, route, params, r))
                && forall reply :: HandledAs(app, route, params, r, reply) <==> Reply(app, r) == Some(reply)
  {
    match FirstRoute(app.routes, r.url.path, asked, app.regex, map[])
    case Found(i, params) =>
      if app.routes[i].handler.Some? { RunRouteMeaning(app, app.routes[i], params, r); }
    case _ =>
  }

  // ---------- Requests printed and read back ----------

  function StartLine(r: Request): string {
    MethodText(r.verb) + (" " + (PrintUrl(r.url) + (" " + VersionText(r.version))))
  }

  /** The request as a client would send it. */
  function RequestText(r: Request): string {
    MessageText(StartLine(r), r.headers, r.body)
  }

  /** A request that its text carries whole. */
  ghost predicate Transmissible(r: Request) {
    Canonical(r.url) && NoSpace(PrintUrl(r.url)) && Recoverable(r.headers)
  }

  lemma {:induction false} WordStops(w: string, rest: string)
    requires NoSpace(w) && (rest == "" || Framing.IsSpace(rest[0]))
    ensures WordLength(w + rest) == |w|
  {
    if w == "" {
      assert w + rest == rest;
    } else {
      assert (w + rest)[1..] == w[1..] + rest;
      WordStops(w[1..], rest);
    }
  }

  lemma ReadWord(w: string, rest: string)
    requires NoSpace(w) && w != "" && (rest == "" || Framing.IsSpace(rest[0]))
    ensures Word(w + rest) == w && AfterWord(w + rest) == rest
    ensures Word(" " + (w + rest)) == w && AfterWord(" " + (w + rest)) == rest
  {
    var t := w + rest;
    WordStops(w, rest);
    assert t[0] == w[0];
    assert Framing.SkipSpace(t) == t;
    assert (" " + t)[1..] == t;
    assert Framing.SkipSpace(" " + t) == t;
    assert t[..|w|] == w && t[|w|..] == rest;
  }

  lemma MethodWord(m: Method)
    ensures ParseMethod(MethodText(m)) == Some(m) && NoSpace(MethodText(m)) && MethodText(m) != ""
  {
  }

  lemma VersionWord(v: Version)
    ensures ParseVersion(VersionText(v)) == Some(v) && NoSpace(VersionText(v)) && VersionText(v) != ""
  {
  }

  lemma ThreeWords(m: string, u: string, v: string)
    requires NoSpace(m) && NoSpace(u) && NoSpace(v) && m != "" && u != "" && v != ""
    ensures var s := m + (" " + (u + (" " + v)));
            Word(s) == m && Word(AfterWord(s)) == u && Word(AfterWord(AfterWord(s))) == v
  {
    ReadWord(m, " " + (u + (" " + v)));
    ReadWord(u, " " + v);
    ReadWord(v, "");
    assert v + "" == v;
  }

  lemma StartLineReadBack(r: Request, headers: string)
    requires Canonical(r.url) && NoSpace(PrintUrl(r.url))
    ensures ParseRequest(StartLine(r), headers, r.body) == Some(r.(headers := ParseHeaders(headers, map[])))
  {
    MethodWord(r.verb);
    VersionWord(r.version);
    RoundTripIffCanonical(r.url);
    ThreeWords(MethodText(r.verb), PrintUrl(r.url), VersionText(r.version));
    ParsedWords(StartLine(r), headers, r);
  }

  lemma ParsedWords(startLine: string, headers: string, r: Request)
    requires ParseMethod(Word(startLine)) == Some(r.verb)
    requires ParseUrl(Word(AfterWord(startLine))) == Ok(r.url)
    requires ParseVersion(Word(AfterWord(AfterWord(startLine)))) == Some(r.version)
    ensures ParseRequest(startLine, headers, r.body) == Some(r.(headers := ParseHeaders(headers, map[])))
  {
  }

  lemma StartLineOneLine(r: Request)
    requires NoSpace(PrintUrl(r.url))
    ensures '\n' !in StartLine(r)
  {
    MethodWord(r.verb);
    VersionWord(r.version);
    WordsOneLine(MethodText(r.verb), PrintUrl(r.url), VersionText(r.version));
  }

  lemma WordsOneLine(a: string, b: string, c: string)
    requires NoSpace(a) && NoSpace(b) && NoSpace(c)
    ensures '\n' !in a + (" " + (b + (" " + c)))
  {
    assert Framing.IsSpace('\n');
  }

  /** What the server makes of the bytes of a request; None when it answers with an error instead. */
  function Understood(data: string): Option<Request> {
    match Cut(data)
    case Parts(startLine, headers, body) => ParseRequest(startLine, headers, body)
    case _ => None
  }

  /** A URL that was read as a word is printed as a word. */
  lemma PrintedAsWord(w: string)
    requires NoSpace(w) && ParseUrl(w).Ok?
    ensures NoSpace(PrintUrl(ParseUrl(w).value))
  {
    var p := PrintUrl(ParseUrl(w).value);
    forall i | 0 <= i < |p| ensures !Framing.IsSpace(p[i]) {
      if Framing.IsSpace(p[i]) { ReprintAddsNoBlank(w, p[i]); }
    }
  }

  lemma CutStartLine(startLine: string, h: HeaderMap, body: string)
    requires '\n' !in startLine
    ensures match Cut(MessageText(startLine, h, body)) case Parts(s, _, _) => s == startLine case _ => true
  {
    FirstLineEnd(startLine, PrintHeaders(h) + (CRLF + body));
  }

  lemma UrlReadAsWord(startLine: string, headers: string, body: string, r: Request)
    requires ParseRequest(startLine, headers, body) == Some(r)
    ensures NoSpace(PrintUrl(r.url)) && PrintUrl(r.url) != ""
  {
    var w := Word(AfterWord(startLine));
    PrintedAsWord(w);
    ParsedIsWellShaped(w);
  }

  lemma ReadAgainIsCanonical(r: Request, headers: string, body: string)
    requires NoSpace(PrintUrl(r.url)) && PrintUrl(r.url) != "" && ParseRequest(StartLine(r), headers, body) == Some(r)
    ensures Canonical(r.url)
  {
    MethodWord(r.verb);
    VersionWord(r.version);
    ThreeWords(MethodText(r.verb), PrintUrl(r.url), VersionText(r.version));
    RoundTripIffCanonical(r.url);
  }

  lemma HeadersRecovered(startLine: string, headers: string, body: string, r: Request)
    requires '\n' !in startLine && |MessageText(startLine, r.headers, r.body)| <= MAX_SIZE
    requires Cut(MessageText(startLine, r.headers, r.body)) == Parts(startLine, headers, body)
    requires ParseRequest(startLine, headers, body) == Some(r)
    ensures Recoverable(r.headers)
  {
    MessageRecoveredIff(startLine, r.headers, r.body);
  }

  lemma UnderstoodIsTransmissible(r: Request)
    requires Understood(RequestText(r)) == Some(r) && |RequestText(r)| <= MAX_SIZE
    ensures Transmissible(r)
  {
    var Parts(s, h, b) := Cut(RequestText(r));
    UrlReadAsWord(s, h, b, r);
    StartLineOneLine(r);
    CutStartLine(StartLine(r), r.headers, r.body);
    ReadAgainIsCanonical(r, h, b);
    HeadersRecovered(StartLine(r), h, b, r);
  }

  lemma TransmissibleIsUnderstood(r: Request)
    requires Transmissible(r) && |RequestText(r)| <= MAX_SIZE
    ensures Understood(RequestText(r)) == Some(r)
  {
    StartLineOneLine(r);
    MessageRecoveredIff(StartLine(r), r.headers, r.body);
    StartLineReadBack(r, Cut(RequestText(r)).headers);
  }

  /**
   A request is understood as it was meant - method, URL, version, headers and body -
   if and only if it is transmissible.
   */
  lemma UnderstoodIffTransmissible(r: Request)
    requires |RequestText(r)| <= MAX_SIZE
    ensures Understood(RequestText(r)) == Some(r) <==> Transmissible(r)
  {
    if Understood(RequestText(r)) == Some(r) { UnderstoodIsTransmissible(r); }
    if Transmissible(r) { TransmissibleIsUnderstood(r); }
  }

  /** The bytes of a transmissible request are answered as that request itself. */
  lemma RequestUnderstood(app: App, r: Request)
    requires Transmissible(r) && |RequestText(r)| <= MAX_SIZE
    ensures ProcessBytes(app, RequestText(r)) == Serialise(Reply(app, r))
  {
    TransmissibleIsUnderstood(r);
  }

  /** A request whose own headers announce the length of its body is one whole message. */
  lemma RequestIsWhole(r: Request)
    requires Transmissible(r) && |RequestText(r)| <= MAX_SIZE && Framing.Announces(StartLine(r), r.headers, |r.body|)
    ensures Framing.IsWholeMessage(RequestText(r))
  {
    StartLineOneLine(r);
    Framing.AnnouncedIsWhole(StartLine(r), r.headers, r.body);
  }

  /** Bytes behind a complete head change what is understood in the body only. */
  lemma UnderstoodLonger(data: string, more: string)
    requires Find(data, BLANK_LINE, 0).Some? && |data + more| <= MAX_SIZE
    ensures Understood(data + more) ==
            match Understood(data) case None => None case Some(r) => Some(r.(body := r.body + more))
  {
    Framing.CutOfLonger(data, more, map[]);
  }

  // ---------- Start lines of any spacing ----------

  /** Words are read behind any white space, up to the next. */
  lemma ReadWordBehind(ws: string, w: string, rest: string)
    requires Framing.AllSpace(ws) && NoSpace(w) && (rest == "" || Framing.IsSpace(rest[0])) && (w == "" ==> rest == "")
    ensures Word(ws + (w + rest)) == w && AfterWord(ws + (w + rest)) == rest
  {
    var t := w + rest;
    WordStops(w, rest);
    assert t == "" || t[0] == w[0];
    Framing.SkipSpaceOf(ws, t);
    assert t[..|w|] == w && t[|w|..] == rest;
  }

  /**
   A start line is its first three words, whatever white space stands between them and whatever
   follows; each must be a method, a URL and a version that are known.
   */
  lemma StartLineRead(ws0: string, m: string, ws1: string, u: string, ws2: string, v: string, rest: string,
                      headers: string, body: string)
    requires Framing.AllSpace(ws0) && Framing.AllSpace(ws1) && Framing.AllSpace(ws2) && ws1 != "" && ws2 != ""
    requires NoSpace(m) && NoSpace(u) && NoSpace(v) && m != "" && u != "" && v != ""
    requires rest == "" || Framing.IsSpace(rest[0])
    ensures ParseRequest(ws0 + (m + (ws1 + (u + (ws2 + (v + rest))))), headers, body) ==
            match (ParseMethod(m), ParseUrl(u), ParseVersion(v))
            case (Some(verb), Ok(url), Some(version)) =>
              Some(Request(verb, url, version, ParseHeaders(headers, map[]), body))
            case _ => None
  {
    ReadWordBehind(ws0, m, ws1 + (u + (ws2 + (v + rest))));
    ReadWordBehind(ws1, u, ws2 + (v + rest));
    ReadWordBehind(ws2, v, rest);
  }

  /** A start line of fewer than three words is refused. */
  lemma StartLineTooShort(ws0: string, m: string, ws1: string, u: string, ws2: string, headers: string, body: string)
    requires Framing.AllSpace(ws0) && Framing.AllSpace(ws1) && Framing.AllSpace(ws2)
    requires NoSpace(m) && NoSpace(u) && (m == "" ==> ws1 == "") && (ws1 == "" ==> u == "") && (u == "" ==> ws2 == "")
    ensures ParseRequest(ws0 + (m + (ws1 + (u + ws2))), headers, body) == None
  {
    ReadWordBehind(ws0, m, ws1 + (u + ws2));
    ReadWordBehind(ws1, u, ws2);
    ReadWordBehind(ws2, "", "");
    assert ws2 + ("" + "") == ws2;
  }

  /** The names of methods and versions, and no others. */
  lemma Names(s: string)
    ensures ParseMethod("GET") == Some(GET) && ParseMethod("HEAD") == Some(HEAD) && ParseMethod("POST") == Some(POST)
    ensures ParseMethod("PUT") == Some(PUT) && ParseMethod("DELETE") == Some(DELETE)
    ensures ParseMethod("CONNECT") == Some(CONNECT) && ParseMethod("OPTIONS") == Some(OPTIONS)
    ensures ParseMethod("TRACE") == Some(TRACE) && ParseMethod("PATCH") == Some(PATCH)
    ensures ParseMethod(s).Some? ==> s == MethodText(ParseMethod(s).value)
    ensures ParseVersion(s).Some? ==> s == VersionText(ParseVersion(s).value)
  {
  }

  // ---------- What is prepared for the bytes of a request ----------

  const BAD_REQUEST_TEXT := ("HTTP/1.1" + " " + "400" + " " + "Bad Request") + (CRLF + (CRLF + "Bad Request"))
  const NOT_FOUND_TEXT :=
    ("HTTP/1.1" + " " + "404" + " " + "Not Found") + (CRLF + ("Connection: close" + (CRLF + (CRLF + "Not Found"))))
  const SERVER_ERROR_TEXT :=
    ("HTTP/1.1" + " " + "500" + " " + "Internal Server Error")
    + (CRLF + ("Connection: close" + (CRLF + (CRLF + "Internal Server Error"))))

  lemma ErrorDigits()
    ensures Digits(400) == "400" && Digits(404) == "404" && Digits(500) == "500"
  {
    assert Digits(4) == "4" && Digits(5) == "5";
    assert Digits(40) == "40" && Digits(50) == "50";
  }

  lemma NoHeaderText(startLine: string, body: string)
    ensures MessageText(startLine, map[], body) == startLine + (CRLF + (CRLF + body))
  {
    assert PrintHeaders(map[]) == "";
    assert "" + (CRLF + body) == CRLF + body;
  }

  lemma OneHeaderText(startLine: string, k: string, v: string, body: string)
    ensures MessageText(startLine, map[k := v], body)
            == startLine + (CRLF + (HeaderField(k, v) + (CRLF + (CRLF + body))))
  {
    OneHeader(k, v);
    FieldThenBody(HeaderField(k, v), body);
  }

  lemma FieldThenBody(f: string, body: string)
    ensures (f + "\r\n") + (CRLF + body) == f + (CRLF + (CRLF + body))
  {
  }

  lemma CloseText(startLine: string, body: string)
    ensures MessageText(startLine, CLOSE, body)
            == startLine + (CRLF + ("Connection: close" + (CRLF + (CRLF + body))))
  {
    OneHeaderText(startLine, "Connection", "close", body);
    CloseField();
  }

  lemma CloseField()
    ensures HeaderField("Connection", "close") == "Connection: close"
  {
  }

  /** The three replies that the server makes itself, byte for byte. */
  lemma ErrorTexts()
    ensures Serialise(Some(BAD_REQUEST)) == BAD_REQUEST_TEXT
    ensures Serialise(Some(NOT_FOUND)) == NOT_FOUND_TEXT
    ensures Serialise(None) == SERVER_ERROR_TEXT
  {
    ErrorDigits();
    NoHeaderText(StatusLine(BAD_REQUEST), "Bad Request");
    CloseText(StatusLine(NOT_FOUND), "Not Found");
    CloseText(StatusLine(SERVER_ERROR), "Internal Server Error");
  }

  /** The cut finds its parts exactly where there is a blank line. */
  lemma CutIffBlankLine(data: string)
    ensures Cut(data).Parts? <==> Contains(data, BLANK_LINE)
  {
    if Find(data, BLANK_LINE, 0).Some? { HeadGeometry(data); }
  }

  /**
   What is prepared for any bytes at all: a bad request without a blank line, a server error for
   what is not understood, for what throws and for a status that has no name, and else the reply.
   */
  lemma ProcessMeaning(app: App, data: string)
    ensures ProcessBytes(app, data) ==
            if !Contains(data, BLANK_LINE) then BAD_REQUEST_TEXT
            else match Understood(data)
                 case None => SERVER_ERROR_TEXT
                 case Some(r) =>
                   if Reply(app, r) == None || RawResponse(Reply(app, r).value) == None then SERVER_ERROR_TEXT
                   else RawResponse(Reply(app, r).value).value
  {
    CutIffBlankLine(data);
    ErrorTexts();
  }

  /** Read as words, a status line is the version, the code in decimal, and the reason. */
  lemma StatusLineRead(r: Response)
    requires StatusText(r.status).Some?
    ensures var line := StatusLine(r);
            && Word(line) == VersionText(r.version) && Word(AfterWord(line)) == Digits(r.status)
            && AfterWord(AfterWord(line)) == " " + StatusText(r.status).value
  {
    VersionWord(r.version);
    TwoWordsAndRest(VersionText(r.version), Digits(r.status), StatusText(r.status).value);
  }

  lemma TwoWordsAndRest(v: string, d: string, t: string)
    requires NoSpace(v) && v != "" && AllDigits(d) && d != ""
    ensures var line := v + " " + d + " " + t;
            Word(line) == v && Word(AfterWord(line)) == d && AfterWord(AfterWord(line)) == " " + t
  {
    assert v + " " + d + " " + t == "" + (v + (" " + (d + (" " + t))));
    ReadWordBehind("", v, " " + (d + (" " + t)));
    ReadWordBehind(" ", d, " " + t);
  }
}
