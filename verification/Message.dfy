/**
 An HTTP message as text: the response printer, the cut that splits a received
 message into start line, header block and body, and when the cut followed by
 header parsing recovers what was printed.
 */
module Message {
  import opened Text
  import opened HttpHeaders

  const CRLF := "\r\n"
  const BLANK_LINE := "\r\n\r\n"

  // ---------- Lengths ----------

  /** size_t has 64 bits; its subtraction wraps. */
  const SIZE_T := 0x1_0000_0000_0000_0000

  /** std::string::max_size: no string is longer. */
  const MAX_SIZE := 0x7FFF_FFFF_FFFF_FFFF

  function SizeMinus(a: int, b: int): (r: nat)
    ensures 0 <= a - b < SIZE_T ==> r == a - b
    ensures -SIZE_T <= a - b < 0 ==> r == a - b + SIZE_T
  {
    (a - b) % SIZE_T
  }

  /** std::string::substr: at most `count` characters, clamped to the end. */
  function Substr(s: string, pos: nat, count: nat): string
    requires pos <= |s|
  {
    if count <= |s| - pos then s[pos..pos + count] else s[pos..]
  }

  // ---------- The cut ----------

  datatype CutResult = NoStartLine | NoHeadersEnd | Parts(startLine: string, headers: string, body: string)

  /** How process_request splits the bytes of a request. */
  function Cut(data: string): CutResult {
    match Find(data, CRLF, 0)
    case None => NoStartLine
    case Some(firstCrlf) =>
      match Find(data, BLANK_LINE, 0)
      case None => NoHeadersEnd
      case Some(headersEnd) =>
        Parts(data[..firstCrlf],
              Substr(data, firstCrlf + 2, SizeMinus(SizeMinus(headersEnd, firstCrlf), 2)),
              data[headersEnd + 4..])
  }

  // ---------- Responses ----------

  datatype Version = HTTP_0_9 | HTTP_1_0 | HTTP_1_1 | HTTP_2_0 | HTTP_3_0

  function VersionText(v: Version): string {
    match v
    case HTTP_0_9 => "HTTP/0.9"
    case HTTP_1_0 => "HTTP/1.0"
    case HTTP_1_1 => "HTTP/1.1"
    case HTTP_2_0 => "HTTP/2.0"
    case HTTP_3_0 => "HTTP/3.0"
  }

  function InformationalText(code: nat): (r: Option<string>)
    ensures r.Some? ==> '\n' !in r.value
  {
    match code
    case 100 => Some("Continue")
    case 101 => Some("Switching Protocols")
    case 102 => Some("Processing")
    case 103 => Some("Early Hints")
    case _ => None
  }

  function SuccessText(code: nat): (r: Option<string>)
    ensures r.Some? ==> '\n' !in r.value
  {
    match code
    case 200 => Some("OK")
    case 201 => Some("Created")
    case 202 => Some("Accepted")
    case 203 => Some("Non-Authoritative Information")
    case 204 => Some("No Content")
    case 205 => Some("Reset Content")
    case 206 => Some("Partial Content")
    case 207 => Some("Multi-Status")
    case 208 => Some("Already Reported")
    case 226 => Some("IM Used")
    case _ => None
  }

  function RedirectionText(code: nat): (r: Option<string>)
    ensures r.Some? ==> '\n' !in r.value
  {
    match code
    case 300 => Some("Multiple Choices")
    case 301 => Some("Moved Permanently")
    case 302 => Some("Found")
    case 303 => Some("See Other")
    case 304 => Some("Not Modified")
    case 305 => Some("Use Proxy")
    case 306 => Some("Unused")
    case 307 => Some("Temporary Redirect")
    case 308 => Some("Permanent Redirect")
    case _ => None
  }

  function RequestErrorText(code: nat): (r: Option<string>)
    ensures r.Some? ==> '\n' !in r.value
  {
    match code
    case 400 => Some("Bad Request")
    case 401 => Some("Unauthorized")
    case 402 => Some("Payment Required")
    case 403 => Some("Forbidden")
    case 404 => Some("Not Found")
    case 405 => Some("Method Not Allowed")
    case 406 => Some("Not Acceptable")
    case 407 => Some("Proxy Authentication Required")
    case 408 => Some("Request Timeout")
    case _ => None
  }

  function RefusalText(code: nat): (r: Option<string>)
    ensures r.Some? ==> '\n' !in r.value
  {
    match code
    case 409 => Some("Conflict")
    case 410 => Some("Gone")
    case 411 => Some("Length Required")
    case 412 => Some("Precondition Failed")
    case 413 => Some("Content Too Large")
    case 414 => Some("URI Too Long")
    case 415 => Some("Unsupported Media Type")
    case 416 => Some("Range Not Satisfiable")
    case 417 => Some("Expectation Failed")
    case _ => None
  }

  function ClientErrorText(code: nat): (r: Option<string>)
    ensures r.Some? ==> '\n' !in r.value
  {
    match code
    case 418 => Some("I'm a teapot")
    case 421 => Some("Misdirected Request")
    case 422 => Some("Unprocessable Content")
    case 423 => Some("Locked")
    case 424 => Some("Failed Dependency")
    case 425 => Some("Too Early")
    case _ => None
  }

  function PolicyErrorText(code: nat): (r: Option<string>)
    ensures r.Some? ==> '\n' !in r.value
  {
    match code
    case 426 => Some("Upgrade Required")
    case 428 => Some("Precondition Required")
    case 429 => Some("Too Many Requests")
    case 431 => Some("Request Header Fields Too Large")
    case 451 => Some("Unavailable For Legal Reasons")
    case _ => None
  }

  function ServerErrorText(code: nat): (r: Option<string>)
    ensures r.Some? ==> '\n' !in r.value
  {
    match code
    case 500 => Some("Internal Server Error")
    case 501 => Some("Not Implemented")
    case 502 => Some("Bad Gateway")
    case 503 => Some("Service Unavailable")
    case 504 => Some("Gateway Timeout")
    case 505 => Some("HTTP Version Not Supported")
    case _ => None
  }

  function ServerConfigText(code: nat): (r: Option<string>)
    ensures r.Some? ==> '\n' !in r.value
  {
    match code
    case 506 => Some("Variant Also Negotiates")
    case 507 => Some("Insufficient Storage")
    case 508 => Some("Loop Detected")
    case 510 => Some("Not Extended")
    case 511 => Some("Network Authentication Required")
    case _ => None
  }

  /** statusCodeToString; None stands for the exception on an unknown code. */
  function StatusText(code: nat): (r: Option<string>)
    ensures r.Some? ==> '\n' !in r.value
  {
    if code < 200 then InformationalText(code)
    else if code < 300 then SuccessText(code)
    else if code < 400 then RedirectionText(code)
    else if code < 409 then RequestErrorText(code)
    else if code < 418 then RefusalText(code)
    else if code < 426 then ClientErrorText(code)
    else if code < 500 then PolicyErrorText(code)
    else if code < 506 then ServerErrorText(code)
    else ServerConfigText(code)
  }

  /** The status codes that have a reason phrase. */
  lemma KnownStatus(code: nat)
    ensures StatusText(code).Some? <==>
            || 100 <= code <= 103 || 200 <= code <= 208 || code == 226 || 300 <= code <= 308
            || 400 <= code <= 418 || 421 <= code <= 426 || code in {428, 429, 431, 451}
            || 500 <= code <= 508 || code == 510 || code == 511
  {
  }

  datatype Response = Response(version: Version, status: nat, headers: HeaderMap, body: string)

  function StatusLine(r: Response): string
    requires StatusText(r.status).Some?
  {
    VersionText(r.version) + " " + Digits(r.status) + " " + StatusText(r.status).value
  }

  /** A start line, the header block, a blank line and the body. */
  function MessageText(startLine: string, headers: HeaderMap, body: string): string {
    startLine + (CRLF + (PrintHeaders(headers) + (CRLF + body)))
  }

  /** Response::toRawResponse; None stands for the exception on an unknown code. */
  function RawResponse(r: Response): Option<string> {
    if StatusText(r.status).None? then None
    else Some(MessageText(StatusLine(r), r.headers, r.body))
  }

  /** The printer appends piece by piece to an output stream. */
  method ToRawResponse(r: Response) returns (raw: Option<string>)
    ensures raw == RawResponse(r)
  {
    var reason := StatusText(r.status);
    if reason.None? {
      return None;
    }
    var rawResponse := VersionText(r.version) + " " + Digits(r.status) + " " + reason.value;
    ghost var startLine := rawResponse;
    rawResponse := rawResponse + CRLF;
    var headers := new Headers();
    headers.headers := r.headers;
    var block := headers.ToRawString();
    rawResponse := rawResponse + block;
    rawResponse := rawResponse + CRLF;
    rawResponse := rawResponse + r.body;
    Regroup(startLine, block, r.body);
    return Some(rawResponse);
  }

  lemma Regroup(a: string, b: string, c: string)
    ensures a + CRLF + b + CRLF + c == a + (CRLF + (b + (CRLF + c)))
  {
  }

  // ---------- Where the head of a message ends ----------

  /** No two line feeds two apart, so no blank line. */
  predicate Gapped(s: string) {
    forall i :: 0 <= i && i + 2 < |s| && s[i] == '\n' ==> s[i + 2] != '\n'
  }

  lemma BlankLineChars(s: string, i: int)
    requires OccursAt(s, BLANK_LINE, i)
    ensures s[i] == '\r' && s[i + 1] == '\n' && s[i + 2] == '\r' && s[i + 3] == '\n'
  {
    OccursChar(s, BLANK_LINE, i, 0);
    OccursChar(s, BLANK_LINE, i, 1);
    OccursChar(s, BLANK_LINE, i, 2);
    OccursChar(s, BLANK_LINE, i, 3);
  }

  /** A gapped text that does not end in a line feed has its first blank line where one is put after it. */
  lemma FirstBlankLine(w: string, tail: string)
    requires Gapped(w) && (w != "" ==> w[|w| - 1] != '\n')
    ensures Find(w + (BLANK_LINE + tail), BLANK_LINE, 0) == Some(|w|)
  {
    var s, n := w + (BLANK_LINE + tail), |w|;
    assert s[n..n + 4] == BLANK_LINE;
    assert OccursAt(s, BLANK_LINE, n);
    assert s[n] == '\r' && s[n + 2] == '\r';
    forall i | 0 <= i < n ensures !OccursAt(s, BLANK_LINE, i) {
      assert i + 3 < n ==> s[i + 1] == w[i + 1] && s[i + 3] == w[i + 3];
      assert i + 1 == n - 1 ==> s[i + 1] == w[i + 1];
      if OccursAt(s, BLANK_LINE, i) {
        BlankLineChars(s, i);
        assert false;
      }
    }
  }

  lemma FirstLineEnd(startLine: string, rest: string)
    requires '\n' !in startLine
    ensures Find(startLine + (CRLF + rest), CRLF, 0) == Some(|startLine|)
  {
    var s, n := startLine + (CRLF + rest), |startLine|;
    assert s[n..n + 2] == CRLF;
    assert OccursAt(s, CRLF, n);
    assert s[n] == '\r';
    forall i | 0 <= i < n ensures !OccursAt(s, CRLF, i) {
      assert i + 1 < n ==> s[i + 1] == startLine[i + 1];
      if OccursAt(s, CRLF, i) {
        OccursChar(s, CRLF, i, 1);
        assert false;
      }
    }
  }

  /** The header block without its last line end: what the cut takes. */
  function Unterminated(ks: seq<string>, h: HeaderMap): string
    requires ks != [] && forall k :: k in ks ==> k in h
  {
    if |ks| == 1 then HeaderField(ks[0], h[ks[0]])
    else HeaderField(ks[0], h[ks[0]]) + (CRLF + Unterminated(ks[1..], h))
  }

  lemma {:induction false} Terminated(ks: seq<string>, h: HeaderMap, tail: string)
    requires ks != [] && forall k :: k in ks ==> k in h
    ensures HeaderText(ks, h) + tail == Unterminated(ks, h) + (CRLF + tail)
    decreases |ks|
  {
    var f := HeaderField(ks[0], h[ks[0]]);
    if |ks| == 1 {
      assert HeaderText(ks[1..], h) == "";
      assert f + ("\r\n" + "") + tail == f + (CRLF + tail);
    } else {
      Terminated(ks[1..], h, tail);
      TerminatedStep(f, HeaderText(ks[1..], h), Unterminated(ks[1..], h), tail);
    }
  }

  lemma TerminatedStep(f: string, t: string, u: string, tail: string)
    requires t + tail == u + (CRLF + tail)
    ensures f + ("\r\n" + t) + tail == f + (CRLF + u) + (CRLF + tail)
  {
    assert f + ("\r\n" + t) + tail == f + ("\r\n" + (t + tail));
    assert f + (CRLF + u) + (CRLF + tail) == f + (CRLF + (u + (CRLF + tail)));
  }

  /** The text starts and ends without a line feed and holds no blank line. */
  predicate Seamless(t: string) {
    |t| >= 2 && t[0] != '\n' && t[1] != '\n' && t[|t| - 1] != '\n' && Gapped(t)
  }

  lemma JoinSeamless(a: string, t: string)
    requires '\n' !in a && Seamless(t)
    ensures var w := a + (CRLF + t); Gapped(w) && w[|w| - 1] != '\n'
  {
    var w, n := a + (CRLF + t), |a|;
    assert w[n] == '\r' && w[n + 1] == '\n' && w[n + 2] == t[0] && w[n + 3] == t[1];
    assert forall i :: 0 <= i < n ==> w[i] == a[i];
    assert forall i :: 0 <= i < |t| ==> w[n + 2 + i] == t[i];
    forall i | 0 <= i && i + 2 < |w| && w[i] == '\n' ensures w[i + 2] != '\n' {
      if i >= n + 2 {
        assert w[i] == t[i - n - 2] && w[i + 2] == t[i - n - 2 + 2];
      }
    }
  }

  lemma FieldSeamless(k: string, v: string)
    requires '\n' !in k && '\n' !in v
    ensures '\n' !in HeaderField(k, v) && Seamless(HeaderField(k, v))
  {
  }

  lemma {:induction false} UnterminatedSeamless(ks: seq<string>, h: HeaderMap)
    requires ks != [] && CleanHeaders(h) && forall k :: k in ks ==> k in h
    ensures Seamless(Unterminated(ks, h))
    decreases |ks|
  {
    var f := HeaderField(ks[0], h[ks[0]]);
    FieldSeamless(ks[0], h[ks[0]]);
    if |ks| > 1 {
      UnterminatedSeamless(ks[1..], h);
      JoinSeamless(f, Unterminated(ks[1..], h));
    }
  }

  // ---------- Parsing what the cut takes ----------

  function LastValueChopped(ks: seq<string>, h: HeaderMap): HeaderMap
    requires ks != [] && forall k :: k in ks ==> k in h
  {
    h[ks[|ks| - 1] := ChopReturn(h[ks[|ks| - 1]])]
  }

  lemma ReadLastLine(k: string, v: string, m: HeaderMap)
    requires CleanKey(k) && '\n' !in v
    ensures ParseHeaders(HeaderField(k, v), m) == m[k := ChopReturn(v)]
  {
    FieldIsNotBlank(k, v);
    FieldSeamless(k, v);
    DelimiterPosition(k, v);
    CutNone(HeaderField(k, v), '\n');
  }

  lemma PickLast(k: string, h: HeaderMap, m: HeaderMap)
    requires k in h
    ensures m[k := h[k]] == m + Picked([k], h)
  {
  }

  lemma ReadFirstUnterminated(ks: seq<string>, h: HeaderMap, m: HeaderMap)
    requires |ks| > 1 && CleanHeaders(h) && forall k :: k in ks ==> k in h
    ensures ParseHeaders(Unterminated(ks, h), m) == ParseHeaders(Unterminated(ks[1..], h), m[ks[0] := h[ks[0]]])
  {
    ReadLine(ks[0], h[ks[0]], Unterminated(ks[1..], h), m);
  }

  lemma {:induction false} ParseUnterminated(ks: seq<string>, h: HeaderMap, m: HeaderMap)
    requires ks != [] && CleanHeaders(h) && Ascending(ks) && forall k :: k in ks ==> k in h
    ensures ParseHeaders(Unterminated(ks, h), m) == m + Picked(ks, LastValueChopped(ks, h))
    decreases |ks|
  {
    var h' := LastValueChopped(ks, h);
    if |ks| == 1 {
      ReadLastLine(ks[0], h[ks[0]], m);
      assert ks == [ks[0]];
      PickLast(ks[0], h', m);
    } else {
      ReadFirstUnterminated(ks, h, m);
      LastOfRest(ks, h);
      ParseUnterminated(ks[1..], h, m[ks[0] := h[ks[0]]]);
      PickOne(ks, h', m);
    }
  }

  lemma LastOfRest(ks: seq<string>, h: HeaderMap)
    requires |ks| > 1 && Ascending(ks) && forall k :: k in ks ==> k in h
    ensures Ascending(ks[1..]) && LastValueChopped(ks[1..], h) == LastValueChopped(ks, h)
    ensures LastValueChopped(ks, h)[ks[0]] == h[ks[0]]
  {
    assert ks[1..][|ks| - 2] == ks[|ks| - 1];
  }

  // ---------- Main results ----------

  /** The blank line is the first line end, or stands at least three bytes after it. */
  lemma HeadGeometry(data: string)
    requires Find(data, BLANK_LINE, 0).Some?
    ensures Find(data, CRLF, 0).Some?
    ensures var fc, he := Find(data, CRLF, 0).value, Find(data, BLANK_LINE, 0).value;
            && (fc == he || fc + 3 <= he)
            && data[fc..fc + 2] == CRLF && data[he..he + 4] == BLANK_LINE
  {
    var he := Find(data, BLANK_LINE, 0).value;
    BlankLineChars(data, he);
    assert data[he..he + 2] == CRLF;
    assert OccursAt(data, CRLF, he);
    var fc := Find(data, CRLF, 0).value;
    OccursChar(data, CRLF, fc, 0);
    OccursChar(data, CRLF, fc, 1);
    if he == fc + 2 {
      assert data[fc..fc + 4] == BLANK_LINE;
      assert OccursAt(data, BLANK_LINE, fc);
      assert false;
    }
  }

  /**
   The cut loses no byte. Either the header part is what stands between the start line and the
   blank line; or there are no headers, the size_t length wraps, the header part runs over the
   whole body, and parsing it still stores nothing.
   */
  lemma CutConserves(data: string, m: HeaderMap)
    requires |data| <= MAX_SIZE && Find(data, BLANK_LINE, 0).Some?
    ensures Cut(data).Parts?
    ensures var Parts(s, h, b) := Cut(data);
            var fc, he := Find(data, CRLF, 0), Find(data, BLANK_LINE, 0);
            if fc == he then data == s + BLANK_LINE + b && h == CRLF + b && ParseHeaders(h, m) == m
            else data == s + CRLF + h + BLANK_LINE + b
  {
    HeadGeometry(data);
    var fc, he := Find(data, CRLF, 0).value, Find(data, BLANK_LINE, 0).value;
    if fc < he {
      SplitAt(data, fc, he);
    } else {
      WrappedCut(data, fc, m);
    }
  }

  /** What the cut gives at its two cut points. */
  lemma CutAtPoints(data: string, fc: nat, he: nat)
    requires |data| <= MAX_SIZE && Find(data, CRLF, 0) == Some(fc) && Find(data, BLANK_LINE, 0) == Some(he)
    ensures fc == he || fc + 3 <= he
    ensures Cut(data) ==
            Parts(data[..fc], if fc == he then CRLF + data[he + 4..] else data[fc + 2..he], data[he + 4..])
  {
    HeadGeometry(data);
    if fc == he { WrappedCut(data, fc, map[]); }
  }

  lemma SplitAt(data: string, fc: nat, he: nat)
    requires fc + 2 <= he && he + 4 <= |data|
    requires data[fc..fc + 2] == CRLF && data[he..he + 4] == BLANK_LINE
    ensures data == data[..fc] + CRLF + data[fc + 2..he] + BLANK_LINE + data[he + 4..]
  {
    assert data == data[..fc] + data[fc..fc + 2] + data[fc + 2..he] + data[he..he + 4] + data[he + 4..];
  }

  lemma WrappedCut(data: string, at: nat, m: HeaderMap)
    requires |data| <= MAX_SIZE && at + 4 <= |data| && data[at..at + 4] == BLANK_LINE
    ensures var h := Substr(data, at + 2, SizeMinus(SizeMinus(at, at), 2));
            h == CRLF + data[at + 4..] && ParseHeaders(h, m) == m
    ensures data == data[..at] + BLANK_LINE + data[at + 4..]
  {
    var b := data[at + 4..];
    assert data[at + 2] == data[at..at + 4][2] && data[at + 3] == data[at..at + 4][3];
    assert data[at + 2..] == CRLF + b;
    assert CRLF + b == "\r" + ['\n'] + b;
    CutAt("\r", '\n', b);
    assert data == data[..at] + data[at..at + 4] + data[at + 4..];
  }

  /** The headers come back through the cut: clean, and the last value does not end in '\r'. */
  ghost predicate Recoverable(h: HeaderMap) {
    && CleanHeaders(h)
    && var ks := SortedKeys(h.Keys);
       ks != [] ==> ChopReturn(h[ks[|ks| - 1]]) == h[ks[|ks| - 1]]
  }

  lemma CutWithoutHeaders(startLine: string, body: string)
    requires '\n' !in startLine && |startLine| + 4 + |body| <= MAX_SIZE
    ensures Cut(startLine + (CRLF + ("" + (CRLF + body)))) == Parts(startLine, CRLF + body, body)
  {
    EmptyBlock(startLine, body);
    FirstLineEnd(startLine, "" + (CRLF + body));
    FirstBlankLine(startLine, body);
    CutBetween(startLine, "", body);
    assert startLine + "" == startLine;
  }

  lemma CutWithHeaders(startLine: string, u: string, body: string)
    requires '\n' !in startLine && Seamless(u) && |startLine| + |u| + 6 + |body| <= MAX_SIZE
    ensures Cut(startLine + (CRLF + (u + (CRLF + (CRLF + body))))) == Parts(startLine, u, body)
  {
    BlockThenBody(startLine, u, body);
    FirstLineEnd(startLine, u + (CRLF + (CRLF + body)));
    JoinSeamless(startLine, u);
    FirstBlankLine(startLine + (CRLF + u), body);
    CutBetween(startLine, CRLF + u, body);
    assert (CRLF + u)[2..] == u;
  }

  /** The cut of a printed message with clean headers finds its three parts. */
  lemma CutOfMessage(startLine: string, h: HeaderMap, body: string)
    requires '\n' !in startLine && CleanHeaders(h) && |MessageText(startLine, h, body)| <= MAX_SIZE
    ensures var ks := SortedKeys(h.Keys);
            Cut(MessageText(startLine, h, body))
            == Parts(startLine, if ks == [] then CRLF + body else Unterminated(ks, h), body)
  {
    var ks := SortedKeys(h.Keys);
    if ks == [] {
      CutWithoutHeaders(startLine, body);
    } else {
      Terminated(ks, h, CRLF + body);
      UnterminatedSeamless(ks, h);
      CutWithHeaders(startLine, Unterminated(ks, h), body);
    }
  }

  lemma EmptyBlock(startLine: string, body: string)
    ensures startLine + (CRLF + ("" + (CRLF + body))) == startLine + (BLANK_LINE + body)
  {
  }

  lemma BlockThenBody(startLine: string, u: string, body: string)
    ensures startLine + (CRLF + (u + (CRLF + (CRLF + body)))) == (startLine + (CRLF + u)) + (BLANK_LINE + body)
  {
  }

  /** Slices of a text put together from a start line, a block and a body. */
  lemma CutBetween(startLine: string, block: string, body: string)
    requires block == "" || (|block| >= 2 && block[..2] == CRLF)
    ensures var raw := (startLine + block) + (BLANK_LINE + body);
            var n := |startLine|;
            && raw[..n] == startLine && raw[n + |block| + 4..] == body
            && (block != "" ==> raw[n + 2..n + |block|] == block[2..])
            && (block == "" ==> raw[n + 2..] == CRLF + body)
  {
    assert startLine + "" == startLine;
  }

  lemma KeptIffChopKeeps(ks: seq<string>, h: HeaderMap)
    requires ks != [] && forall k :: k in ks <==> k in h
    ensures LastValueChopped(ks, h) == h <==> ChopReturn(h[ks[|ks| - 1]]) == h[ks[|ks| - 1]]
  {
  }

  lemma HeadersReadBack(ks: seq<string>, h: HeaderMap)
    requires ks != [] && CleanHeaders(h) && Ascending(ks) && forall k :: k in ks <==> k in h
    ensures ParseHeaders(Unterminated(ks, h), map[]) == LastValueChopped(ks, h)
  {
    ParseUnterminated(ks, h, map[]);
    PickAll(ks, LastValueChopped(ks, h));
  }

  lemma NoHeadersReadBack(body: string, m: HeaderMap)
    ensures ParseHeaders(CRLF + body, m) == m
  {
    assert CRLF + body == "\r" + ['\n'] + body;
    CutAt("\r", '\n', body);
  }

  /** With clean headers the parsed block differs from the printed one at most in its last value. */
  lemma RecoveredWhenClean(h: HeaderMap, hs: string, body: string)
    requires CleanHeaders(h)
    requires var ks := SortedKeys(h.Keys); hs == if ks == [] then CRLF + body else Unterminated(ks, h)
    ensures ParseHeaders(hs, map[]) == h <==> Recoverable(h)
  {
    var ks := SortedKeys(h.Keys);
    if ks == [] {
      NoHeadersReadBack(body, map[]);
      assert h.Keys == {};
      assert h == map[];
    } else {
      HeadersReadBack(ks, h);
      KeptIffChopKeeps(ks, h);
    }
  }

  /**
   A message is recovered - start line, headers and body, whatever the body holds -
   if and only if its headers are recoverable.
   */
  lemma MessageRecoveredIff(startLine: string, h: HeaderMap, body: string)
    requires '\n' !in startLine && |MessageText(startLine, h, body)| <= MAX_SIZE
    ensures (match Cut(MessageText(startLine, h, body))
             case Parts(s, hs, b) => s == startLine && ParseHeaders(hs, map[]) == h && b == body
             case _ => false)
            <==> Recoverable(h)
  {
    if CleanHeaders(h) {
      CutOfMessage(startLine, h, body);
      RecoveredWhenClean(h, Cut(MessageText(startLine, h, body)).headers, body);
    } else if Cut(MessageText(startLine, h, body)).Parts? {
      ParsedIsClean(Cut(MessageText(startLine, h, body)).headers, map[]);
    }
  }

  lemma OneUnterminated(k: string, v: string)
    ensures var ks, h := SortedKeys({k}), map[k := v];
            ks == [k] && LastValueChopped(ks, h) == map[k := ChopReturn(v)]
  {
    var ks := SortedKeys({k});
    assert |ks| == 1 && ks[0] in ks;
  }

  /** What comes back of a message with one header. */
  lemma OneHeaderBack(startLine: string, k: string, v: string, body: string)
    requires '\n' !in startLine && CleanKey(k) && '\n' !in v && |MessageText(startLine, map[k := v], body)| <= MAX_SIZE
    ensures var c := Cut(MessageText(startLine, map[k := v], body));
            c.Parts? && ParseHeaders(c.headers, map[]) == map[k := ChopReturn(v)]
  {
    var h := map[k := v];
    CutOfMessage(startLine, h, body);
    assert h.Keys == {k};
    OneUnterminated(k, v);
    HeadersReadBack([k], h);
  }

  /** A value that ends in '\r' survives as a header block, and loses that character in a whole message. */
  lemma ReturnIsLost(startLine: string, k: string, v: string, body: string)
    requires '\n' !in startLine && |MessageText(startLine, map[k := v], body)| <= MAX_SIZE
    requires ':' !in k && '\n' !in k && '\n' !in v && v != "" && v[|v| - 1] == '\r'
    ensures ParseHeaders(PrintHeaders(map[k := v]), map[]) == map[k := v]
    ensures var c := Cut(MessageText(startLine, map[k := v], body));
            c.Parts? && ParseHeaders(c.headers, map[]) == map[k := v[..|v| - 1]] != map[k := v]
  {
    NoDelimiter(k);
    OneHeaderBack(startLine, k, v, body);
    OneHeader(k, v);
    OneCleanHeader(k, v);
    assert map[k := v][k] != map[k := v[..|v| - 1]][k];
  }

  /** Such a header exists. */
  lemma ReturnIsLostOnce(startLine: string, body: string) returns (h: HeaderMap)
    requires '\n' !in startLine && |startLine| + |body| + 100 <= MAX_SIZE
    ensures h == map["a" := "x\r"] && ParseHeaders(PrintHeaders(h), map[]) == h
    ensures var c := Cut(MessageText(startLine, h, body));
            c.Parts? && ParseHeaders(c.headers, map[]) != h
  {
    var k, v := OneLetter();
    h := map[k := v];
    OneHeader(k, v);
    ReturnIsLost(startLine, k, v, body);
  }

  lemma OneLetter() returns (k: string, v: string)
    ensures k == "a" && v == "x\r"
  {
    k, v := "a", "x\r";
  }

  lemma StatusLineOneLine(r: Response)
    requires StatusText(r.status).Some?
    ensures '\n' !in StatusLine(r)
  {
    assert '\n' !in VersionText(r.version);
  }

  /** Serialisation is unambiguous exactly for recoverable headers. */
  lemma ResponseRecoveredIff(r: Response)
    requires RawResponse(r).Some? && |RawResponse(r).value| <= MAX_SIZE
    ensures (match Cut(RawResponse(r).value)
             case Parts(s, hs, b) => s == StatusLine(r) && ParseHeaders(hs, map[]) == r.headers && b == r.body
             case _ => false)
            <==> Recoverable(r.headers)
  {
    StatusLineOneLine(r);
    MessageRecoveredIff(StatusLine(r), r.headers, r.body);
  }
}
