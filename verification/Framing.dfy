/**
 When the bytes received so far are a complete request, and that the answer is
 right for every way of cutting the request into reads.
 */
module Framing {
  import opened Text
  import opened HttpHeaders
  import opened Message

  const CONTENT_LENGTH := "Content-Length:"
  const ULLONG_MAX := 0xFFFF_FFFF_FFFF_FFFF

  // ---------- std::stoull ----------

  predicate IsSpace(c: char) { c == ' ' || 9 <= c as int <= 13 }

  function SkipSpace(s: string): string {
    if s != "" && IsSpace(s[0]) then SkipSpace(s[1..]) else s
  }

  function DigitPrefix(s: string): (r: string)
    ensures AllDigits(r)
  {
    if s != "" && IsDigit(s[0]) then [s[0]] + DigitPrefix(s[1..]) else ""
  }

  /** None stands for invalid_argument and out_of_range; a negative number wraps. */
  function Stoull(s: string): Option<nat> {
    var t := SkipSpace(s);
    var negative := t != "" && t[0] == '-';
    var digits := DigitPrefix(if t != "" && (t[0] == '-' || t[0] == '+') then t[1..] else t);
    if digits == "" || Decimal(digits) > ULLONG_MAX then None
    else Some(if negative then SizeMinus(0, Decimal(digits)) else Decimal(digits))
  }

  // ---------- The readiness test ----------

  /** The first position at or after `from` that holds neither a space nor a tab. */
  function SkipBlanks(s: string, from: nat): (r: nat)
    requires from <= |s|
    ensures from <= r <= |s| && forall i :: from <= i < r ==> s[i] == ' ' || s[i] == '\t'
    ensures r < |s| ==> s[r] != ' ' && s[r] != '\t'
    decreases |s| - from
  {
    if from < |s| && (s[from] == ' ' || s[from] == '\t') then SkipBlanks(s, from + 1) else from
  }

  datatype Announced = NoLength | OpenLine | Value(text: string)

  /** The text of the first Content-Length value, up to the end of its line. */
  function AnnouncedLength(data: string): Announced {
    match Find(data, CONTENT_LENGTH, 0)
    case None => NoLength
    case Some(at) =>
      var valueStart := SkipBlanks(data, at + 15);
      match Find(data, CRLF, valueStart)
      case None => OpenLine
      case Some(valueEnd) => Value(Substr(data, valueStart, SizeMinus(valueEnd, valueStart)))
  }

  /** What Client::is_request_ready computes of the request buffer. */
  predicate IsReady(data: string) {
    match Find(data, BLANK_LINE, 0)
    case None => false
    case Some(headersEnd) =>
      match AnnouncedLength(data)
      case NoLength => true
      case OpenLine => false
      case Value(text) =>
        match Stoull(text)
        case None => true
        case Some(contentLength) => SizeMinus(|data|, headersEnd + 4) >= contentLength
  }

  // ---------- What a whole message is ----------

  /** The body length that a complete head announces; 0 when it announces none that can be read. */
  function DeclaredLength(head: string): nat {
    match AnnouncedLength(head)
    case Value(text) => (match Stoull(text) case None => 0 case Some(n) => n)
    case _ => 0
  }

  /** A head up to its first blank line, followed by exactly the body it announces. */
  predicate IsWholeMessage(m: string) {
    match Find(m, BLANK_LINE, 0)
    case None => false
    case Some(he) => |m| - (he + 4) == DeclaredLength(m[..he + 4])
  }

  // ---------- Searching in a growing buffer ----------

  lemma FindStable(s: string, t: string, p: string, from: nat)
    requires Find(s, p, from).Some?
    ensures Find(s + t, p, from) == Find(s, p, from)
  {
    var i, u := Find(s, p, from).value, s + t;
    assert u[0..|s|] == s;
    OccursInPart(u, p, 0, |s|, i);
    forall j | from <= j < i ensures !OccursAt(u, p, j) {
      OccursInPart(u, p, 0, |s|, j);
    }
  }

  /** In a prefix that still holds the occurrence, it is found at the same place. */
  lemma FindInPrefix(s: string, n: nat, p: string, from: nat)
    requires n <= |s| && Find(s, p, from).Some? && Find(s, p, from).value + |p| <= n
    ensures Find(s[..n], p, from) == Find(s, p, from)
  {
    var i := Find(s, p, from).value;
    assert s[0..n] == s[..n];
    OccursInPart(s, p, 0, n, i);
    forall j | from <= j < i ensures !OccursAt(s[..n], p, j) {
      OccursInPart(s, p, 0, n, j);
    }
  }

  lemma {:induction false} SkipBlanksStable(s: string, t: string, from: nat)
    requires from <= |s| && SkipBlanks(s, from) < |s|
    ensures SkipBlanks(s + t, from) == SkipBlanks(s, from)
    decreases |s| - from
  {
    assert from < |s| && (s + t)[from] == s[from];
    if s[from] == ' ' || s[from] == '\t' { SkipBlanksStable(s, t, from + 1); }
  }

  // ---------- A complete head ----------

  /** A head: it ends with its first blank line. */
  predicate IsHead(head: string) {
    |head| >= 4 && Find(head, BLANK_LINE, 0) == Some(|head| - 4)
  }

  lemma HeadOf(m: string)
    requires Find(m, BLANK_LINE, 0).Some?
    ensures var he := Find(m, BLANK_LINE, 0).value; IsHead(m[..he + 4])
  {
    var he := Find(m, BLANK_LINE, 0).value;
    FindInPrefix(m, he + 4, BLANK_LINE, 0);
  }

  /** The value of a Content-Length in a head ends in that head. */
  lemma LengthLine(head: string, at: nat)
    requires IsHead(head) && OccursAt(head, CONTENT_LENGTH, at)
    ensures at + 15 <= |head| - 4
    ensures var start := SkipBlanks(head, at + 15);
            && start < |head|
            && Find(head, CRLF, start).Some? && start <= Find(head, CRLF, start).value <= |head| - 4
  {
    var n := |head| - 4;
    BlankLineChars(head, n);
    LengthBeforeBlank(head, at);
    var start := SkipBlanks(head, at + 15);
    assert start <= n;
    assert head[n..n + 2] == [head[n], head[n + 1]];
    assert OccursAt(head, CRLF, n);
  }

  lemma LengthBeforeBlank(head: string, at: nat)
    requires IsHead(head) && OccursAt(head, CONTENT_LENGTH, at)
    ensures at + 15 <= |head| - 4
  {
    var n := |head| - 4;
    BlankLineChars(head, n);
    assert forall k :: 0 <= k < 15 ==> CONTENT_LENGTH[k] != '\r' && CONTENT_LENGTH[k] != '\n';
    OccursChar(head, CONTENT_LENGTH, at, 14);
    if at <= n < at + 15 {
      OccursChar(head, CONTENT_LENGTH, at, n - at);
      assert false;
    }
  }

  lemma SubstrBetween(s: string, t: string, lo: nat, hi: nat)
    requires lo <= hi <= |s| <= MAX_SIZE
    ensures Substr(s, lo, SizeMinus(hi, lo)) == s[lo..hi]
    ensures Substr(s + t, lo, SizeMinus(hi, lo)) == s[lo..hi]
  {
  }

  /** A Content-Length whose line has ended announces the same whatever follows. */
  lemma AnnouncedStays(data: string, more: string)
    requires AnnouncedLength(data).Value? && |data| <= MAX_SIZE
    ensures AnnouncedLength(data + more) == AnnouncedLength(data)
  {
    var at := Find(data, CONTENT_LENGTH, 0).value;
    var start := SkipBlanks(data, at + 15);
    FindStable(data, more, CONTENT_LENGTH, 0);
    SkipBlanksStable(data, more, at + 15);
    FindStable(data, more, CRLF, start);
    SubstrBetween(data, more, start, Find(data, CRLF, start).value);
  }

  /** Body bytes do not change the length that the head announces. */
  lemma AnnouncedInHead(head: string, body: string)
    requires IsHead(head) && Find(head, CONTENT_LENGTH, 0).Some? && |head| <= MAX_SIZE
    ensures AnnouncedLength(head).Value? && AnnouncedLength(head + body) == AnnouncedLength(head)
  {
    LengthLine(head, Find(head, CONTENT_LENGTH, 0).value);
    AnnouncedStays(head, body);
  }

  /** Once the head announces a length, readiness is having received that many body bytes. */
  lemma ReadyWithLength(head: string, body: string)
    requires IsHead(head) && Find(head, CONTENT_LENGTH, 0).Some? && |head + body| <= MAX_SIZE
    ensures IsReady(head + body) <==> |body| >= DeclaredLength(head)
  {
    FindStable(head, body, BLANK_LINE, 0);
    AnnouncedInHead(head, body);
    assert SizeMinus(|head + body|, |head|) == |body|;
  }

  /** A head that announces no length is ready as soon as it is complete. */
  lemma ReadyWithoutLength(head: string)
    requires IsHead(head) && Find(head, CONTENT_LENGTH, 0).None?
    ensures IsReady(head) && DeclaredLength(head) == 0
  {
  }

  /** Before its blank line has arrived a message is not ready. */
  lemma NotReadyInHead(m: string, k: nat)
    requires k <= |m|
    requires Find(m, BLANK_LINE, 0).None? || k < Find(m, BLANK_LINE, 0).value + 4
    ensures !IsReady(m[..k])
  {
    var p := m[..k];
    assert p + m[k..] == m;
    if Find(p, BLANK_LINE, 0).Some? {
      FindStable(p, m[k..], BLANK_LINE, 0);
      assert false;
    }
  }

  // ---------- Main results ----------

  /** Ready on the whole text and on no proper prefix of it. */
  ghost predicate ReadyExactlyAtEnd(m: string) {
    IsReady(m) && forall k :: 0 <= k < |m| ==> !IsReady(m[..k])
  }

  lemma SplitPrefix(m: string, n: nat, k: nat)
    requires n <= k <= |m|
    ensures m[..n] + m[n..k] == m[..k]
    ensures n == k ==> m[n..k] == "" && m[..n] == m[..k]
  {
  }

  lemma ReadyAfterHead(m: string, k: nat)
    requires |m| <= MAX_SIZE && Find(m, BLANK_LINE, 0).Some? && Find(m, BLANK_LINE, 0).value + 4 <= k <= |m|
    ensures var n := Find(m, BLANK_LINE, 0).value + 4;
            && IsHead(m[..n])
            && (Find(m[..n], CONTENT_LENGTH, 0).Some? ==> (IsReady(m[..k]) <==> k - n >= DeclaredLength(m[..n])))
            && (Find(m[..n], CONTENT_LENGTH, 0).None? && k == n ==> IsReady(m[..k]))
  {
    var n := Find(m, BLANK_LINE, 0).value + 4;
    HeadOf(m);
    SplitPrefix(m, n, k);
    var head, body := m[..n], m[n..k];
    if Find(head, CONTENT_LENGTH, 0).Some? {
      ReadyWithLength(head, body);
    } else {
      ReadyWithoutLength(head);
    }
  }

  /**
   Readiness frames messages exactly: a text is ready at its last byte and never before
   if and only if it is one whole message.
   */
  lemma ReadyExactlyAtEndIff(m: string)
    requires |m| <= MAX_SIZE
    ensures ReadyExactlyAtEnd(m) <==> IsWholeMessage(m)
  {
    assert m[..|m|] == m;
    if Find(m, BLANK_LINE, 0).Some? {
      var n := Find(m, BLANK_LINE, 0).value + 4;
      ReadyAfterHead(m, |m|);
      ReadyAfterHead(m, n);
      if Find(m[..n], CONTENT_LENGTH, 0).Some? {
        var whole := n + DeclaredLength(m[..n]);
        if whole < |m| { ReadyAfterHead(m, whole); }
      }
      if IsWholeMessage(m) {
        forall k | 0 <= k < |m| ensures !IsReady(m[..k]) {
          if k < n { NotReadyInHead(m, k); } else { ReadyAfterHead(m, k); }
        }
      }
    } else {
      NotReadyInHead(m, |m|);
    }
  }

  // ---------- Reads ----------

  /** The request buffer after a sequence of reads. */
  function Received(chunks: seq<string>): string {
    if chunks == [] then "" else Received(chunks[..|chunks| - 1]) + chunks[|chunks| - 1]
  }

  lemma {:induction false} ReceivedPrefix(chunks: seq<string>, j: nat)
    requires j <= |chunks|
    ensures |Received(chunks[..j])| <= |Received(chunks)|
    ensures Received(chunks[..j]) == Received(chunks)[..|Received(chunks[..j])|]
    ensures j < |chunks| && (forall i :: 0 <= i < |chunks| ==> chunks[i] != "")
            ==> |Received(chunks[..j])| < |Received(chunks)|
    decreases |chunks|
  {
    if j == |chunks| {
      assert chunks[..j] == chunks;
    } else {
      var most := chunks[..|chunks| - 1];
      assert most[..j] == chunks[..j];
      ReceivedPrefix(most, j);
    }
  }

  /**
   Chunking independence: however a whole message is cut into non-empty reads,
   the buffer is ready after the last read and after no earlier one.
   */
  lemma ChunkingIndependent(chunks: seq<string>)
    requires IsWholeMessage(Received(chunks)) && |Received(chunks)| <= MAX_SIZE
    requires forall i :: 0 <= i < |chunks| ==> chunks[i] != ""
    ensures IsReady(Received(chunks))
    ensures forall j :: 0 <= j < |chunks| ==> !IsReady(Received(chunks[..j]))
  {
    ReadyExactlyAtEndIff(Received(chunks));
    forall j | 0 <= j < |chunks| ensures !IsReady(Received(chunks[..j])) {
      ReceivedPrefix(chunks, j);
    }
  }

  /** Once a ready buffer holds a Content-Length anywhere, no further bytes make it unready. */
  lemma ReadyIsKept(data: string, more: string)
    requires IsReady(data) && |data + more| <= MAX_SIZE && Find(data, CONTENT_LENGTH, 0).Some?
    ensures IsReady(data + more)
  {
    FindStable(data, more, BLANK_LINE, 0);
    AnnouncedStays(data, more);
  }

  /** Bytes that open a Content-Length line where there was none. */
  const OPEN_LENGTH := "\r" + CONTENT_LENGTH

  lemma OpenedAtSeam(data: string)
    requires Find(data, CONTENT_LENGTH, 0).None?
    ensures Find(data + OPEN_LENGTH, CONTENT_LENGTH, 0) == Some(|data| + 1)
  {
    var s, n := data + OPEN_LENGTH, |data|;
    assert s[n + 1..n + 16] == CONTENT_LENGTH && s[n] == '\r' && s[0..n] == data;
    assert OccursAt(s, CONTENT_LENGTH, n + 1);
    assert '\r' !in CONTENT_LENGTH;
    forall j | 0 <= j <= n ensures !OccursAt(s, CONTENT_LENGTH, j) {
      if OccursAt(s, CONTENT_LENGTH, j) {
        if j + 15 <= n {
          OccursInPart(s, CONTENT_LENGTH, 0, n, j);
        } else {
          OccursChar(s, CONTENT_LENGTH, j, n - j);
        }
        assert false;
      }
    }
  }

  lemma OpenedIsNotReady(data: string)
    requires Find(data, CONTENT_LENGTH, 0).None?
    ensures !IsReady(data + OPEN_LENGTH)
  {
    var s := data + OPEN_LENGTH;
    OpenedAtSeam(data);
    assert SkipBlanks(s, |s|) == |s|;
    assert forall j :: |s| <= j ==> !OccursAt(s, CRLF, j);
  }

  /** A ready buffer stays ready whatever is received next if and only if it holds a Content-Length. */
  lemma ReadyIsKeptIff(data: string)
    requires IsReady(data) && |data| + |OPEN_LENGTH| <= MAX_SIZE
    ensures (forall more :: |data + more| <= MAX_SIZE ==> IsReady(data + more))
            <==> Find(data, CONTENT_LENGTH, 0).Some?
  {
    if Find(data, CONTENT_LENGTH, 0).Some? {
      forall more | |data + more| <= MAX_SIZE ensures IsReady(data + more) { ReadyIsKept(data, more); }
    } else {
      OpenedIsNotReady(data);
      assert |data + OPEN_LENGTH| <= MAX_SIZE;
    }
  }

  /** A ready buffer that becomes unready by a whole line received behind its head. */
  lemma ReadyIsNotAlwaysKept()
    ensures IsReady(BLANK_LINE) && !IsReady(BLANK_LINE + "Content-Length:99\r\n")
  {
    var d := BLANK_LINE + "Content-Length:99\r\n";
    assert BLANK_LINE[0..4] == BLANK_LINE;
    assert OccursAt(BLANK_LINE, BLANK_LINE, 0);
    assert d[0..4] == BLANK_LINE && d[4..19] == CONTENT_LENGTH && d[21..23] == CRLF;
    assert OccursAt(d, BLANK_LINE, 0) && OccursAt(d, CONTENT_LENGTH, 4) && OccursAt(d, CRLF, 21);
    forall j | 0 <= j < 4 ensures !OccursAt(d, CONTENT_LENGTH, j) {
      if OccursAt(d, CONTENT_LENGTH, j) { OccursChar(d, CONTENT_LENGTH, j, 0); }
    }
    forall j | 19 <= j < 21 ensures !OccursAt(d, CRLF, j) {
      if OccursAt(d, CRLF, j) { OccursChar(d, CRLF, j, 0); }
    }
    assert SkipBlanks(d, 19) == 19;
    assert d[19..21] == "99" == Digits(99);
    DecimalOfDigits(99);
    StoullOfDigits(d[19..21]);
  }

  // ---------- The number in the head ----------

  lemma {:induction false} DigitPrefixOf(d: string, tail: string)
    requires AllDigits(d) && (tail == "" || !IsDigit(tail[0]))
    ensures DigitPrefix(d + tail) == d
    decreases |d|
  {
    if d == "" {
      assert d + tail == tail;
    } else {
      assert (d + tail)[1..] == d[1..] + tail;
      DigitPrefixOf(d[1..], tail);
    }
  }

  lemma {:induction false} DigitPrefixSplits(s: string)
    ensures var d := DigitPrefix(s); d <= s && (|d| < |s| ==> !IsDigit(s[|d|]))
  {
    if s != "" && IsDigit(s[0]) {
      DigitPrefixSplits(s[1..]);
      assert s == [s[0]] + s[1..];
    }
  }

  lemma {:induction false} SkipSpaceOf(ws: string, t: string)
    requires AllSpace(ws) && (t == "" || !IsSpace(t[0]))
    ensures SkipSpace(ws + t) == t
    decreases |ws|
  {
    if ws == "" {
      assert ws + t == t;
    } else {
      assert (ws + t)[1..] == ws[1..] + t;
      SkipSpaceOf(ws[1..], t);
    }
  }

  lemma {:induction false} SkipSpaceSplits(s: string) returns (ws: string)
    ensures AllSpace(ws) && s == ws + SkipSpace(s) && (SkipSpace(s) == "" || !IsSpace(SkipSpace(s)[0]))
  {
    if s != "" && IsSpace(s[0]) {
      var rest := SkipSpaceSplits(s[1..]);
      ws := [s[0]] + rest;
      FrontRegroups(s, rest, SkipSpace(s[1..]));
    } else {
      ws := "";
    }
  }

  lemma FrontRegroups(s: string, a: string, b: string)
    requires s != "" && s[1..] == a + b
    ensures s == ([s[0]] + a) + b
  {
  }

  predicate AllSpace(s: string) { forall i :: 0 <= i < |s| ==> IsSpace(s[i]) }

  /** What the standard calls the subject sequence: white space, a sign or none, digits, and anything. */
  predicate IsNumeral(s: string, ws: string, sign: string, d: string, tail: string) {
    && AllSpace(ws) && (sign == "" || sign == "+" || sign == "-")
    && AllDigits(d) && d != "" && (tail == "" || !IsDigit(tail[0]))
    && s == ws + (sign + (d + tail))
  }

  function Signed(sign: string, n: nat): nat {
    if sign == "-" && n > 0 then SizeMinus(SIZE_T, n) else n
  }

  /** The value of a numeral: its magnitude must fit 64 bits, and a negative one is complemented. */
  lemma StoullOfNumeral(s: string, ws: string, sign: string, d: string, tail: string)
    requires IsNumeral(s, ws, sign, d, tail)
    ensures Stoull(s) == if Decimal(d) <= ULLONG_MAX then Some(Signed(sign, Decimal(d))) else None
  {
    var t := sign + (d + tail);
    assert t[0] == if sign == "" then d[0] else sign[0];
    SkipSpaceOf(ws, t);
    SignCut(sign, d + tail);
    DigitPrefixOf(d, tail);
  }

  lemma SignCut(sign: string, t: string)
    ensures sign == "" ==> sign + t == t
    ensures |sign| == 1 ==> (sign + t)[1..] == t && (sign + t)[0] == sign[0]
  {
  }

  /** The number read from a text is found in it as a numeral. */
  lemma NumeralIn(s: string)
    requires Stoull(s).Some?
    ensures exists ws, sign, d, tail :: IsNumeral(s, ws, sign, d, tail)
  {
    var ws := SkipSpaceSplits(s);
    var t := SkipSpace(s);
    var sign, u := SignSplit(t);
    var tail := DigitsSplit(u);
    NumeralParts(s, ws, t, sign, u, DigitPrefix(u), tail);
  }

  lemma SignSplit(t: string) returns (sign: string, u: string)
    ensures t == sign + u && (sign == "" || sign == "+" || sign == "-")
    ensures u == if t != "" && (t[0] == '-' || t[0] == '+') then t[1..] else t
  {
    sign, u := "", t;
    if t != "" && (t[0] == '-' || t[0] == '+') {
      sign, u := [t[0]], t[1..];
    }
  }

  lemma DigitsSplit(u: string) returns (tail: string)
    ensures u == DigitPrefix(u) + tail && (tail == "" || !IsDigit(tail[0]))
  {
    DigitPrefixSplits(u);
    tail := u[|DigitPrefix(u)|..];
  }

  lemma NumeralParts(s: string, ws: string, t: string, sign: string, u: string, d: string, tail: string)
    requires AllSpace(ws) && (sign == "" || sign == "+" || sign == "-")
    requires AllDigits(d) && d != "" && (tail == "" || !IsDigit(tail[0]))
    requires s == ws + t && t == sign + u && u == d + tail
    ensures IsNumeral(s, ws, sign, d, tail)
  {
  }

  /** stoull reads `n` from a text exactly when the text is a numeral whose magnitude fits and whose value is `n`. */
  lemma StoullIff(s: string, n: nat)
    ensures Stoull(s) == Some(n)
            <==> exists ws, sign, d, tail :: IsNumeral(s, ws, sign, d, tail)
                                             && Decimal(d) <= ULLONG_MAX && n == Signed(sign, Decimal(d))
  {
    if Stoull(s).Some? {
      NumeralIn(s);
      var ws, sign, d, tail :| IsNumeral(s, ws, sign, d, tail);
      StoullOfNumeral(s, ws, sign, d, tail);
    }
    if ws, sign, d, tail :| IsNumeral(s, ws, sign, d, tail)
                            && Decimal(d) <= ULLONG_MAX && n == Signed(sign, Decimal(d)) {
      StoullOfNumeral(s, ws, sign, d, tail);
    }
  }

  /** A run of decimal digits, leading zeros and all, is read as the number it denotes. */
  lemma StoullOfDigits(d: string)
    requires AllDigits(d) && d != ""
    ensures Stoull(d) == if Decimal(d) <= ULLONG_MAX then Some(Decimal(d)) else None
  {
    assert d == "" + ("" + (d + ""));
    StoullOfNumeral(d, "", "", d, "");
  }

  /** A negative length is read as its 64-bit complement. */
  lemma StoullOfNegative(n: nat)
    requires 0 < n <= ULLONG_MAX
    ensures Stoull("-" + Digits(n)) == Some(SIZE_T - n)
  {
    DecimalOfDigits(n);
    assert "-" + Digits(n) == "" + ("-" + (Digits(n) + ""));
    StoullOfNumeral("-" + Digits(n), "", "-", Digits(n), "");
  }

  /** Searching from the start of a part is searching that part. */
  lemma FindShift(before: string, w: string, p: string)
    requires Find(w, p, 0).Some?
    ensures Find(before + w, p, |before|) == Some(|before| + Find(w, p, 0).value)
  {
    var s, n, i := before + w, |before|, Find(w, p, 0).value;
    PartOccurs(before, w, p);
    assert OccursAt(s, p, n + i);
    assert forall j :: n <= j < n + i ==> !OccursAt(s, p, j);
  }

  lemma PartOccurs(before: string, w: string, p: string)
    ensures forall j :: |before| <= j ==> (OccursAt(before + w, p, j) <==> OccursAt(w, p, j - |before|))
  {
    var s, n := before + w, |before|;
    assert s[n..|s|] == w;
    forall j | n <= j ensures OccursAt(s, p, j) <==> OccursAt(w, p, j - n) {
      OccursInPart(s, p, n, |s|, j - n);
    }
  }

  predicate AllBlank(s: string) { forall i :: 0 <= i < |s| ==> s[i] == ' ' || s[i] == '\t' }

  lemma {:induction false} SkipBlanksOver(s: string, from: nat, to: nat)
    requires from <= to <= |s| && (forall i :: from <= i < to ==> s[i] == ' ' || s[i] == '\t')
    requires to < |s| ==> s[to] != ' ' && s[to] != '\t'
    ensures SkipBlanks(s, from) == to
    decreases |s| - from
  {
    if from < to { SkipBlanksOver(s, from + 1, to); }
  }

  lemma LineEndAt(before: string, text: string, post: string)
    requires '\n' !in text
    ensures Find(before + (text + (CRLF + post)), CRLF, |before|) == Some(|before| + |text|)
    ensures var s := before + (text + (CRLF + post));
            && s[|before|..|before| + |text|] == text && s[|before|] == if text == "" then '\r' else text[0]
  {
    FirstLineEnd(text, post);
    FindShift(before, text + (CRLF + post), CRLF);
    MiddlePart(before, text, CRLF + post);
  }

  lemma MiddlePart(a: string, b: string, c: string)
    requires c != ""
    ensures (a + (b + c))[|a|..|a| + |b|] == b && (a + (b + c))[|a|] == if b == "" then c[0] else b[0]
  {
  }

  lemma BlanksInMiddle(a: string, blanks: string, c: string, from: nat)
    requires |a| == from && AllBlank(blanks)
    ensures var s := (a + blanks) + c; forall i :: from <= i < from + |blanks| ==> s[i] == ' ' || s[i] == '\t'
  {
  }

  /** A head announces what stands on the line of its first Content-Length, behind any run of blanks. */
  lemma AnnouncedText(pre: string, blanks: string, text: string, post: string)
    requires AllBlank(blanks) && '\n' !in text && (text != "" ==> text[0] != ' ' && text[0] != '\t')
    requires var head := (pre + CONTENT_LENGTH + blanks) + (text + (CRLF + post));
             |head| <= MAX_SIZE && Find(head, CONTENT_LENGTH, 0) == Some(|pre|)
    ensures AnnouncedLength((pre + CONTENT_LENGTH + blanks) + (text + (CRLF + post))) == Value(text)
  {
    var before := pre + CONTENT_LENGTH + blanks;
    var head := before + (text + (CRLF + post));
    LineEndAt(before, text, post);
    BlanksInMiddle(pre + CONTENT_LENGTH, blanks, text + (CRLF + post), |pre| + 15);
    SkipBlanksOver(head, |pre| + 15, |before|);
    SubstrBetween(head, "", |before|, |before| + |text|);
  }

  /** A head whose first Content-Length carries digits announces the number they denote, or none if it is too large. */
  lemma DeclaredDecimal(pre: string, blanks: string, d: string, post: string)
    requires AllBlank(blanks) && AllDigits(d) && d != ""
    requires var head := (pre + CONTENT_LENGTH + blanks) + (d + (CRLF + post));
             |head| <= MAX_SIZE && Find(head, CONTENT_LENGTH, 0) == Some(|pre|)
    ensures DeclaredLength((pre + CONTENT_LENGTH + blanks) + (d + (CRLF + post)))
            == if Decimal(d) <= ULLONG_MAX then Decimal(d) else 0
  {
    AnnouncedText(pre, blanks, d, post);
    StoullOfDigits(d);
  }

  /** Bytes received behind a complete head end up in the body, and nowhere else. */
  lemma CutOfLonger(data: string, more: string, m: HeaderMap)
    requires Find(data, BLANK_LINE, 0).Some? && |data + more| <= MAX_SIZE
    ensures Cut(data).Parts? && Cut(data + more).Parts?
    ensures var (c, c') := (Cut(data), Cut(data + more));
            && c'.startLine == c.startLine && c'.body == c.body + more
            && ParseHeaders(c'.headers, m) == ParseHeaders(c.headers, m)
  {
    HeadGeometry(data);
    FindStable(data, more, BLANK_LINE, 0);
    FindStable(data, more, CRLF, 0);
    var fc, he := Find(data, CRLF, 0).value, Find(data, BLANK_LINE, 0).value;
    LongerSlices(data, more, fc, he);
    CutAtPoints(data, fc, he);
    CutAtPoints(data + more, fc, he);
    NoHeadersReadBack(data[he + 4..], m);
    NoHeadersReadBack((data + more)[he + 4..], m);
  }

  lemma LongerSlices(data: string, more: string, fc: nat, he: nat)
    requires fc <= he && he + 4 <= |data|
    ensures (data + more)[..fc] == data[..fc] && (data + more)[he + 4..] == data[he + 4..] + more
    ensures fc + 2 <= he ==> (data + more)[fc + 2..he] == data[fc + 2..he]
  {
  }

  // ---------- Messages that announce their own body ----------

  const LENGTH_KEY := "Content-Length"

  /** A printed head: start line, header block and blank line. */
  function HeadText(startLine: string, h: HeaderMap): string {
    startLine + (CRLF + (PrintHeaders(h) + CRLF))
  }

  lemma HeadAndBody(startLine: string, h: HeaderMap, body: string)
    ensures MessageText(startLine, h, body) == HeadText(startLine, h) + body
  {
    HeadRegroups(startLine, PrintHeaders(h), body);
  }

  lemma HeadRegroups(startLine: string, block: string, body: string)
    ensures startLine + (CRLF + (block + (CRLF + body))) == startLine + (CRLF + (block + CRLF)) + body
  {
  }

  /** The printed head of clean headers ends with its first blank line. */
  lemma PrintedHead(startLine: string, h: HeaderMap)
    requires '\n' !in startLine && CleanHeaders(h)
    ensures IsHead(HeadText(startLine, h))
  {
    var ks := SortedKeys(h.Keys);
    if ks == [] {
      HeadOfLine(startLine);
    } else {
      Terminated(ks, h, CRLF);
      UnterminatedSeamless(ks, h);
      HeadOfBlock(startLine, Unterminated(ks, h));
    }
  }

  lemma HeadOfLine(startLine: string)
    requires '\n' !in startLine
    ensures IsHead(startLine + (CRLF + ("" + CRLF)))
  {
    assert startLine + (CRLF + ("" + CRLF)) == startLine + (BLANK_LINE + "");
    FirstBlankLine(startLine, "");
  }

  lemma HeadOfBlock(startLine: string, u: string)
    requires '\n' !in startLine && Seamless(u)
    ensures IsHead(startLine + (CRLF + (u + (CRLF + CRLF))))
  {
    JoinSeamless(startLine, u);
    assert startLine + (CRLF + (u + (CRLF + CRLF))) == (startLine + (CRLF + u)) + (BLANK_LINE + "");
    FirstBlankLine(startLine + (CRLF + u), "");
  }

  /** A printed message is one whole message if and only if its head announces the length of its body. */
  lemma PrintedIsWholeIff(startLine: string, h: HeaderMap, body: string)
    requires '\n' !in startLine && CleanHeaders(h)
    ensures IsWholeMessage(MessageText(startLine, h, body)) <==> |body| == DeclaredLength(HeadText(startLine, h))
  {
    var head := HeadText(startLine, h);
    HeadAndBody(startLine, h, body);
    PrintedHead(startLine, h);
    FindStable(head, body, BLANK_LINE, 0);
    assert (head + body)[..|head|] == head;
  }

  /**
   The headers announce `n`: in digits under Content-Length, with nothing like it in the lines printed
   before; or `n` is 0 and there is nothing like it in the whole head.
   */
  ghost predicate Announces(startLine: string, h: HeaderMap, n: nat) {
    && !Contains(startLine, CONTENT_LENGTH)
    && (forall k :: k in h && k != LENGTH_KEY && (LENGTH_KEY in h ==> LexLe(k, LENGTH_KEY))
                    ==> !Contains(HeaderField(k, h[k]), CONTENT_LENGTH))
    && if LENGTH_KEY in h then AllDigits(h[LENGTH_KEY]) && h[LENGTH_KEY] != "" && Decimal(h[LENGTH_KEY]) == n
       else n == 0
  }

  /** What stands in two lines stands in one of them. */
  lemma LinesApart(a: string, b: string)
    requires !Contains(a, CONTENT_LENGTH) && !Contains(b, CONTENT_LENGTH)
    ensures !Contains(a + ("\r\n" + b), CONTENT_LENGTH)
  {
    assert !Contains("", CONTENT_LENGTH);
    assert '\r' !in CONTENT_LENGTH && '\n' !in CONTENT_LENGTH;
    OccursBesideChar("", '\n', b, CONTENT_LENGTH);
    OccursBesideChar(a, '\r', "" + ['\n'] + b, CONTENT_LENGTH);
    assert a + ("\r\n" + b) == a + ['\r'] + ("" + ['\n'] + b);
  }

  lemma {:induction false} BlockWithout(ks: seq<string>, h: HeaderMap)
    requires forall k :: k in ks ==> k in h && !Contains(HeaderField(k, h[k]), CONTENT_LENGTH)
    ensures !Contains(HeaderText(ks, h), CONTENT_LENGTH)
    decreases |ks|
  {
    if ks == [] {
      assert !OccursAt("", CONTENT_LENGTH, 0);
    } else {
      BlockWithout(ks[1..], h);
      LinesApart(HeaderField(ks[0], h[ks[0]]), HeaderText(ks[1..], h));
    }
  }

  lemma {:induction false} BlockSplits(ks: seq<string>, h: HeaderMap, i: nat)
    requires i <= |ks| && forall k :: k in ks ==> k in h
    ensures HeaderText(ks, h) == HeaderText(ks[..i], h) + HeaderText(ks[i..], h)
    decreases i
  {
    if i == 0 {
      assert ks[0..] == ks && ks[..0] == [];
      assert "" + HeaderText(ks, h) == HeaderText(ks, h);
    } else {
      BlockSplits(ks[1..], h, i - 1);
      assert ks[..i][1..] == ks[1..][..i - 1] && ks[1..][i - 1..] == ks[i..] && ks[..i][0] == ks[0];
      FieldRegroups(HeaderField(ks[0], h[ks[0]]), HeaderText(ks[..i][1..], h), HeaderText(ks[i..], h));
    }
  }

  lemma FieldRegroups(f: string, a: string, b: string)
    ensures f + ("\r\n" + (a + b)) == (f + ("\r\n" + a)) + b
  {
  }

  /** Behind a line end, the first of something that no earlier line holds. */
  lemma FirstAtLine(before: string, w: string)
    requires before != "" && before[|before| - 1] == '\n' && !Contains(before, CONTENT_LENGTH)
    requires CONTENT_LENGTH <= w
    ensures Find(before + w, CONTENT_LENGTH, 0) == Some(|before|)
  {
    var s, n := before + w, |before|;
    assert s[n..n + 15] == w[..15] && s[0..n] == before && s[n - 1] == '\n';
    assert OccursAt(s, CONTENT_LENGTH, n);
    assert '\n' !in CONTENT_LENGTH;
    forall j | 0 <= j < n ensures !OccursAt(s, CONTENT_LENGTH, j) {
      OccursInPart(s, CONTENT_LENGTH, 0, n, j);
      var k: nat := n - 1 - j;
      if j + 15 > n && OccursAt(s, CONTENT_LENGTH, j) {
        OccursChar(s, CONTENT_LENGTH, j, k);
        assert false;
      }
    }
  }

  lemma HeadWithout(startLine: string, h: HeaderMap)
    requires Announces(startLine, h, 0) && LENGTH_KEY !in h
    ensures !Contains(HeadText(startLine, h), CONTENT_LENGTH)
  {
    BlockWithout(SortedKeys(h.Keys), h);
    NoneInHead(startLine, PrintHeaders(h));
  }

  lemma NoneInHead(startLine: string, block: string)
    requires !Contains(startLine, CONTENT_LENGTH) && !Contains(block, CONTENT_LENGTH)
    ensures !Contains(startLine + (CRLF + (block + CRLF)), CONTENT_LENGTH)
  {
    assert !Contains("", CONTENT_LENGTH);
    LinesApart(block, "");
    assert block + ("\r\n" + "") == block + CRLF;
    LinesApart(startLine, block + CRLF);
  }

  /** A head without anything like Content-Length declares no body. */
  lemma DeclaresNothing(head: string)
    requires !Contains(head, CONTENT_LENGTH)
    ensures DeclaredLength(head) == 0
  {
    assert Find(head, CONTENT_LENGTH, 0).None?;
  }

  lemma LengthField(before: string, v: string, after: string)
    ensures before + (HeaderField(LENGTH_KEY, v) + ("\r\n" + after)) + CRLF
            == (before + CONTENT_LENGTH + " ") + (v + (CRLF + (after + CRLF)))
    ensures CONTENT_LENGTH <= HeaderField(LENGTH_KEY, v) + ("\r\n" + after) + CRLF
  {
    assert HeaderField(LENGTH_KEY, v) == CONTENT_LENGTH + " " + v;
  }

  /** What is printed before and after the Content-Length of a block. */
  lemma AroundLength(h: HeaderMap) returns (first: seq<string>, rest: seq<string>)
    requires LENGTH_KEY in h
    ensures (forall k :: k in first ==> k in h && k != LENGTH_KEY && LexLe(k, LENGTH_KEY))
    ensures forall k :: k in rest ==> k in h
    ensures PrintHeaders(h) ==
            HeaderText(first, h) + (HeaderField(LENGTH_KEY, h[LENGTH_KEY]) + ("\r\n" + HeaderText(rest, h)))
  {
    var ks := SortedKeys(h.Keys);
    var i :| 0 <= i < |ks| && ks[i] == LENGTH_KEY;
    first, rest := ks[..i], ks[i..][1..];
    BlockSplits(ks, h, i);
    assert ks[i..][0] == LENGTH_KEY;
  }

  lemma LineBefore(startLine: string, first: seq<string>, h: HeaderMap, n: nat)
    requires Announces(startLine, h, n) && LENGTH_KEY in h
    requires forall k :: k in first ==> k in h && k != LENGTH_KEY && LexLe(k, LENGTH_KEY)
    ensures var before := startLine + ("\r\n" + HeaderText(first, h));
            before != "" && before[|before| - 1] == '\n' && !Contains(before, CONTENT_LENGTH)
  {
    BlockWithout(first, h);
    LinesApart(startLine, HeaderText(first, h));
    BlockEndsLine(startLine, first, h);
  }

  /** A head with digits under Content-Length declares their number. */
  lemma DeclaresDigits(startLine: string, h: HeaderMap, n: nat)
    requires Announces(startLine, h, n) && LENGTH_KEY in h && n <= ULLONG_MAX && |HeadText(startLine, h)| <= MAX_SIZE
    ensures DeclaredLength(HeadText(startLine, h)) == n
  {
    var first, rest := AroundLength(h);
    LineBefore(startLine, first, h, n);
    var v, a, after := h[LENGTH_KEY], HeaderText(first, h), HeaderText(rest, h);
    HeadParts(startLine, a, HeaderField(LENGTH_KEY, v) + ("\r\n" + after));
    DigitsBehind(startLine + ("\r\n" + a), v, after);
  }

  lemma DigitsBehind(before: string, v: string, after: string)
    requires before != "" && before[|before| - 1] == '\n' && !Contains(before, CONTENT_LENGTH)
    requires AllDigits(v) && v != "" && Decimal(v) <= ULLONG_MAX
    requires |before + (HeaderField(LENGTH_KEY, v) + ("\r\n" + after)) + CRLF| <= MAX_SIZE
    ensures DeclaredLength(before + (HeaderField(LENGTH_KEY, v) + ("\r\n" + after)) + CRLF) == Decimal(v)
  {
    var line := HeaderField(LENGTH_KEY, v) + ("\r\n" + after);
    assert before + line + CRLF == before + (line + CRLF);
    LengthField(before, v, after);
    FirstAtLine(before, line + CRLF);
    DeclaredDecimal(before, " ", v, after + CRLF);
  }

  lemma HeadParts(startLine: string, a: string, b: string)
    ensures startLine + (CRLF + ((a + b) + CRLF)) == (startLine + ("\r\n" + a)) + b + CRLF
  {
  }

  lemma {:induction false} BlockEndsLine(startLine: string, ks: seq<string>, h: HeaderMap)
    requires forall k :: k in ks ==> k in h
    ensures var s := startLine + ("\r\n" + HeaderText(ks, h)); s != "" && s[|s| - 1] == '\n'
    decreases |ks|
  {
    if ks != [] { BlockEndsLine(HeaderField(ks[0], h[ks[0]]), ks[1..], h); }
  }

  /** A printed message whose headers announce the length of its body is one whole message. */
  lemma AnnouncedIsWhole(startLine: string, h: HeaderMap, body: string)
    requires '\n' !in startLine && CleanHeaders(h) && |MessageText(startLine, h, body)| <= MAX_SIZE
    requires Announces(startLine, h, |body|)
    ensures IsWholeMessage(MessageText(startLine, h, body))
  {
    HeadAndBody(startLine, h, body);
    PrintedIsWholeIff(startLine, h, body);
    if LENGTH_KEY in h {
      DeclaresDigits(startLine, h, |body|);
    } else {
      HeadWithout(startLine, h);
      DeclaresNothing(HeadText(startLine, h));
    }
  }

  // ---------- The length that frames a message and the length its handler sees ----------

  /** The headers hold the length `n` under Content-Length. */
  predicate SeesLength(h: HeaderMap, n: nat) {
    LENGTH_KEY in h && Stoull(h[LENGTH_KEY]) == Some(n)
  }

  /** The last line of a head that names Content-Length carries the number that the first one announces. */
  predicate LengthsAgree(head: string) {
    match Cut(head)
    case Parts(_, block, _) =>
      (match LastValue(Lines(block), LENGTH_KEY) case None => false case Some(v) => Stoull(v) == Some(DeclaredLength(head)))
    case _ => false
  }

  /** In a whole message the handler sees the length of the body it gets if and only if the head's lengths agree. */
  lemma SeesBodyLengthIff(head: string, body: string)
    requires IsHead(head) && IsWholeMessage(head + body) && |head + body| <= MAX_SIZE
    ensures Cut(head + body).Parts?
    ensures var c := Cut(head + body);
            && c.body == body
            && (SeesLength(ParseHeaders(c.headers, map[]), |body|) <==> LengthsAgree(head))
  {
    HeadOfWhole(head, body);
    CutOfLonger(head, body, map[]);
    CutOfHead(head);
    LastLineWins(Cut(head).headers, map[], LENGTH_KEY);
  }

  lemma HeadOfWhole(head: string, body: string)
    requires IsHead(head) && IsWholeMessage(head + body)
    ensures |body| == DeclaredLength(head)
  {
    FindStable(head, body, BLANK_LINE, 0);
    assert (head + body)[..|head|] == head;
  }

  lemma CutOfHead(head: string)
    requires IsHead(head) && |head| <= MAX_SIZE
    ensures Cut(head).Parts? && Cut(head).body == ""
  {
    HeadGeometry(head);
  }

  /** A head with two Content-Length lines. */
  function TwoLengths(startLine: string, v: string, w: string): string {
    startLine + (CRLF + ((HeaderField(LENGTH_KEY, v) + (CRLF + HeaderField(LENGTH_KEY, w))) + (CRLF + CRLF)))
  }

  lemma TwoLengthsHead(startLine: string, v: string, w: string)
    requires '\n' !in startLine && '\n' !in v && '\n' !in w
    ensures IsHead(TwoLengths(startLine, v, w))
  {
    var f, g := HeaderField(LENGTH_KEY, v), HeaderField(LENGTH_KEY, w);
    LengthKeyIsClean();
    FieldSeamless(LENGTH_KEY, v);
    FieldSeamless(LENGTH_KEY, w);
    JoinSeamless(f, g);
    TwoLinesSeamless(f, g);
    HeadOfBlock(startLine, f + (CRLF + g));
  }

  lemma TwoLinesSeamless(f: string, g: string)
    requires '\n' !in f && |f| >= 2 && Gapped(f + (CRLF + g)) && g != "" && g[|g| - 1] != '\n'
    ensures Seamless(f + (CRLF + g))
  {
  }

  lemma LengthKeyIsClean()
    ensures CleanKey(LENGTH_KEY)
  {
    NoDelimiter(LENGTH_KEY);
  }

  /** Of two Content-Length lines the first frames the message and the second is what its handler sees. */
  lemma SecondLengthIsSeen(startLine: string, v: string, w: string, body: string)
    requires '\n' !in startLine && !Contains(startLine, CONTENT_LENGTH)
    requires AllDigits(v) && v != "" && Decimal(v) == |body| && AllDigits(w) && w != ""
    requires |TwoLengths(startLine, v, w) + body| <= MAX_SIZE
    ensures IsWholeMessage(TwoLengths(startLine, v, w) + body)
    ensures var c := Cut(TwoLengths(startLine, v, w) + body);
            c.Parts? && c.body == body && ParseHeaders(c.headers, map[]) == map[LENGTH_KEY := w]
  {
    var head, g := TwoLengths(startLine, v, w), HeaderField(LENGTH_KEY, w);
    var u := HeaderField(LENGTH_KEY, v) + (CRLF + g);
    TwoLengthsHead(startLine, v, w);
    TwoLengthsDeclare(startLine, v, g);
    WholeIfDeclared(head, body);
    TwoLengthsBlock(startLine, v, w, body);
    TwoLengthsParsed(v, w);
  }

  lemma WholeIfDeclared(head: string, body: string)
    requires IsHead(head) && |body| == DeclaredLength(head)
    ensures IsWholeMessage(head + body)
  {
    FindStable(head, body, BLANK_LINE, 0);
    assert (head + body)[..|head|] == head;
  }

  lemma TwoLengthsDeclare(startLine: string, v: string, g: string)
    requires !Contains(startLine, CONTENT_LENGTH) && AllDigits(v) && v != "" && Decimal(v) <= ULLONG_MAX
    requires |startLine + (CRLF + ((HeaderField(LENGTH_KEY, v) + (CRLF + g)) + (CRLF + CRLF)))| <= MAX_SIZE
    ensures DeclaredLength(startLine + (CRLF + ((HeaderField(LENGTH_KEY, v) + (CRLF + g)) + (CRLF + CRLF)))) == Decimal(v)
  {
    var before := startLine + ("\r\n" + "");
    assert !Contains("", CONTENT_LENGTH);
    LinesApart(startLine, "");
    TwoLengthsRegroup(startLine, HeaderField(LENGTH_KEY, v), g);
    DigitsBehind(before, v, g + CRLF);
  }

  lemma TwoLengthsRegroup(startLine: string, f: string, g: string)
    ensures startLine + (CRLF + ((f + (CRLF + g)) + (CRLF + CRLF)))
            == (startLine + ("\r\n" + "")) + (f + ("\r\n" + (g + CRLF))) + CRLF
    ensures var s := startLine + ("\r\n" + ""); s != "" && s[|s| - 1] == '\n'
  {
  }

  lemma TwoLengthsBlock(startLine: string, v: string, w: string, body: string)
    requires '\n' !in startLine && '\n' !in v && '\n' !in w && |TwoLengths(startLine, v, w) + body| <= MAX_SIZE
    ensures Cut(TwoLengths(startLine, v, w) + body)
            == Parts(startLine, HeaderField(LENGTH_KEY, v) + (CRLF + HeaderField(LENGTH_KEY, w)), body)
  {
    var f, g := HeaderField(LENGTH_KEY, v), HeaderField(LENGTH_KEY, w);
    LengthKeyIsClean();
    FieldSeamless(LENGTH_KEY, v);
    FieldSeamless(LENGTH_KEY, w);
    JoinSeamless(f, g);
    TwoLinesSeamless(f, g);
    BodyRegroups(startLine, f + (CRLF + g), body);
    CutWithHeaders(startLine, f + (CRLF + g), body);
  }

  lemma BodyRegroups(startLine: string, u: string, body: string)
    ensures startLine + (CRLF + (u + (CRLF + CRLF))) + body == startLine + (CRLF + (u + (CRLF + (CRLF + body))))
    ensures |startLine + (CRLF + (u + (CRLF + CRLF))) + body| == |startLine| + |u| + 6 + |body|
  {
  }

  lemma TwoLengthsParsed(v: string, w: string)
    requires '\n' !in v && '\n' !in w && ChopReturn(w) == w
    ensures ParseHeaders(HeaderField(LENGTH_KEY, v) + (CRLF + HeaderField(LENGTH_KEY, w)), map[]) == map[LENGTH_KEY := w]
  {
    LengthKeyIsClean();
    SameKeyTwice(LENGTH_KEY, v, w);
  }

  /** Of two lines with the same key the last one stays. */
  lemma SameKeyTwice(k: string, v: string, w: string)
    requires CleanKey(k) && '\n' !in v && '\n' !in w && ChopReturn(w) == w
    ensures ParseHeaders(HeaderField(k, v) + (CRLF + HeaderField(k, w)), map[]) == map[k := w]
  {
    var last := HeaderField(k, w);
    ReadLine(k, v, last, map[]);
    LastOverwrites(k, v, w, last);
  }

  lemma LastOverwrites(k: string, v: string, w: string, last: string)
    requires CleanKey(k) && '\n' !in w && ChopReturn(w) == w && last == HeaderField(k, w)
    ensures ParseHeaders(last, map[][k := v]) == map[k := w]
  {
    ReadLastLine(k, w, map[][k := v]);
    assert map[][k := v][k := w] == map[k := w];
  }

  /** A whole message with one body byte whose handler sees the length 2. */
  lemma OneByteSeenAsTwo() returns (data: string, headers: HeaderMap)
    ensures IsWholeMessage(data) && Cut(data).Parts? && Cut(data).body == "X"
    ensures headers == ParseHeaders(Cut(data).headers, map[]) && headers == map[LENGTH_KEY := Digits(2)]
    ensures !SeesLength(headers, |Cut(data).body|)
  {
    var startLine, body := "S", "X";
    DecimalOfDigits(1);
    DecimalOfDigits(2);
    StoullOfDigits(Digits(2));
    assert !Contains(startLine, CONTENT_LENGTH);
    SecondLengthIsSeen(startLine, Digits(1), Digits(2), body);
    data := TwoLengths(startLine, Digits(1), Digits(2)) + body;
    headers := ParseHeaders(Cut(data).headers, map[]);
  }
}
