/**
 The header block: what parsing and printing it compute, the object that does it
 in place, and when the two are inverse.
 */
module HttpHeaders {
  import opened Text

  type HeaderMap = map<string, string>

  const DELIMITER := ": "

  // ---------- Parsing ----------

  /** Remove one trailing '\r', if present. */
  function ChopReturn(v: string): string {
    if v != "" && v[|v| - 1] == '\r' then v[..|v| - 1] else v
  }

  /** One line of the block; a line without ": " is skipped. */
  function AddHeader(m: HeaderMap, line: string): HeaderMap {
    match Find(line, DELIMITER, 0)
    case None => m
    case Some(i) => m[line[..i] := ChopReturn(line[i + 2..])]
  }

  /** The getline loop: stops at the end of the text or at a line that is just '\r'. */
  function ParseHeaders(s: string, m: HeaderMap): HeaderMap
    decreases |s|
  {
    if s == "" || Before(s, '\n') == "\r" then m
    else ParseHeaders(After(s, '\n'), AddHeader(m, Before(s, '\n')))
  }

  // ---------- Printing ----------

  function HeaderField(k: string, v: string): string { k + (DELIMITER + v) }

  function HeaderText(ks: seq<string>, h: HeaderMap): string
    requires forall k :: k in ks ==> k in h
  {
    if ks == [] then "" else HeaderField(ks[0], h[ks[0]]) + ("\r\n" + HeaderText(ks[1..], h))
  }

  function PrintHeaders(h: HeaderMap): string { HeaderText(SortedKeys(h.Keys), h) }

  // ---------- The object ----------

  class Headers {
    var headers: HeaderMap

    constructor ()
      ensures headers == map[]
    {
      headers := map[];
    }

    method Set(key: string, value: string)
      modifies this
      ensures headers == old(headers)[key := value]
    {
      headers := headers[key := value];
    }

    method ParseFromRaw(rawHeaders: string)
      modifies this
      ensures headers == ParseHeaders(rawHeaders, old(headers))
    {
      var stream := rawHeaders;
      while stream != "" && Before(stream, '\n') != "\r"
        invariant ParseHeaders(stream, headers) == ParseHeaders(rawHeaders, old(headers))
        decreases |stream|
      {
        ParseLine(Before(stream, '\n'));
        stream := After(stream, '\n');
      }
    }

    method ParseLine(line: string)
      modifies this
      ensures headers == AddHeader(old(headers), line)
    {
      var delimiterPos := Find(line, DELIMITER, 0);
      if delimiterPos.Some? {
        var key := line[..delimiterPos.value];
        var value := line[delimiterPos.value + 2..];
        if value != "" && value[|value| - 1] == '\r' {
          value := value[..|value| - 1];
        }
        headers := headers[key := value];
      }
    }

    method ToRawString() returns (rawHeaders: string)
      ensures rawHeaders == PrintHeaders(headers)
    {
      var keys := SortedKeys(headers.Keys);
      NothingPrinted(keys, headers);
      rawHeaders := "";
      for i := 0 to |keys|
        invariant Printing(keys, headers, i, rawHeaders)
      {
        LinePrinted(keys, headers, i, rawHeaders);
        rawHeaders := rawHeaders + (HeaderField(keys[i], headers[keys[i]]) + "\r\n");
      }
      AllPrinted(keys, headers, rawHeaders);
    }
  }

  /** `done` is the text of the first `i` headers. */
  ghost predicate Printing(ks: seq<string>, h: HeaderMap, i: nat, done: string) {
    && i <= |ks| && (forall k :: k in ks ==> k in h)
    && done + HeaderText(ks[i..], h) == HeaderText(ks, h)
  }

  lemma NothingPrinted(ks: seq<string>, h: HeaderMap)
    requires forall k :: k in ks ==> k in h
    ensures Printing(ks, h, 0, "")
  {
    assert ks[0..] == ks;
  }

  lemma LinePrinted(ks: seq<string>, h: HeaderMap, i: nat, done: string)
    requires Printing(ks, h, i, done) && i < |ks|
    ensures Printing(ks, h, i + 1, done + (HeaderField(ks[i], h[ks[i]]) + "\r\n"))
  {
    assert ks[i..][1..] == ks[i + 1..];
    AppendLine(done, HeaderField(ks[i], h[ks[i]]), HeaderText(ks[i + 1..], h));
  }

  lemma AllPrinted(ks: seq<string>, h: HeaderMap, done: string)
    requires Printing(ks, h, |ks|, done)
    ensures done == HeaderText(ks, h)
  {
    assert done + "" == done;
  }

  lemma AppendLine(acc: string, field: string, tail: string)
    ensures acc + (field + ("\r\n" + tail)) == acc + (field + "\r\n") + tail
  {
  }

  // ---------- Reading back what was printed ----------

  /** Keys and values that a header line can carry. */
  ghost predicate CleanHeaders(h: HeaderMap) {
    forall k :: k in h ==> CleanKey(k) && '\n' !in h[k]
  }

  ghost predicate CleanKey(k: string) {
    '\n' !in k && !Contains(k, DELIMITER)
  }

  /** The first delimiter of a printed field is the one the printer put. */
  lemma DelimiterPosition(k: string, v: string)
    requires !Contains(k, DELIMITER)
    ensures Find(HeaderField(k, v), DELIMITER, 0) == Some(|k|)
    ensures HeaderField(k, v)[..|k|] == k && HeaderField(k, v)[|k| + 2..] == v
  {
    var s, n := HeaderField(k, v), |k|;
    assert s[0..n] == k && s[n..n + 2] == DELIMITER && s[n] == ':';
    assert OccursAt(s, DELIMITER, n);
    forall i | 0 <= i < n ensures !OccursAt(s, DELIMITER, i) {
      OccursInPart(s, DELIMITER, 0, n, i);
      if i + 2 > n && OccursAt(s, DELIMITER, i) {
        OccursChar(s, DELIMITER, i, 1);
        assert false;
      }
    }
  }

  lemma FieldIsNotBlank(k: string, v: string)
    ensures HeaderField(k, v) != "\r" && HeaderField(k, v) != "" && HeaderField(k, v + "\r") != "\r"
    ensures HeaderField(k, v) + "\r" == HeaderField(k, v + "\r")
  {
    assert |HeaderField(k, v)| >= 2;
  }

  /** A line other than "\r" is read, and the loop goes on behind it. */
  lemma LineRead(line: string, rest: string, m: HeaderMap)
    requires '\n' !in line && line != "\r"
    ensures ParseHeaders(line + ['\n'] + rest, m) == ParseHeaders(rest, AddHeader(m, line))
  {
    CutAt(line, '\n', rest);
    assert |line + ['\n'] + rest| > 0;
  }

  /** Reading a printed line stores its value whole. */
  lemma ReadLine(k: string, v: string, rest: string, m: HeaderMap)
    requires CleanKey(k) && '\n' !in v
    ensures ParseHeaders(HeaderField(k, v) + ("\r\n" + rest), m) == ParseHeaders(rest, m[k := v])
  {
    var line := HeaderField(k, v + "\r");
    FieldIsNotBlank(k, v);
    DelimiterPosition(k, v + "\r");
    assert (v + "\r")[..|v|] == v;
    assert HeaderField(k, v) + ("\r\n" + rest) == line + ['\n'] + rest;
    LineRead(line, rest, m);
    assert AddHeader(m, line) == m[k := v];
  }

  lemma ReadFirst(ks: seq<string>, h: HeaderMap, m: HeaderMap)
    requires ks != [] && CleanHeaders(h) && forall k :: k in ks ==> k in h
    ensures ParseHeaders(HeaderText(ks, h), m) == ParseHeaders(HeaderText(ks[1..], h), m[ks[0] := h[ks[0]]])
  {
    ReadLine(ks[0], h[ks[0]], HeaderText(ks[1..], h), m);
  }

  function Picked(ks: seq<string>, h: HeaderMap): HeaderMap
    requires forall k :: k in ks ==> k in h
  {
    map k | k in ks :: h[k]
  }

  lemma PickOne(ks: seq<string>, h: HeaderMap, m: HeaderMap)
    requires ks != [] && forall k :: k in ks ==> k in h
    ensures m[ks[0] := h[ks[0]]] + Picked(ks[1..], h) == m + Picked(ks, h)
  {
    assert ks == [ks[0]] + ks[1..];
  }

  lemma {:induction false} ParseHeaderText(ks: seq<string>, h: HeaderMap, m: HeaderMap)
    requires CleanHeaders(h) && forall k :: k in ks ==> k in h
    ensures ParseHeaders(HeaderText(ks, h), m) == m + Picked(ks, h)
    decreases |ks|
  {
    if ks == [] {
      assert m + Picked(ks, h) == m;
    } else {
      ReadFirst(ks, h, m);
      ParseHeaderText(ks[1..], h, m[ks[0] := h[ks[0]]]);
      PickOne(ks, h, m);
    }
  }

  /** Parsing never stores a key or a value that a header line could not carry. */
  lemma {:induction false} ParsedIsClean(s: string, m: HeaderMap)
    requires CleanHeaders(m)
    ensures CleanHeaders(ParseHeaders(s, m))
    decreases |s|
  {
    if s != "" && Before(s, '\n') != "\r" {
      var line := Before(s, '\n');
      match Find(line, DELIMITER, 0) {
        case None =>
        case Some(i) =>
          if Contains(line[..i], DELIMITER) {
            var j :| OccursAt(line[..i], DELIMITER, j);
            assert line[0..i] == line[..i];
            OccursInPart(line, DELIMITER, 0, i, j);
            assert false;
          }
      }
      ParsedIsClean(After(s, '\n'), AddHeader(m, line));
    }
  }

  lemma PickAll(ks: seq<string>, h: HeaderMap)
    requires forall k :: k in ks <==> k in h
    ensures Picked(ks, h) == h
  {
  }

  /** Parsing a printed block over existing headers overrides them by the printed ones. */
  lemma ReadBackOverrides(h: HeaderMap, m: HeaderMap)
    requires CleanHeaders(h)
    ensures ParseHeaders(PrintHeaders(h), m) == m + h
  {
    ParseHeaderText(SortedKeys(h.Keys), h, m);
    PickAll(SortedKeys(h.Keys), h);
  }

  /** A printed block gives its headers back if and only if they are clean. */
  lemma ReadBackIffClean(h: HeaderMap)
    ensures ParseHeaders(PrintHeaders(h), map[]) == h <==> CleanHeaders(h)
  {
    ParsedIsClean(PrintHeaders(h), map[]);
    if CleanHeaders(h) {
      ReadBackOverrides(h, map[]);
      EmptyPlus(h);
    }
  }

  lemma EmptyPlus(h: HeaderMap)
    ensures map[] + h == h
  {
  }

  lemma OneHeader(k: string, v: string)
    ensures PrintHeaders(map[k := v]) == HeaderField(k, v) + "\r\n"
  {
    var h := map[k := v];
    assert h.Keys == {k};
    var ks := SortedKeys(h.Keys);
    assert |ks| == 1 && ks[0] in ks;
    assert ks == [k];
    assert HeaderText([k], h) == HeaderField(k, v) + ("\r\n" + HeaderText([k][1..], h));
    assert [k][1..] == [];
    assert HeaderField(k, v) + ("\r\n" + "") == HeaderField(k, v) + "\r\n";
  }

  lemma NoDelimiter(s: string)
    requires ':' !in s
    ensures !Contains(s, DELIMITER) && Find(s, DELIMITER, 0) == None
  {
    if i :| OccursAt(s, DELIMITER, i) {
      OccursChar(s, DELIMITER, i, 0);
      assert false;
    }
  }

  lemma OneCleanHeader(k: string, v: string)
    requires ':' !in k && '\n' !in k && '\n' !in v
    ensures ParseHeaders(HeaderField(k, v) + "\r\n", map[]) == map[k := v]
  {
    OneHeader(k, v);
    NoDelimiter(k);
    ReadBackIffClean(map[k := v]);
  }

  /** A key that holds the delimiter is read back cut at it. */
  lemma DelimiterInKey()
    ensures ParseHeaders(PrintHeaders(map["a: b" := "c"]), map[]) == map["a" := "b: c"]
  {
    OneHeader("a: b", "c");
    assert HeaderField("a: b", "c") == HeaderField("a", "b: c");
    OneCleanHeader("a", "b: c");
  }

  /** A line feed ends a value, and what follows is a line of its own, skipped when it has no delimiter. */
  lemma FeedEndsValue(k: string, v: string, more: string)
    requires CleanKey(k) && '\n' !in v && ChopReturn(v) == v && ':' !in more && '\n' !in more && more != ""
    ensures ParseHeaders(HeaderField(k, v) + ['\n'] + ((more + "\r") + ['\n'] + ""), map[]) == map[k := v]
  {
    DelimiterPosition(k, v);
    LineRead(HeaderField(k, v), (more + "\r") + ['\n'] + "", map[]);
    NoDelimiter(more + "\r");
    LineRead(more + "\r", "", map[k := v]);
  }

  /** A line feed in a value loses what follows it. */
  lemma LineFeedInValue()
    ensures ParseHeaders(PrintHeaders(map["a" := "b\nc"]), map[]) == map["a" := "b"]
  {
    OneHeader("a", "b\nc");
    assert HeaderField("a", "b\nc") + "\r\n" == HeaderField("a", "b") + ['\n'] + (("c" + "\r") + ['\n'] + "");
    NoDelimiter("a");
    FeedEndsValue("a", "b", "c");
  }

  // ---------- Which line decides a header ----------

  /** The lines that the loop reads. */
  function Lines(s: string): seq<string>
    decreases |s|
  {
    if s == "" || Before(s, '\n') == "\r" then [] else [Before(s, '\n')] + Lines(After(s, '\n'))
  }

  /** The value that a line gives a key, if it names that key. */
  function ValueIn(line: string, k: string): Option<string> {
    match Find(line, DELIMITER, 0)
    case None => None
    case Some(i) => if line[..i] == k then Some(ChopReturn(line[i + 2..])) else None
  }

  /** The value in the last of the lines that name the key. */
  function LastValue(lines: seq<string>, k: string): Option<string> {
    if lines == [] then None
    else if ValueIn(lines[|lines| - 1], k).Some? then ValueIn(lines[|lines| - 1], k)
    else LastValue(lines[..|lines| - 1], k)
  }

  lemma {:induction false} LastValueBehind(line: string, lines: seq<string>, k: string)
    ensures LastValue([line] + lines, k) == if LastValue(lines, k).Some? then LastValue(lines, k) else ValueIn(line, k)
    decreases |lines|
  {
    var all, n := [line] + lines, |lines|;
    if lines == [] {
      assert all == [line] && all[..0] == [];
    } else {
      assert all[n] == lines[n - 1] && all[..n] == [line] + lines[..n - 1];
      LastValueBehind(line, lines[..n - 1], k);
    }
  }

  /** What a header map holds for a key. */
  function Held(m: HeaderMap, k: string): Option<string> { if k in m then Some(m[k]) else None }

  lemma AddHeld(m: HeaderMap, line: string, k: string)
    ensures Held(AddHeader(m, line), k) == if ValueIn(line, k).Some? then ValueIn(line, k) else Held(m, k)
  {
  }

  /** The last line that names a key decides its value. */
  lemma {:induction false} LastLineWins(s: string, m: HeaderMap, k: string)
    ensures Held(ParseHeaders(s, m), k) == if LastValue(Lines(s), k).Some? then LastValue(Lines(s), k) else Held(m, k)
    decreases |s|
  {
    if s != "" && Before(s, '\n') != "\r" {
      var line, rest := Before(s, '\n'), After(s, '\n');
      AddHeld(m, line, k);
      LastLineWins(rest, AddHeader(m, line), k);
      LastValueBehind(line, Lines(rest), k);
    }
  }
}
