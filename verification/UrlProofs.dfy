/**
 The printer and the parser of URLs are inverse exactly on the canonical URLs,
 and which parse results fall outside that set.
 */
module UrlProofs {
  import opened Text
  import opened UrlSpec

  // ---------- Canonical URLs ----------

  predicate CleanQuery(q: map<string, string>) {
    forall k :: k in q ==> '=' !in k && '&' !in k && '#' !in k && '&' !in q[k] && '#' !in q[k]
  }

  /** The entry that prints as nothing at all. */
  predicate HasBlankParameter(q: map<string, string>) {
    "" in q && q[""] == ""
  }

  /** The authority is printed in a form that names the same domain and port again. */
  predicate AuthorityKept(scheme: string, domain: string, port: Port) {
    if domain == "" then port == 0
    else
      && port != 0
      && '@' !in domain
      && if domain[0] == '[' then domain[|domain| - 1] == ']' && ']' !in domain[..|domain| - 1]
         else ':' in domain ==> !PortIsImplicit(scheme, port)
  }

  /** What every parse result satisfies. */
  ghost predicate WellShaped(u: UrlValue) {
    && u.path != "" && u.path[0] == '/' && '?' !in u.path && '#' !in u.path
    && '/' !in u.domain && '?' !in u.domain && '#' !in u.domain
    && CleanQuery(u.query)
    && Lower(u.scheme) == u.scheme && !Contains(u.scheme, SEPARATOR)
  }

  /** All the pieces of a map of parameters are free of the separator. */
  ghost predicate PiecesFree(q: map<string, string>) {
    forall k :: k in q ==> !Contains(k, SEPARATOR) && !Contains(q[k], SEPARATOR)
  }

  /** No field of a path-only URL holds the separator. */
  ghost predicate FieldsFree(u: UrlValue) {
    !Contains(u.path, SEPARATOR) && PiecesFree(u.query) && !Contains(u.anchor, SEPARATOR)
  }

  ghost predicate Canonical(u: UrlValue) {
    && WellShaped(u)
    && !HasBlankParameter(u.query)
    && AuthorityKept(u.scheme, u.domain, u.port)
    && (u.scheme == "" ==> u.domain == "" && FieldsFree(u))
  }

  // ---------- The query string ----------

  function WithoutBlank(q: map<string, string>, ks: set<string>): map<string, string>
    requires ks <= q.Keys
  {
    map k | k in ks && !(k == "" && q[k] == "") :: q[k]
  }

  /** Reading one printed parameter stores it, unless it is the blank one. */
  lemma AddPrinted(m: map<string, string>, k: string, v: string)
    requires '=' !in k
    ensures AddParameter(m, ParameterText(k, v)) == if k == "" && v == "" then m else m[k := v]
  {
    if v != "" { CutAt(k, '=', v); }
  }

  /** Reading the first printed parameter stores it and leaves the others to be read. */
  lemma ParseFirst(ks: seq<string>, q: map<string, string>, m: map<string, string>) returns (m': map<string, string>)
    requires ks != [] && CleanQuery(q) && forall k :: k in ks ==> k in q
    ensures m' == if ks[0] == "" && q[ks[0]] == "" then m else m[ks[0] := q[ks[0]]]
    ensures ParseQuery(QueryText(ks, q), m) == ParseQuery(QueryText(ks[1..], q), m')
  {
    var k, v := ks[0], q[ks[0]];
    m' := if k == "" && v == "" then m else m[k := v];
    AddPrinted(m, k, v);
    QueryTextStep(ks, q);
    ParseOneParameter(ParameterText(k, v), if ks[1..] == [] then "" else "&" + QueryText(ks[1..], q), m, m');
  }

  lemma QueryTextStep(ks: seq<string>, q: map<string, string>)
    requires ks != [] && forall k :: k in ks ==> k in q
    ensures var tail := if ks[1..] == [] then "" else "&" + QueryText(ks[1..], q);
            && QueryText(ks, q) == ParameterText(ks[0], q[ks[0]]) + tail
            && (if tail == "" then "" else tail[1..]) == QueryText(ks[1..], q)
  {
    var p, t := ParameterText(ks[0], q[ks[0]]), QueryText(ks[1..], q);
    if ks[1..] == [] {
      assert p + "" == p;
    } else {
      JoinTail(p, t);
    }
  }

  lemma JoinTail(p: string, t: string)
    ensures p + "&" + t == p + ("&" + t)
    ensures ("&" + t)[1..] == t && "&" + t != ""
  {
  }

  lemma {:induction false} ParseQueryOfText(ks: seq<string>, q: map<string, string>, m: map<string, string>)
    requires CleanQuery(q) && forall k :: k in ks ==> k in q
    ensures ParseQuery(QueryText(ks, q), m) == m + WithoutBlank(q, set k | k in ks)
    decreases |ks|
  {
    if ks == [] {
      assert m + WithoutBlank(q, set k | k in ks) == m;
    } else {
      var m' := ParseFirst(ks, q, m);
      ParseQueryOfText(ks[1..], q, m');
      StoreOne(q, ks[0], ks[1..], m);
      assert ks == [ks[0]] + ks[1..];
    }
  }

  lemma ParseOneParameter(p: string, rest: string, m: map<string, string>, m': map<string, string>)
    requires '&' !in p && (rest == "" || rest[0] == '&') && m' == AddParameter(m, p)
    requires p == "" ==> m == m'
    ensures ParseQuery(p + rest, m) == ParseQuery(if rest == "" then "" else rest[1..], m')
  {
    CutSection(p, '&', rest);
  }

  lemma StoreOne(q: map<string, string>, k: string, rest: seq<string>, m: map<string, string>)
    requires k in q && forall x :: x in rest ==> x in q
    ensures (if k == "" && q[k] == "" then m else m[k := q[k]]) + WithoutBlank(q, set x | x in rest)
            == m + WithoutBlank(q, set x | x in [k] + rest)
  {
  }

  lemma {:induction false} QueryTextAvoids(ks: seq<string>, q: map<string, string>)
    requires CleanQuery(q) && forall k :: k in ks ==> k in q
    ensures '#' !in QueryText(ks, q)
    decreases |ks|
  {
    if |ks| > 1 { QueryTextAvoids(ks[1..], q); }
  }

  /** The parsed parameters never hold a character that delimits them. */
  lemma {:induction false} ParseQueryClean(s: string, m: map<string, string>)
    requires '#' !in s && CleanQuery(m)
    ensures CleanQuery(ParseQuery(s, m))
    decreases |s|
  {
    if s != "" {
      var p := Before(s, '&');
      assert '#' !in After(s, '&') && '#' !in p;
      assert '=' in p ==> p == Before(p, '=') + ['='] + After(p, '=');
      assert CleanQuery(AddParameter(m, p));
      ParseQueryClean(After(s, '&'), AddParameter(m, p));
    }
  }

  // ---------- Scheme ----------

  lemma LowerKeepsSeparators(s: string, i: int)
    ensures OccursAt(Lower(s), SEPARATOR, i) <==> OccursAt(s, SEPARATOR, i)
  {
    if 0 <= i && i + 3 <= |s| {
      var t := Lower(s);
      assert t[i..i + 3] == [t[i], t[i + 1], t[i + 2]];
      assert s[i..i + 3] == [s[i], s[i + 1], s[i + 2]];
      assert forall j :: 0 <= j < |s| ==> (t[j] == ':' <==> s[j] == ':') && (t[j] == '/' <==> s[j] == '/');
    }
  }

  lemma SchemeShape(raw: string)
    ensures Lower(SchemeOf(raw)) == SchemeOf(raw) && !Contains(SchemeOf(raw), SEPARATOR)
  {
    var s := SchemeOf(raw);
    match Find(raw, SEPARATOR, 0)
    case None =>
      assert ':' !in s;
      if Contains(s, SEPARATOR) {
        var i :| OccursAt(s, SEPARATOR, i);
        OccursChar(s, SEPARATOR, i, 0);
        assert false;
      }
    case Some(n) =>
      LowerIdempotent(raw[..n]);
      assert raw[0..n] == raw[..n];
      if Contains(s, SEPARATOR) {
        var i :| OccursAt(s, SEPARATOR, i);
        LowerKeepsSeparators(raw[..n], i);
        OccursInPart(raw, SEPARATOR, 0, n, i);
        assert false;
      }
  }

  lemma NoEarlierSeparator(scheme: string, rest: string, i: nat)
    requires !Contains(scheme, SEPARATOR) && i < |scheme|
    ensures !OccursAt(scheme + SEPARATOR + rest, SEPARATOR, i)
  {
    var raw, n := scheme + SEPARATOR + rest, |scheme|;
    assert raw[0..n] == scheme && raw[n] == ':';
    OccursInPart(raw, SEPARATOR, 0, n, i);
    if i + 3 > n && OccursAt(raw, SEPARATOR, i) {
      OccursChar(raw, SEPARATOR, i, n - i);
      assert false;
    }
  }

  /** A separator put after a text without one is the first separator. */
  lemma SchemeOfPrinted(scheme: string, rest: string)
    requires scheme != "" && Lower(scheme) == scheme && !Contains(scheme, SEPARATOR)
    ensures var raw := scheme + SEPARATOR + rest;
            SchemeOf(raw) == scheme && raw[SchemeEnd(raw)..] == rest
  {
    var raw := scheme + SEPARATOR + rest;
    var n := |scheme|;
    assert raw[n..n + 3] == SEPARATOR;
    assert OccursAt(raw, SEPARATOR, n);
    forall i | 0 <= i < n ensures !OccursAt(raw, SEPARATOR, i) {
      NoEarlierSeparator(scheme, rest, i);
    }
    assert Find(raw, SEPARATOR, 0) == Some(n);
    assert raw[..n] == scheme;
  }

  // ---------- Authority ----------

  lemma PortReadBack(p: Port)
    ensures ParsePortNumber(Digits(p)) == Ok(p)
  {
    DecimalOfDigits(p);
  }

  /** The printed authority is the domain, or the domain with its port. */
  lemma AuthorityForms(scheme: string, domain: string, port: Port)
    requires domain != ""
    ensures var a := AuthorityText(scheme, domain, port);
            if port != 0 && !PortIsImplicit(scheme, port)
            then a == domain + [':'] + Digits(port)
            else a == domain
  {
  }

  /** The last ':' of a text whose tail after a ':' is digits. */
  lemma LastColon(domain: string, d: string)
    requires AllDigits(d)
    ensures RFindChar(domain + [':'] + d, ':') == Some(|domain|)
  {
    AroundColon(domain, d);
  }

  /** The parts of a domain followed by its port. */
  lemma AroundColon(domain: string, d: string)
    requires AllDigits(d)
    ensures var a, n := domain + [':'] + d, |domain|;
            && a[..n] == domain && a[n] == ':' && a[n + 1..] == d
            && forall i :: n < i < |a| ==> IsDigit(a[i])
  {
    var a, n := domain + [':'] + d, |domain|;
    assert forall i :: n < i < |a| ==> a[i] == d[i - n - 1] && IsDigit(d[i - n - 1]);
  }

  /** A host without brackets and with a printed port: the last ':' starts the port. */
  lemma HostWithPort(scheme: string, domain: string, port: Port)
    requires domain != "" && domain[0] != '['
    ensures Authority(scheme, domain + [':'] + Digits(port)) == Ok((domain, port))
  {
    PortReadBack(port);
    AroundColon(domain, Digits(port));
    LastColon(domain, Digits(port));
    assert (domain + [':'] + Digits(port))[0] == domain[0];
  }

  /** A bracketed host with a printed port: the first ']' must be the domain's last character. */
  lemma LiteralWithPort(scheme: string, domain: string, port: Port)
    requires domain != "" && domain[0] == '['
    ensures Authority(scheme, domain + [':'] + Digits(port)) == Ok((domain, port))
            <==> domain[|domain| - 1] == ']' && ']' !in domain[..|domain| - 1]
  {
    var a := domain + [':'] + Digits(port);
    PortReadBack(port);
    AroundColon(domain, Digits(port));
    assert a[0] == '[';
    FirstBracket(a, domain);
  }

  /** Where the first ']' of a text that continues a domain stands. */
  lemma FirstBracket(a: string, domain: string)
    requires domain != "" && |domain| <= |a| && a[..|domain|] == domain
    requires forall i :: |domain| <= i < |a| ==> a[i] != ']'
    ensures FindChar(a, ']', 0) == Some(|domain| - 1)
            <==> domain[|domain| - 1] == ']' && ']' !in domain[..|domain| - 1]
    ensures FindChar(a, ']', 0).Some? ==>
              FindChar(a, ']', 0).value < |domain|
              && (a[..FindChar(a, ']', 0).value + 1] == domain ==> FindChar(a, ']', 0).value == |domain| - 1)
  {
    var n := |domain|;
    assert forall i :: 0 <= i < n ==> a[i] == domain[i];
    match FindChar(a, ']', 0)
    case None => assert a[n - 1] != ']';
    case Some(e) =>
      assert e < n;
      if e < n - 1 {
        assert domain[..n - 1][e] == ']';
      } else {
        assert forall i :: 0 <= i < n - 1 ==> domain[..n - 1][i] == a[i];
      }
  }

  /** A host printed without its port gets the scheme's port back. */
  lemma HostAlone(scheme: string, domain: string, port: Port)
    requires domain != ""
    ensures Authority(scheme, domain) == Ok((domain, port)) <==>
            && port == ImpliedPort(scheme)
            && if domain[0] == '[' then domain[|domain| - 1] == ']' && ']' !in domain[..|domain| - 1]
               else ':' !in domain
  {
    if domain[0] == '[' {
      assert domain[..|domain|] == domain;
      FirstBracket(domain, domain);
    }
  }

  /** Without userinfo the printed authority names its own domain and port exactly when kept. */
  lemma PlainAuthority(scheme: string, domain: string, port: Port)
    requires domain != "" && '@' !in domain
    ensures Authority(scheme, AuthorityText(scheme, domain, port)) == Ok((domain, port))
            <==> AuthorityKept(scheme, domain, port)
  {
    AuthorityForms(scheme, domain, port);
    if port != 0 && !PortIsImplicit(scheme, port) {
      if domain[0] == '[' { LiteralWithPort(scheme, domain, port); } else { HostWithPort(scheme, domain, port); }
    } else {
      HostAlone(scheme, domain, port);
    }
  }

  /** Userinfo is cut off, so a text whose last '@' stands at `last` has none there any more. */
  lemma UserinfoShifts(a: string, last: nat)
    requires last < |a| && a[last] == '@' && forall i :: last < i < |a| ==> a[i] != '@'
    ensures var h := StripUserinfo(a); |h| < |a| && (last < |h| ==> h[last] != '@')
  {
    var h, b := StripUserinfo(a), Before(a, '@');
    assert a == b + ['@'] + h;
    assert last < |h| ==> h[last] == a[|b| + 1 + last];
  }

  /** A parsed domain begins the text it was parsed from. */
  lemma DomainIsPrefix(scheme: string, h: string)
    ensures match Authority(scheme, h) case Ok((d, _)) => d <= h case Err(_) => true
  {
  }

  /** A domain with an '@' is read back shorter: everything up to the '@' is userinfo. */
  lemma UserinfoLost(scheme: string, domain: string, port: Port)
    requires '@' in domain
    ensures Authority(scheme, StripUserinfo(AuthorityText(scheme, domain, port))) != Ok((domain, port))
  {
    var a := AuthorityText(scheme, domain, port);
    AuthorityForms(scheme, domain, port);
    assert a[..|domain|] == domain;
    assert forall i :: |domain| <= i < |a| ==> a[i] != '@';
    var last := RFindChar(domain, '@').value;
    UserinfoShifts(a, last);
    DomainIsPrefix(scheme, StripUserinfo(a));
  }

  lemma AuthorityReadBack(scheme: string, domain: string, port: Port)
    ensures Authority(scheme, StripUserinfo(AuthorityText(scheme, domain, port))) == Ok((domain, port))
            <==> AuthorityKept(scheme, domain, port)
  {
    if '@' in domain {
      UserinfoLost(scheme, domain, port);
    } else if domain != "" {
      PlainAuthority(scheme, domain, port);
    }
  }

  lemma DomainInside(scheme: string, hostPort: string, c: char)
    requires c !in hostPort
    ensures match Authority(scheme, StripUserinfo(hostPort)) case Ok((d, _)) => c !in d case Err(_) => true
  {
    assert c !in StripUserinfo(hostPort);
    DomainIsPrefix(scheme, StripUserinfo(hostPort));
  }

  // ---------- After the scheme ----------

  lemma PathShape(text: string)
    requires '?' !in text && '#' !in text
    ensures var p := PathOf(text); p != "" && p[0] == '/' && '?' !in p && '#' !in p
  {
  }

  /** Parse results are well shaped, whatever was parsed. */
  lemma ParsedIsWellShaped(raw: string)
    requires ParseUrl(raw).Ok?
    ensures WellShaped(ParseUrl(raw).value)
  {
    var rest := raw[SchemeEnd(raw)..];
    var unanchored := Before(rest, '#');
    var text := Before(unanchored, '?');
    SchemeShape(raw);
    PathShape(text);
    DomainInside(SchemeOf(raw), Before(text, '/'), '/');
    DomainInside(SchemeOf(raw), Before(text, '/'), '?');
    DomainInside(SchemeOf(raw), Before(text, '/'), '#');
    ParseQueryClean(After(unanchored, '?'), map[]);
  }

  lemma QueryReadBack(q: map<string, string>)
    requires CleanQuery(q)
    ensures ParseQuery(QueryText(SortedKeys(q.Keys), q), map[]) == WithoutBlank(q, q.Keys)
  {
    ReadBackInOrder(SortedKeys(q.Keys), q);
  }

  lemma ReadBackInOrder(ks: seq<string>, q: map<string, string>)
    requires CleanQuery(q) && forall k :: k in ks <==> k in q
    ensures ParseQuery(QueryText(ks, q), map[]) == WithoutBlank(q, q.Keys)
  {
    ParseQueryOfText(ks, q, map[]);
    assert (set k | k in ks) == q.Keys;
  }

  lemma QuerySectionShape(q: map<string, string>)
    requires CleanQuery(q)
    ensures var t := QuerySection(q);
            && '#' !in t && (t == "" || t[0] == '?')
            && (if t == "" then "" else t[1..]) == QueryText(SortedKeys(q.Keys), q)
  {
    QueryTextAvoids(SortedKeys(q.Keys), q);
    assert q == map[] <==> q.Keys == {};
  }

  lemma AuthorityTextAvoids(u: UrlValue, c: char)
    requires c !in u.domain && c != ':' && !IsDigit(c)
    ensures c !in AuthorityText(u.scheme, u.domain, u.port)
  {
    if u.domain != "" { AuthorityForms(u.scheme, u.domain, u.port); }
  }

  /** The cuts of the parser find the seams of a printed rest. */
  lemma CutsFindSeams(a: string, path: string, query: string, anchor: string)
    requires '#' !in a && '#' !in path && '#' !in query && '?' !in a && '?' !in path && '/' !in a
    requires path != "" && path[0] == '/' && (query == "" || query[0] == '?')
    ensures var rest := a + path + (query + AnchorSection(anchor));
            && Before(rest, '#') == a + path + query && After(rest, '#') == anchor
    ensures Before(a + path + query, '?') == a + path
    ensures After(a + path + query, '?') == if query == "" then "" else query[1..]
    ensures Before(a + path, '/') == a && PathOf(a + path) == path
  {
    assert a + path + (query + AnchorSection(anchor)) == (a + path + query) + AnchorSection(anchor);
    CutSection(a + path + query, '#', AnchorSection(anchor));
    CutSection(a + path, '?', query);
    CutSection(a, '/', path);
    assert (a + path)[|a|..] == path;
  }

  /** Reading back the printed rest gives the URL again, but for its authority and a blank parameter. */
  lemma RestReadBack(u: UrlValue)
    requires WellShaped(u)
    ensures ParseRest(u.scheme, RestText(u)) ==
            match Authority(u.scheme, StripUserinfo(AuthorityText(u.scheme, u.domain, u.port)))
            case Err(x) => Err(x)
            case Ok((d, p)) => Ok(u.(domain := d, port := p, query := WithoutBlank(u.query, u.query.Keys)))
  {
    AuthorityTextAvoids(u, '#');
    AuthorityTextAvoids(u, '?');
    AuthorityTextAvoids(u, '/');
    QueryReadBack(u.query);
    QuerySectionShape(u.query);
    CutsFindSeams(AuthorityText(u.scheme, u.domain, u.port), u.path, QuerySection(u.query), u.anchor);
  }

  // ---------- Separators in the printed text ----------

  lemma {:induction false} ParseQueryPieces(s: string, m: map<string, string>)
    requires !Contains(s, SEPARATOR) && PiecesFree(m)
    ensures PiecesFree(ParseQuery(s, m))
    decreases |s|
  {
    if s != "" {
      CutPieces(s, '&');
      var p := Before(s, '&');
      CutPieces(p, '=');
      assert !Contains("", SEPARATOR);
      ParseQueryPieces(After(s, '&'), AddParameter(m, p));
    }
  }

  lemma CutPieces(s: string, c: char)
    requires !Contains(s, SEPARATOR)
    ensures !Contains(Before(s, c), SEPARATOR) && !Contains(After(s, c), SEPARATOR)
  {
    var n := |Before(s, c)|;
    assert s[0..n] == Before(s, c);
    if Contains(Before(s, c), SEPARATOR) { ContainsInPart(s, SEPARATOR, 0, n); }
    if c in s {
      assert s[n + 1..|s|] == After(s, c);
      if Contains(After(s, c), SEPARATOR) { ContainsInPart(s, SEPARATOR, n + 1, |s|); }
    } else {
      assert !Contains("", SEPARATOR);
    }
  }

  /** Texts joined by a delimiter hold no separator unless one of them does. */
  lemma JoinFree(a: string, c: char, b: string)
    requires !Contains(a, SEPARATOR) && !Contains(b, SEPARATOR) && c != ':' && c != '/'
    ensures !Contains(a + [c] + b, SEPARATOR)
  {
    OccursBesideChar(a, c, b, SEPARATOR);
  }

  lemma {:induction false} QueryTextFree(ks: seq<string>, q: map<string, string>)
    requires PiecesFree(q) && forall k :: k in ks ==> k in q
    ensures !Contains(QueryText(ks, q), SEPARATOR)
    decreases |ks|
  {
    if ks == [] {
      assert !Contains("", SEPARATOR);
    } else {
      var k, v := ks[0], q[ks[0]];
      JoinFree(k, '=', v);
      assert k + "=" + v == k + ['='] + v;
      if |ks| > 1 {
        QueryTextFree(ks[1..], q);
        JoinFree(ParameterText(k, v), '&', QueryText(ks[1..], q));
        assert QueryText(ks, q) == ParameterText(k, v) + ['&'] + QueryText(ks[1..], q);
      }
    }
  }

  /** Path, parameters and anchor free of the separator print a text free of it. */
  lemma RestFree(u: UrlValue)
    requires u.domain == "" && FieldsFree(u)
    ensures !Contains(RestText(u), SEPARATOR)
  {
    var ks := SortedKeys(u.query.Keys);
    QueryTextFree(ks, u.query);
    SectionFree(u.path, '?', QueryText(ks, u.query), QuerySection(u.query));
    SectionFree(u.path + QuerySection(u.query), '#', u.anchor, AnchorSection(u.anchor));
    RestTextWithoutDomain(u);
  }

  lemma RestTextWithoutDomain(u: UrlValue)
    requires u.domain == ""
    ensures RestText(u) == u.path + QuerySection(u.query) + AnchorSection(u.anchor)
  {
    assert "" + u.path == u.path;
    assert u.path + (QuerySection(u.query) + AnchorSection(u.anchor))
        == u.path + QuerySection(u.query) + AnchorSection(u.anchor);
  }

  lemma SectionFree(head: string, c: char, text: string, section: string)
    requires !Contains(head, SEPARATOR) && !Contains(text, SEPARATOR) && c != ':' && c != '/'
    requires section == "" || section == [c] + text
    ensures !Contains(head + section, SEPARATOR)
  {
    if section == "" {
      assert head + section == head;
    } else {
      assert head + section == head + [c] + text;
      JoinFree(head, c, text);
    }
  }

  /** What stands in one of two texts stands in both put together. */
  lemma JoinKeeps(a: string, c: string, b: string)
    ensures Contains(a, SEPARATOR) || Contains(b, SEPARATOR) ==> Contains(a + c + b, SEPARATOR)
  {
    var s, n := a + c + b, |a| + |c|;
    assert s[0..|a|] == a && s[n..|s|] == b;
    if Contains(a, SEPARATOR) { ContainsInPart(s, SEPARATOR, 0, |a|); }
    if Contains(b, SEPARATOR) { ContainsInPart(s, SEPARATOR, n, |s|); }
  }

  lemma ParameterKeeps(k: string, v: string)
    ensures Contains(k, SEPARATOR) || Contains(v, SEPARATOR) ==> Contains(ParameterText(k, v), SEPARATOR)
  {
    assert !Contains("", SEPARATOR);
    JoinKeeps(k, "=", v);
  }

  /** Every key and value stands in the printed parameters. */
  lemma {:induction false} PieceInText(ks: seq<string>, q: map<string, string>, k: string)
    requires k in ks && (forall x :: x in ks ==> x in q) && (Contains(k, SEPARATOR) || Contains(q[k], SEPARATOR))
    ensures Contains(QueryText(ks, q), SEPARATOR)
    decreases |ks|
  {
    var p, rest := ParameterText(ks[0], q[ks[0]]), ks[1..];
    if k == ks[0] {
      ParameterKeeps(k, q[k]);
    } else {
      assert k in rest;
      PieceInText(rest, q, k);
    }
    if rest != [] { JoinKeeps(p, "&", QueryText(rest, q)); }
  }

  lemma QuerySectionKeeps(q: map<string, string>)
    requires !PiecesFree(q)
    ensures Contains(QuerySection(q), SEPARATOR)
  {
    var k :| k in q && (Contains(k, SEPARATOR) || Contains(q[k], SEPARATOR));
    PieceInText(SortedKeys(q.Keys), q, k);
    SectionKeeps("?", QueryText(SortedKeys(q.Keys), q));
  }

  lemma SectionKeeps(c: string, text: string)
    ensures Contains(text, SEPARATOR) ==> Contains(c + text, SEPARATOR)
  {
    JoinKeeps("", c, text);
    assert "" + c + text == c + text;
  }

  lemma ThreeKeep(a: string, b: string, c: string)
    ensures Contains(a, SEPARATOR) || Contains(b, SEPARATOR) || Contains(c, SEPARATOR)
            ==> Contains(a + b + c, SEPARATOR)
  {
    JoinKeeps(a, "", b);
    assert a + "" + b == a + b;
    JoinKeeps(a + b, "", c);
    assert a + b + "" + c == a + b + c;
  }

  lemma RestHoldsFields(u: UrlValue)
    requires u.domain == "" && !FieldsFree(u)
    ensures Contains(RestText(u), SEPARATOR)
  {
    assert !Contains("", SEPARATOR);
    if !PiecesFree(u.query) { QuerySectionKeeps(u.query); }
    SectionKeeps("#", u.anchor);
    ThreeKeep(u.path, QuerySection(u.query), AnchorSection(u.anchor));
    RestTextWithoutDomain(u);
  }

  /** A path-only URL prints a separator if and only if one of its fields holds it. */
  lemma FieldsFreeIff(u: UrlValue)
    requires u.domain == ""
    ensures !Contains(RestText(u), SEPARATOR) <==> FieldsFree(u)
  {
    if FieldsFree(u) { RestFree(u); } else { RestHoldsFields(u); }
  }

  // ---------- Main results ----------

  lemma WithoutBlankIsIdentity(q: map<string, string>)
    ensures WithoutBlank(q, q.Keys) == q <==> !HasBlankParameter(q)
  {
    if HasBlankParameter(q) {
      assert "" !in WithoutBlank(q, q.Keys);
    } else {
      assert WithoutBlank(q, q.Keys) == q;
    }
  }

  /** The path read from a path followed by a query or an anchor is no longer than that path. */
  lemma PathNotLonger(scheme: string, path: string, tail: string)
    requires tail == "" || tail[0] == '?' || tail[0] == '#'
    ensures match ParseRest(scheme, path + tail)
            case Ok(u) => |u.path| <= |path| || |u.path| == 1
            case Err(_) => true
  {
    var rest := path + tail;
    var unanchored := Before(rest, '#');
    if tail != "" { assert rest[|path|] == tail[0]; }
    assert |Before(unanchored, '?')| <= |path|;
  }

  /** A printed separator at the very start: one character of authority, two of the path. */
  lemma SeparatorFirst(a: string, path: string, tail: string)
    requires '/' !in a && path != "" && path[0] == '/'
    requires tail == "" || tail[0] == '?' || tail[0] == '#'
    requires OccursAt(a + path + tail, SEPARATOR, 0)
    ensures |a| == 1 && |path| >= 2 && (a + path + tail)[3..] == path[2..] + tail
  {
    var raw := a + path + tail;
    assert raw[|a|] == '/' && forall i :: 0 <= i < |a| ==> raw[i] == a[i];
    assert tail != "" ==> raw[|a| + |path|] == tail[0];
    OccursChar(raw, SEPARATOR, 0, 0);
    OccursChar(raw, SEPARATOR, 0, 1);
    OccursChar(raw, SEPARATOR, 0, 2);
  }

  /** How a text without a scheme is taken: by whether it starts with its path. */
  lemma SchemelessText(a: string, path: string, tail: string)
    requires '/' !in a && path != "" && path[0] == '/'
    requires tail == "" || tail[0] == '?' || tail[0] == '#'
    ensures var raw := a + path + tail;
            match Find(raw, SEPARATOR, 0)
            case None => SchemeOf(raw) == "" <==> a == ""
            case Some(n) => SchemeOf(raw) == "" ==> n == 0 && |a| == 1 && |path| >= 2 && raw[3..] == path[2..] + tail
  {
    var raw := a + path + tail;
    match Find(raw, SEPARATOR, 0)
    case None =>
      assert raw[0] == if a == "" then '/' else a[0];
    case Some(n) =>
      if n > 0 {
        assert |SchemeOf(raw)| == n;
      } else {
        SeparatorFirst(a, path, tail);
      }
  }

  /** Without a scheme a URL is read back only if it is path-only and prints no separator. */
  lemma SchemelessReadBack(u: UrlValue)
    requires WellShaped(u) && u.scheme == "" && ParseUrl(RestText(u)) == Ok(u)
    ensures u.domain == "" && !Contains(RestText(u), SEPARATOR)
  {
    var a, tail := AuthorityText("", u.domain, u.port), QuerySection(u.query) + AnchorSection(u.anchor);
    AuthorityTextAvoids(u, '/');
    TailShape(u);
    SchemelessText(a, u.path, tail);
    if Find(RestText(u), SEPARATOR, 0).Some? { SeparatorShortensPath(a, u.path, tail, u); }
  }

  /** A separator taken for an empty scheme takes two characters of the path with it. */
  lemma SeparatorShortensPath(a: string, path: string, tail: string, u: UrlValue)
    requires '/' !in a && path != "" && path[0] == '/' && (tail == "" || tail[0] == '?' || tail[0] == '#')
    requires u.scheme == "" && ParseUrl(a + path + tail) == Ok(u) && Find(a + path + tail, SEPARATOR, 0).Some?
    ensures u.path != path
  {
    SchemelessText(a, path, tail);
    PathNotLonger("", path[2..], tail);
  }

  lemma TailShape(u: UrlValue)
    ensures var tail := QuerySection(u.query) + AnchorSection(u.anchor);
            tail == "" || tail[0] == '?' || tail[0] == '#'
  {
  }

  /** Reading back a printed URL with a scheme. */
  lemma SchemedReadBack(u: UrlValue)
    requires WellShaped(u) && u.scheme != ""
    ensures ParseUrl(PrintUrl(u)) == ParseRest(u.scheme, RestText(u))
  {
    SchemeOfPrinted(u.scheme, RestText(u));
    assert u.scheme + SEPARATOR + RestText(u) != "";
  }

  /** Reading back a printed path-only URL that prints no separator. */
  lemma PathOnlyReadBack(u: UrlValue)
    requires WellShaped(u) && u.scheme == "" && u.domain == "" && !Contains(RestText(u), SEPARATOR)
    ensures ParseUrl(RestText(u)) == ParseRest(u.scheme, RestText(u))
  {
    var raw := RestText(u);
    TailShape(u);
    SchemelessText("", u.path, QuerySection(u.query) + AnchorSection(u.anchor));
    assert Find(raw, SEPARATOR, 0) == None;
    assert raw[0..] == raw;
  }

  lemma NoSchemePrintsRest(u: UrlValue)
    requires u.scheme == ""
    ensures PrintUrl(u) == RestText(u)
  {
    var rest := RestText(u);
    assert "" + rest == rest;
  }

  lemma RestKept(u: UrlValue)
    requires WellShaped(u)
    ensures ParseRest(u.scheme, RestText(u)) == Ok(u)
            <==> !HasBlankParameter(u.query) && AuthorityKept(u.scheme, u.domain, u.port)
  {
    RestReadBack(u);
    WithoutBlankIsIdentity(u.query);
    AuthorityReadBack(u.scheme, u.domain, u.port);
  }

  /**
   Parsing what was printed gives back exactly the URL that was printed
   if and only if that URL is canonical.
   */
  lemma RoundTripIffCanonical(u: UrlValue)
    ensures ParseUrl(PrintUrl(u)) == Ok(u) <==> Canonical(u)
  {
    if ParseUrl(PrintUrl(u)) == Ok(u) { ParsedIsWellShaped(PrintUrl(u)); }
    if WellShaped(u) {
      RestKept(u);
      if u.scheme != "" {
        SchemedReadBack(u);
      } else {
        NoSchemePrintsRest(u);
        if ParseUrl(RestText(u)) == Ok(u) { SchemelessReadBack(u); }
        if u.domain == "" { FieldsFreeIff(u); }
        if u.domain == "" && FieldsFree(u) { PathOnlyReadBack(u); }
      }
    }
  }

  /** Two canonical URLs with the same text are the same URL. */
  lemma PrintInjective(u: UrlValue, v: UrlValue)
    requires Canonical(u) && Canonical(v) && PrintUrl(u) == PrintUrl(v)
    ensures u == v
  {
    RoundTripIffCanonical(u);
    RoundTripIffCanonical(v);
  }

  // ---------- Normal form ----------

  /** What a text without a separator that starts with '/' is parsed to. */
  lemma PathOnlyParse(raw: string)
    requires !Contains(raw, SEPARATOR) && raw != "" && raw[0] == '/'
    ensures var unanchored := Before(raw, '#');
            var text := Before(unanchored, '?');
            ParseUrl(raw) == Ok(UrlValue("", "", 0, text, ParseQuery(After(unanchored, '?'), map[]), After(raw, '#')))
  {
    assert Find(raw, SEPARATOR, 0) == None;
    assert raw[0..] == raw;
    var text := Before(Before(raw, '#'), '?');
    assert text[0] == '/';
    assert Before(text, '/') == "";
  }

  /** Reprinting a path-only URL, parameters sorted and deduplicated, makes no separator. */
  lemma ReprintMakesNoSeparator(raw: string)
    requires !Contains(raw, SEPARATOR) && raw != "" && raw[0] == '/'
    ensures ParseUrl(raw).Ok?
    ensures var u := ParseUrl(raw).value;
            u.scheme == "" && u.domain == "" && u.port == 0 && !Contains(PrintUrl(u), SEPARATOR)
  {
    PathOnlyParse(raw);
    var unanchored := Before(raw, '#');
    CutPieces(raw, '#');
    CutPieces(unanchored, '?');
    ParseQueryPieces(After(unanchored, '?'), map[]);
    var u := ParseUrl(raw).value;
    RestFree(u);
    NoSchemePrintsRest(u);
  }

  /** A text without a scheme: printing its URL again makes no separator, unless it began with one. */
  lemma SchemelessParse(raw: string)
    requires ParseUrl(raw).Ok? && !OccursAt(raw, SEPARATOR, 0) && ParseUrl(raw).value.scheme == ""
    ensures var u := ParseUrl(raw).value; u.domain == "" && FieldsFree(u)
  {
    assert Find(raw, SEPARATOR, 0).None?;
    assert raw[0] == '/';
    ReprintMakesNoSeparator(raw);
    FieldsFreeIff(ParseUrl(raw).value);
    NoSchemePrintsRest(ParseUrl(raw).value);
  }

  lemma SeparatorFirstHasNoScheme(raw: string)
    requires ParseUrl(raw).Ok? && OccursAt(raw, SEPARATOR, 0)
    ensures ParseUrl(raw).value.scheme == ""
  {
    assert Find(raw, SEPARATOR, 0) == Some(0);
    assert Lower(raw[..0]) == "";
  }

  /**
   Normal form. A text that parses gives a canonical URL, one that printing and parsing again
   does not change, unless it has a blank parameter or an authority that is not kept, or it
   begins with "://" and its URL has a domain or is printed with a separator of its own.
   */
  lemma NormalForm(raw: string)
    requires ParseUrl(raw).Ok?
    ensures var u := ParseUrl(raw).value;
            && (Canonical(u) <==> ReadBackSafely(raw, u))
            && (ParseUrl(PrintUrl(u)) == Ok(u) <==> ReadBackSafely(raw, u))
  {
    var u := ParseUrl(raw).value;
    ParsedIsWellShaped(raw);
    if OccursAt(raw, SEPARATOR, 0) {
      SeparatorFirstHasNoScheme(raw);
    } else if u.scheme == "" {
      SchemelessParse(raw);
    }
    RoundTripIffCanonical(u);
  }

  ghost predicate ReadBackSafely(raw: string, u: UrlValue) {
    && !HasBlankParameter(u.query) && AuthorityKept(u.scheme, u.domain, u.port)
    && (OccursAt(raw, SEPARATOR, 0) ==> u.domain == "" && FieldsFree(u))
  }

  // ---------- White space ----------

  /** A character that no parameter of a map holds. */
  predicate QueryAvoids(q: map<string, string>, c: char) {
    forall k :: k in q ==> c !in k && c !in q[k]
  }

  lemma CutAvoids(s: string, d: char, c: char)
    requires c !in s
    ensures c !in Before(s, d) && c !in After(s, d)
  {
    if d in s { assert s == Before(s, d) + [d] + After(s, d); }
  }

  lemma {:induction false} ParseQueryAvoids(s: string, m: map<string, string>, c: char)
    requires c !in s && QueryAvoids(m, c)
    ensures QueryAvoids(ParseQuery(s, m), c)
    decreases |s|
  {
    if s != "" {
      var p := Before(s, '&');
      CutAvoids(s, '&', c);
      CutAvoids(p, '=', c);
      ParseQueryAvoids(After(s, '&'), AddParameter(m, p), c);
    }
  }

  lemma {:induction false} QueryTextAvoidsChar(ks: seq<string>, q: map<string, string>, c: char)
    requires QueryAvoids(q, c) && (forall k :: k in ks ==> k in q) && c != '=' && c != '&'
    ensures c !in QueryText(ks, q)
    decreases |ks|
  {
    if |ks| > 1 { QueryTextAvoidsChar(ks[1..], q, c); }
  }

  lemma LowerAvoids(s: string, c: char)
    requires c !in s && c <= ' '
    ensures c !in Lower(s)
  {
  }

  lemma SchemeAvoids(raw: string, c: char)
    requires c !in raw && c <= ' '
    ensures c !in SchemeOf(raw) && c !in raw[SchemeEnd(raw)..]
  {
    match Find(raw, SEPARATOR, 0)
    case None =>
    case Some(i) => LowerAvoids(raw[..i], c);
  }

  predicate FieldsAvoid(u: UrlValue, c: char) {
    c !in u.domain && c !in u.path && QueryAvoids(u.query, c) && c !in u.anchor
  }

  lemma PathAvoids(text: string, c: char)
    requires c !in text && c != '/'
    ensures c !in PathOf(text)
  {
  }

  /** Every field after the scheme comes from the text, so none holds a blank that the text does not. */
  lemma ParsedAvoids(scheme: string, rest: string, c: char)
    requires c !in rest && c <= ' ' && ParseRest(scheme, rest).Ok?
    ensures FieldsAvoid(ParseRest(scheme, rest).value, c)
  {
    var unanchored := Before(rest, '#');
    var text := Before(unanchored, '?');
    CutAvoids(rest, '#', c);
    CutAvoids(unanchored, '?', c);
    CutAvoids(text, '/', c);
    PathAvoids(text, c);
    DomainInside(scheme, Before(text, '/'), c);
    ParseQueryAvoids(After(unanchored, '?'), map[], c);
  }

  lemma RestAvoids(u: UrlValue, c: char)
    requires FieldsAvoid(u, c) && c <= ' '
    ensures c !in RestText(u)
  {
    AuthorityTextAvoids(u, c);
    QueryTextAvoidsChar(SortedKeys(u.query.Keys), u.query, c);
    FourAvoid(AuthorityText(u.scheme, u.domain, u.port), u.path, QuerySection(u.query), AnchorSection(u.anchor), c);
  }

  lemma FourAvoid(a: string, path: string, query: string, anchor: string, c: char)
    requires c !in a && c !in path && c !in query && c !in anchor
    ensures c !in a + path + (query + anchor)
  {
  }

  /** Reprinting a URL adds no white space. */
  lemma ReprintAddsNoBlank(raw: string, c: char)
    requires c !in raw && c <= ' ' && ParseUrl(raw).Ok?
    ensures c !in PrintUrl(ParseUrl(raw).value)
  {
    SchemeAvoids(raw, c);
    ParsedAvoids(SchemeOf(raw), raw[SchemeEnd(raw)..], c);
    RestAvoids(ParseUrl(raw).value, c);
  }

  /** An explicit port 0 parses, is not printed, and is read back as the scheme's port. */
  lemma PortZeroIsLost()
    ensures ParseUrl("http" + SEPARATOR + ("a:0" + "/")) == Ok(UrlValue("http", "a", 0, "/", map[], ""))
    ensures ParseUrl(PrintUrl(UrlValue("http", "a", 0, "/", map[], ""))) != Ok(UrlValue("http", "a", 0, "/", map[], ""))
  {
    RoundTripIffCanonical(UrlValue("http", "a", 0, "/", map[], ""));
    SchemeShape("");
    assert SchemeOf("") == "http";
    SchemeOfPrinted("http", "a:0" + "/");
    PortZeroRest();
  }

  lemma PortZeroRest()
    ensures ParseRest("http", "a:0" + "/") == Ok(UrlValue("http", "a", 0, "/", map[], ""))
  {
    CutsFindSeams("a:0", "/", "", "");
    assert "a:0" + "/" + ("" + "") == "a:0" + "/" && "a:0" + "/" + "" == "a:0" + "/";
    HostWithPort("http", "a", 0);
    assert "a" + [':'] + Digits(0) == "a:0";
  }

  /** A text that begins with the separator has an empty scheme. */
  lemma LeadingSeparator(rest: string)
    ensures ParseUrl(SEPARATOR + rest) == ParseRest("", rest)
  {
    var raw := SEPARATOR + rest;
    assert raw[0..3] == SEPARATOR && raw[3..] == rest;
    assert OccursAt(raw, SEPARATOR, 0);
    assert Find(raw, SEPARATOR, 0) == Some(0);
    assert Lower(raw[..0]) == "";
  }

  /** A leading separator before a domain parses to a URL without a scheme, which is not read back. */
  lemma LeadingSeparatorIsLost()
    ensures ParseUrl(SEPARATOR + ("a" + "/")) == Ok(UrlValue("", "a", 80, "/", map[], ""))
    ensures ParseUrl(PrintUrl(UrlValue("", "a", 80, "/", map[], ""))) != Ok(UrlValue("", "a", 80, "/", map[], ""))
  {
    LeadingSeparator("a" + "/");
    DomainWithoutScheme();
    RoundTripIffCanonical(UrlValue("", "a", 80, "/", map[], ""));
  }

  lemma DomainWithoutScheme()
    ensures ParseRest("", "a" + "/") == Ok(UrlValue("", "a", 80, "/", map[], ""))
  {
    CutsFindSeams("a", "/", "", "");
    assert "a" + "/" + ("" + "") == "a" + "/" && "a" + "/" + "" == "a" + "/";
    HostAlone("", "a", 80);
  }
}
