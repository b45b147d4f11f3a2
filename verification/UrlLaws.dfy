/**
 What parsing a URL does, as equations between texts and values: every part of a text has one, so
 together they say of every text what it is parsed to, or why it is refused.
 */
module UrlLaws {
  import opened Text
  import opened UrlSpec
  import opened UrlProofs

  // ---------- Parts of a text ----------

  /** A text that no path, query or fragment starts in. */
  predicate InAuthority(a: string) { '/' !in a && '?' !in a && '#' !in a }

  /** What follows an authority. */
  predicate IsTail(t: string) { t == "" || t[0] == '/' || t[0] == '?' || t[0] == '#' }

  lemma CutBehind(a: string, t: string, c: char)
    requires c !in a
    ensures Before(a + t, c) == a + Before(t, c) && After(a + t, c) == After(t, c)
  {
    if c in t {
      assert a + t == (a + Before(t, c)) + [c] + After(t, c);
      CutAt(a + Before(t, c), c, After(t, c));
    } else {
      CutNone(a + t, c);
      CutNone(t, c);
    }
  }

  /** Behind the scheme, authority and tail are read apart. */
  lemma AuthorityApart(scheme: string, a: string, tail: string)
    requires InAuthority(a) && IsTail(tail)
    ensures ParseRest(scheme, tail).Ok?
    ensures var u := ParseRest(scheme, tail).value;
            && u.scheme == scheme && u.domain == "" && u.port == 0
            && ParseRest(scheme, a + tail) ==
               match Authority(scheme, StripUserinfo(a))
               case Err(e) => Err(e)
               case Ok((d, p)) => Ok(u.(domain := d, port := p))
  {
    CutsApart(a, tail);
    NoAuthority(scheme);
  }

  /** Nothing before the first '/', '?' or '#' moves the cuts. */
  lemma CutsApart(a: string, tail: string)
    requires InAuthority(a) && IsTail(tail)
    ensures var rest := Before(tail, '#');
            var text := Before(rest, '?');
            && After(a + tail, '#') == After(tail, '#') && Before(a + tail, '#') == a + rest
            && After(a + rest, '?') == After(rest, '?') && Before(a + rest, '?') == a + text
            && Before(a + text, '/') == a && PathOf(a + text) == PathOf(text) && Before(text, '/') == ""
  {
    CutBehind(a, tail, '#');
    var rest := Before(tail, '#');
    CutBehind(a, rest, '?');
    var text := Before(rest, '?');
    assert text != "" ==> text[0] == tail[0] == '/';
    SlashFirst(text);
    PathBehind(a, text);
  }

  lemma NoAuthority(scheme: string)
    ensures Authority(scheme, StripUserinfo("")) == Ok(("", 0))
  {
  }

  lemma SlashFirst(text: string)
    requires text == "" || text[0] == '/'
    ensures Before(text, '/') == ""
  {
  }

  lemma PathBehind(a: string, text: string)
    requires '/' !in a && (text == "" || text[0] == '/')
    ensures Before(a + text, '/') == a && PathOf(a + text) == PathOf(text)
  {
    CutSection(a, '/', text);
    SlashFirst(text);
    if text == "" {
      assert a + text == a;
    } else {
      assert '/' in a + text by { assert (a + text)[|a|] == '/'; }
      assert (a + text)[|a|..] == text && text[0..] == text;
    }
  }

  // ---------- Scheme ----------

  /** The first separator ends the scheme, which is read in lower case. */
  lemma SchemeLaw(s: string, rest: string)
    requires !Contains(s, SEPARATOR)
    ensures ParseUrl(s + SEPARATOR + rest) == ParseRest(Lower(s), rest)
  {
    var raw, n := s + SEPARATOR + rest, |s|;
    assert raw[n..n + 3] == SEPARATOR && raw[..n] == s && raw[n + 3..] == rest;
    assert OccursAt(raw, SEPARATOR, n);
    forall i | 0 <= i < n ensures !OccursAt(raw, SEPARATOR, i) { NoEarlierSeparator(s, rest, i); }
    assert Find(raw, SEPARATOR, 0) == Some(n);
  }

  lemma CaseLaw(s: string, rest: string)
    requires !Contains(s, SEPARATOR)
    ensures ParseUrl(s + SEPARATOR + rest) == ParseUrl(Lower(s) + SEPARATOR + rest)
  {
    SchemeLaw(s, rest);
    LowerIdempotent(s);
    if i :| OccursAt(Lower(s), SEPARATOR, i) { LowerKeepsSeparators(s, i); }
    SchemeLaw(Lower(s), rest);
  }

  /** Without a separator, a text is a path if it begins with '/', and else means http. */
  lemma NoSchemeLaw(raw: string)
    requires !Contains(raw, SEPARATOR)
    ensures raw == "" ==> ParseUrl(raw) == Err(EmptyUrl)
    ensures raw != "" && raw[0] == '/' ==> ParseUrl(raw) == ParseUrl(SEPARATOR + raw)
    ensures raw != "" && raw[0] != '/' ==> ParseUrl(raw) == ParseUrl("http" + SEPARATOR + raw)
  {
    assert Find(raw, SEPARATOR, 0).None?;
    assert raw[0..] == raw;
    SchemeShape("");
    assert SchemeOf("") == "http";
    SchemeLaw("http", raw);
    LeadingSeparator(raw);
  }

  // ---------- Userinfo ----------

  lemma UserinfoCut(u: string, h: string)
    requires '@' !in u
    ensures StripUserinfo(u + "@" + h) == h
    ensures '@' !in h ==> StripUserinfo(h) == h
  {
    assert u + "@" + h == u + ['@'] + h;
    CutAt(u, '@', h);
    assert (u + ['@'] + h)[|u|] == '@';
  }

  /** The URL of a text without authority, given one. */
  function WithHost(u: UrlValue, host: Result<(string, Port)>): Result<UrlValue> {
    match host
    case Err(e) => Err(e)
    case Ok((d, p)) => Ok(u.(domain := d, port := p))
  }

  /** An authority between scheme and tail decides domain and port, and nothing else. */
  lemma HostApart(s: string, a: string, tail: string)
    requires !Contains(s, SEPARATOR) && InAuthority(a) && IsTail(tail)
    ensures ParseUrl(s + SEPARATOR + tail).Ok?
    ensures var u := ParseUrl(s + SEPARATOR + tail).value;
            && u.scheme == Lower(s) && u.domain == "" && u.port == 0
            && ParseUrl(s + SEPARATOR + (a + tail)) == WithHost(u, Authority(Lower(s), StripUserinfo(a)))
  {
    SchemeLaw(s, tail);
    SchemeLaw(s, a + tail);
    AuthorityApart(Lower(s), a, tail);
  }

  /** Only the letters from A to Z change. */
  lemma SchemeLetters(s: string, tail: string)
    requires !Contains(s, SEPARATOR) && IsTail(tail)
    ensures ParseUrl(s + SEPARATOR + tail).Ok?
    ensures var scheme := ParseUrl(s + SEPARATOR + tail).value.scheme;
            && |scheme| == |s|
            && forall i :: 0 <= i < |s| ==>
                 scheme[i] as int == if 'A' <= s[i] <= 'Z' then s[i] as int + 32 else s[i] as int
  {
    HostApart(s, "", tail);
    LowerLetters(s);
  }

  lemma LowerLetters(s: string)
    ensures |Lower(s)| == |s|
    ensures forall i :: 0 <= i < |s| ==>
              Lower(s)[i] as int == if 'A' <= s[i] <= 'Z' then s[i] as int + 32 else s[i] as int
  {
  }

  /** Whatever stands before the first '@' of an authority has no effect. */
  lemma UserinfoLaw(s: string, u: string, h: string, tail: string)
    requires !Contains(s, SEPARATOR) && InAuthority(u) && InAuthority(h) && IsTail(tail) && '@' !in u
    ensures ParseUrl(s + SEPARATOR + ((u + "@" + h) + tail)) == ParseUrl(s + SEPARATOR + (("" + "@" + h) + tail))
    ensures '@' !in h ==> ParseUrl(s + SEPARATOR + ((u + "@" + h) + tail)) == ParseUrl(s + SEPARATOR + (h + tail))
  {
    HostApart(s, u + "@" + h, tail);
    HostApart(s, "" + "@" + h, tail);
    HostApart(s, h, tail);
    UserinfoCut(u, h);
    UserinfoCut("", h);
  }

  // ---------- Host and port ----------

  /** The port of a host without one. */
  function UsualPort(s: string): Port { if Lower(s) == "https" then 443 else 80 }

  /** What a text behind the colon of a port gives. */
  function PortGiven(p: string): Result<Port> {
    if p == "" || !AllDigits(p) then Err(InvalidPort)
    else if Decimal(p) <= 65535 then Ok(Decimal(p))
    else if Decimal(p) <= 2147483647 then Err(PortOutOfRange)
    else Err(InvalidPort)
  }

  /** The authority is a host and what follows it, alone or behind userinfo. */
  ghost predicate Carries(a: string, h: string) {
    (a == h && '@' !in h) || exists u :: '@' !in u && a == u + "@" + h
  }

  lemma CarriedHost(a: string, h: string)
    requires Carries(a, h)
    ensures StripUserinfo(a) == h
  {
    if u :| '@' !in u && a == u + "@" + h { UserinfoCut(u, h); }
  }

  /** A host without a port gets the usual one. */
  lemma HostLaw(s: string, a: string, d: string, tail: string)
    requires !Contains(s, SEPARATOR) && InAuthority(a) && IsTail(tail) && Carries(a, d)
    requires d != "" && d[0] != '[' && ':' !in d
    ensures ParseUrl(s + SEPARATOR + tail).Ok?
    ensures ParseUrl(s + SEPARATOR + (a + tail))
            == Ok(ParseUrl(s + SEPARATOR + tail).value.(domain := d, port := UsualPort(s)))
  {
    HostApart(s, a, tail);
    CarriedHost(a, d);
    HostAuthority(s, d);
  }

  lemma HostAuthority(s: string, d: string)
    requires d != "" && d[0] != '[' && ':' !in d
    ensures Authority(Lower(s), d) == Ok((d, UsualPort(s)))
  {
  }

  /** An authority that is only userinfo, or nothing, leaves the URL without a host. */
  lemma NoHostLaw(s: string, a: string, tail: string)
    requires !Contains(s, SEPARATOR) && InAuthority(a) && IsTail(tail) && Carries(a, "")
    ensures ParseUrl(s + SEPARATOR + (a + tail)) == ParseUrl(s + SEPARATOR + tail)
  {
    HostApart(s, a, tail);
    CarriedHost(a, "");
  }

  lemma ColonLast(d: string, p: string)
    requires ':' !in p
    ensures RFindChar(d + ":" + p, ':') == Some(|d|)
    ensures (d + ":" + p)[..|d|] == d && (d + ":" + p)[|d| + 1..] == p
  {
    var a, n := d + ":" + p, |d|;
    assert a[n] == ':';
    assert forall i :: n < i < |a| ==> a[i] == p[i - n - 1];
  }

  /** The last colon of a host that is not bracketed starts its port, which must be a number of 16 bits. */
  lemma PortLaw(s: string, a: string, d: string, p: string, tail: string)
    requires !Contains(s, SEPARATOR) && InAuthority(a) && IsTail(tail) && Carries(a, d + ":" + p)
    requires (d != "" ==> d[0] != '[') && ':' !in p
    ensures ParseUrl(s + SEPARATOR + tail).Ok?
    ensures ParseUrl(s + SEPARATOR + (a + tail)) ==
            match PortGiven(p)
            case Err(e) => Err(e)
            case Ok(n) => Ok(ParseUrl(s + SEPARATOR + tail).value.(domain := d, port := n))
  {
    HostApart(s, a, tail);
    CarriedHost(a, d + ":" + p);
    PortAuthority(Lower(s), d, p);
  }

  lemma PortRead(p: string)
    ensures ParsePortNumber(p) == PortGiven(p)
  {
  }

  lemma PortAuthority(scheme: string, d: string, p: string)
    requires (d != "" ==> d[0] != '[') && ':' !in p
    ensures Authority(scheme, d + ":" + p)
            == match PortGiven(p) case Err(e) => Err(e) case Ok(n) => Ok((d, n))
  {
    ColonLast(d, p);
    PortRead(p);
    assert (d + ":" + p)[0] == if d == "" then ':' else d[0];
  }

  lemma BracketFirst(b: string, junk: string)
    requires ']' !in b
    ensures var a := "[" + b + "]" + junk;
            && FindChar(a, ']', 0) == Some(|b| + 1) && a[..|b| + 2] == "[" + b + "]" && a[|b| + 2..] == junk
  {
    var a := "[" + b + "]" + junk;
    assert a[0] == '[' && a[|b| + 1] == ']';
    assert forall i :: 0 < i < |b| + 1 ==> a[i] == b[i - 1];
  }

  /** A bracketed literal ends at its first ']'; only a colon right behind it starts a port, anything else is dropped. */
  lemma LiteralLaw(s: string, a: string, b: string, junk: string, tail: string)
    requires !Contains(s, SEPARATOR) && InAuthority(a) && IsTail(tail) && Carries(a, "[" + b + "]" + junk) && ']' !in b
    ensures ParseUrl(s + SEPARATOR + tail).Ok?
    ensures ParseUrl(s + SEPARATOR + (a + tail)) ==
            if junk != "" && junk[0] == ':' then
              (match PortGiven(junk[1..])
               case Err(e) => Err(e)
               case Ok(n) => Ok(ParseUrl(s + SEPARATOR + tail).value.(domain := "[" + b + "]", port := n)))
            else Ok(ParseUrl(s + SEPARATOR + tail).value.(domain := "[" + b + "]", port := UsualPort(s)))
  {
    HostApart(s, a, tail);
    CarriedHost(a, "[" + b + "]" + junk);
    LiteralAuthority(s, b, junk);
  }

  lemma LiteralAuthority(s: string, b: string, junk: string)
    requires ']' !in b
    ensures Authority(Lower(s), "[" + b + "]" + junk) ==
            if junk != "" && junk[0] == ':' then
              (match PortGiven(junk[1..]) case Err(e) => Err(e) case Ok(n) => Ok(("[" + b + "]", n)))
            else Ok(("[" + b + "]", UsualPort(s)))
  {
    var a := "[" + b + "]" + junk;
    BracketFirst(b, junk);
    if junk != "" { PortRead(junk[1..]); }
    assert a[0] == '[' && (junk != "" ==> a[|b| + 2] == junk[0] && a[|b| + 3..] == junk[1..]);
  }

  /** A bracket that is not closed is refused. */
  lemma OpenLiteralLaw(s: string, a: string, b: string, tail: string)
    requires !Contains(s, SEPARATOR) && InAuthority(a) && IsTail(tail) && Carries(a, "[" + b) && ']' !in b
    ensures ParseUrl(s + SEPARATOR + (a + tail)) == Err(MalformedIPv6)
  {
    HostApart(s, a, tail);
    CarriedHost(a, "[" + b);
    assert FindChar("[" + b, ']', 0).None? by { assert ']' !in "[" + b; }
  }

  // ---------- Path, query and fragment ----------

  /** Behind the scheme alone: the first '#' starts the fragment, the first '?' before it the query. */
  lemma TailLaw(s: string, path: string, query: string, anchor: string)
    requires !Contains(s, SEPARATOR) && (path == "" || path[0] == '/')
    requires '?' !in path && '#' !in path && '#' !in query
    ensures var bare := UrlValue(Lower(s), "", 0, if path == "" then "/" else path, map[], "");
            var read := bare.(query := ParseQuery(query, map[]));
            && ParseUrl(s + SEPARATOR + path) == Ok(bare)
            && ParseUrl(s + SEPARATOR + (path + ("#" + anchor))) == Ok(bare.(anchor := anchor))
            && ParseUrl(s + SEPARATOR + (path + ("?" + query))) == Ok(read)
            && ParseUrl(s + SEPARATOR + ((path + ("?" + query)) + ("#" + anchor))) == Ok(read.(anchor := anchor))
  {
    SchemeLaw(s, path);
    SchemeLaw(s, path + ("#" + anchor));
    SchemeLaw(s, path + ("?" + query));
    SchemeLaw(s, (path + ("?" + query)) + ("#" + anchor));
    TailRead(Lower(s), path, "", "");
    TailRead(Lower(s), path, "", "#" + anchor);
    TailRead(Lower(s), path, "?" + query, "");
    TailRead(Lower(s), path, "?" + query, "#" + anchor);
    TailPieces(path, query, anchor);
  }

  lemma TailPieces(path: string, query: string, anchor: string)
    ensures (path + "") + "" == path && (path + "") + ("#" + anchor) == path + ("#" + anchor)
    ensures (path + ("?" + query)) + "" == path + ("?" + query)
    ensures ("?" + query)[1..] == query && ("#" + anchor)[1..] == anchor
  {
  }

  lemma TailRead(scheme: string, path: string, q: string, f: string)
    requires (path == "" || path[0] == '/') && '?' !in path && '#' !in path && '#' !in q
    requires (q == "" || q[0] == '?') && (f == "" || f[0] == '#')
    ensures ParseRest(scheme, (path + q) + f) ==
            Ok(UrlValue(scheme, "", 0, if path == "" then "/" else path,
                        ParseQuery(if q == "" then "" else q[1..], map[]), if f == "" then "" else f[1..]))
  {
    CutSection(path + q, '#', f);
    CutSection(path, '?', q);
    SlashFirst(path);
    assert path != "" ==> path[0..] == path;
  }

  // ---------- Parameters ----------

  /** Parameters are read from left to right, piece by piece. */
  lemma {:induction false} QueryLaw(a: string, b: string, m: map<string, string>)
    ensures ParseQuery(a + "&" + b, m) == ParseQuery(b, ParseQuery(a, m))
    decreases |a|
  {
    if '&' in a {
      var h, t := Before(a, '&'), After(a, '&');
      assert a + "&" + b == h + ['&'] + (t + "&" + b);
      CutAt(h, '&', t + "&" + b);
      QueryLaw(t, b, AddParameter(m, h));
    } else {
      assert a + "&" + b == a + ['&'] + b;
      CutAt(a, '&', b);
      OnePiece(a, m);
    }
  }

  lemma OnePiece(p: string, m: map<string, string>)
    requires '&' !in p
    ensures ParseQuery(p, m) == AddParameter(m, p)
  {
    CutNone(p, '&');
    if p != "" { assert ParseQuery("", AddParameter(m, p)) == AddParameter(m, p); }
  }

  /** A piece is cut at its first '='; without one it is a key with an empty value, and an empty piece is nothing. */
  lemma ParameterLaw(k: string, v: string, m: map<string, string>)
    requires '=' !in k && '&' !in k && '&' !in v
    ensures ParseQuery(k + "=" + v, m) == m[k := v]
    ensures ParseQuery(k, m) == if k == "" then m else m[k := ""]
  {
    OnePiece(k + "=" + v, m);
    OnePiece(k, m);
    assert k + "=" + v == k + ['='] + v;
    CutAt(k, '=', v);
    assert (k + ['='] + v)[|k|] == '=';
  }
}
