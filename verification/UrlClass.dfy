/**
 The URL object: parsing helpers that update its fields in place, and the printer.
 Every method is proved to do what UrlSpec says.
 */
module UrlClass {
  import opened Text
  import opened UrlSpec

  class URL {
    var scheme: string
    var domainName: string
    var port: Port
    var pathToResource: string
    var queryParameters: map<string, string>
    var anchor: string

    constructor ()
      ensures Value() == UrlValue("", "", 0, "/", map[], "")
    {
      scheme, domainName, port, pathToResource, queryParameters, anchor := "", "", 0, "/", map[], "";
    }

    function Value(): UrlValue
      reads this
    {
      UrlValue(scheme, domainName, port, pathToResource, queryParameters, anchor)
    }

    /** The parsing constructor; an error stands for the exception it throws. */
    method Parse(rawURL: string) returns (error: Option<UrlError>)
      requires Value() == UrlValue("", "", 0, "/", map[], "")
      modifies this
      ensures error == None <==> ParseUrl(rawURL).Ok?
      ensures error == None ==> ParseUrl(rawURL) == Ok(Value())
      ensures error != None ==> ParseUrl(rawURL) == Err(error.value)
    {
      if rawURL == "" {
        return Some(EmptyUrl);
      }
      var url := rawURL;
      var pos := ParseScheme(url);
      ghost var rest := url[pos..];
      url := ParseFragment(url, pos);
      ghost var unanchored := url[pos..];
      url := ParseQueryString(url, pos);
      ghost var text := url[pos..];
      error := ParseAuthorityAndPath(url, pos);
      StagesMakeUrl(rest, unanchored, text, Value(), error);
    }

    method ParseScheme(raw: string) returns (pos: nat)
      requires raw != ""
      modifies this`scheme
      ensures scheme == SchemeOf(raw) && pos == SchemeEnd(raw)
    {
      var schemeEnd := Find(raw, SEPARATOR, 0);
      if schemeEnd.Some? {
        scheme := Lower(raw[..schemeEnd.value]);
        return schemeEnd.value + 3;
      }
      if raw[0] == '/' {
        scheme := "";
        return 0;
      }
      scheme := "http";
      return 0;
    }

    /** Take the fragment off the working text; `url'` is the text that remains. */
    method ParseFragment(url: string, startPos: nat) returns (url': string)
      requires startPos <= |url| && anchor == ""
      modifies this`anchor
      ensures startPos <= |url'| && url'[..startPos] == url[..startPos]
      ensures url'[startPos..] == Before(url[startPos..], '#')
      ensures anchor == After(url[startPos..], '#')
    {
      url' := url;
      var anchorPos := FindChar(url, '#', startPos);
      FoundInTail(url, '#', startPos, anchorPos);
      if anchorPos.Some? {
        anchor := url[anchorPos.value + 1..];
        url' := url[..anchorPos.value];
      }
    }

    /** Take the query off the working text and store its parameters. */
    method ParseQueryString(url: string, startPos: nat) returns (url': string)
      requires startPos <= |url|
      modifies this`queryParameters
      ensures startPos <= |url'| && url'[startPos..] == Before(url[startPos..], '?')
      ensures queryParameters == ParseQuery(After(url[startPos..], '?'), old(queryParameters))
    {
      var queryPos := FindChar(url, '?', startPos);
      FoundInTail(url, '?', startPos, queryPos);
      ghost var text := After(url[startPos..], '?');
      if queryPos.None? {
        assert text == "" && ParseQuery(text, queryParameters) == queryParameters;
        return url;
      }
      var queryString := url[queryPos.value + 1..];
      url' := url[..queryPos.value];
      assert url'[startPos..] == url[startPos..queryPos.value];
      StoreParameters(queryString);
      assert queryString == text;
    }

    /** The getline loop over the query string. */
    method StoreParameters(queryString: string)
      modifies this`queryParameters
      ensures queryParameters == ParseQuery(queryString, old(queryParameters))
    {
      var stream := queryString;
      while stream != ""
        invariant ParseQuery(stream, queryParameters) == ParseQuery(queryString, old(queryParameters))
        decreases |stream|
      {
        StoreParameter(Before(stream, '&'));
        stream := After(stream, '&');
      }
    }

    method StoreParameter(param: string)
      modifies this`queryParameters
      ensures queryParameters == AddParameter(old(queryParameters), param)
    {
      var equalPos := FindChar(param, '=', 0);
      FoundInTail(param, '=', 0, equalPos);
      assert param[0..] == param;
      if equalPos.Some? {
        queryParameters := queryParameters[param[..equalPos.value] := param[equalPos.value + 1..]];
      } else if param != "" {
        queryParameters := queryParameters[param := ""];
      }
    }

    method ParseAuthorityAndPath(url: string, pos: nat) returns (error: Option<UrlError>)
      requires pos <= |url| && domainName == "" && port == 0
      modifies this`domainName, this`port, this`pathToResource
      ensures AuthorityRead(scheme, url[pos..], domainName, port, pathToResource, error)
    {
      var pathStart := FindChar(url, '/', pos);
      FoundInTail(url, '/', pos, pathStart);
      if pos < |url| && url[pos] == '/' {
        pathToResource := url[pos..];
        NoAuthority(scheme, url[pos..]);
        return None;
      }
      var hostPort: string;
      if pathStart.Some? {
        hostPort := url[pos..pathStart.value];
        pathToResource := url[pathStart.value..];
      } else {
        hostPort := url[pos..];
        pathToResource := "/";
      }
      assert hostPort == Before(url[pos..], '/') && pathToResource == PathOf(url[pos..]);
      var atPos := FindChar(hostPort, '@', 0);
      FoundInTail(hostPort, '@', 0, atPos);
      assert hostPort[0..] == hostPort;
      if atPos.Some? {
        hostPort := hostPort[atPos.value + 1..];
      }
      assert hostPort == StripUserinfo(Before(url[pos..], '/'));
      error := ParseHostPort(hostPort);
    }

    /** The rest of the authority: a bracketed literal or a host, and its port. */
    method ParseHostPort(hostPort: string) returns (error: Option<UrlError>)
      requires domainName == "" && port == 0
      modifies this`domainName, this`port
      ensures match Authority(scheme, hostPort)
              case Ok((d, p)) => error == None && domainName == d && port == p
              case Err(e) => error == Some(e)
    {
      if hostPort == "" {
        domainName, port := "", 0;
        return None;
      }
      var parsed: Result<Port>;
      if hostPort[0] == '[' {
        var ipv6End := FindChar(hostPort, ']', 0);
        if ipv6End.None? {
          return Some(MalformedIPv6);
        }
        domainName := hostPort[..ipv6End.value + 1];
        if ipv6End.value + 1 < |hostPort| && hostPort[ipv6End.value + 1] == ':' {
          parsed := ParsePortNumber(hostPort[ipv6End.value + 2..]);
        } else {
          parsed := Ok(ImpliedPort(scheme));
        }
      } else {
        var colonPos := RFindChar(hostPort, ':');
        if colonPos.Some? {
          domainName := hostPort[..colonPos.value];
          parsed := ParsePortNumber(hostPort[colonPos.value + 1..]);
        } else {
          domainName := hostPort;
          parsed := Ok(ImpliedPort(scheme));
        }
      }
      match parsed
      case Err(e) =>
        error := Some(e);
      case Ok(p) =>
        port := p;
        error := None;
    }

    /** The printer appends piece by piece to an output stream. */
    method ToString() returns (oss: string)
      ensures oss == PrintUrl(Value())
    {
      oss := "";
      if scheme != "" {
        oss := oss + scheme + "://";
      }
      assert oss == SchemeText(scheme);
      var rest := "";
      if domainName != "" {
        rest := rest + domainName;
        var isDefaultPort := (scheme == "http" && port == 80) || (scheme == "https" && port == 443);
        if port != 0 && !isDefaultPort {
          rest := rest + ":" + Digits(port);
        }
      }
      assert rest == AuthorityText(scheme, domainName, port);
      rest := rest + pathToResource;
      var query := PrintQuery();
      if anchor != "" {
        query := query + "#" + anchor;
      }
      assert query == QuerySection(queryParameters) + AnchorSection(anchor);
      oss := oss + (rest + query);
    }

    method PrintQuery() returns (oss: string)
      ensures oss == QuerySection(queryParameters)
    {
      oss := "";
      if queryParameters != map[] {
        var keys := SortedKeys(queryParameters.Keys);
        oss := PrintParameters(keys);
        oss := "?" + oss;
      }
    }

    method PrintParameters(keys: seq<string>) returns (oss: string)
      requires forall k :: k in keys ==> k in queryParameters
      ensures oss == QueryText(keys, queryParameters)
    {
      oss := "";
      var first := true;
      for i := 0 to |keys|
        invariant first <==> i == 0
        invariant oss == QueryText(keys[..i], queryParameters)
      {
        ghost var before := oss;
        if !first {
          oss := oss + "&";
        }
        ghost var joined := oss;
        oss := oss + keys[i];
        if queryParameters[keys[i]] != "" {
          oss := oss + "=" + queryParameters[keys[i]];
          AppendParameter(joined, keys[i], queryParameters[keys[i]]);
        }
        first := false;
        QueryTextSnoc(keys[..i], keys[i], queryParameters);
        assert keys[..i + 1] == keys[..i] + [keys[i]];
        assert i == 0 ==> before + "" == before;
      }
      assert keys[..|keys|] == keys;
    }
  }

  /** What reading the authority and the path of `text` leaves in the fields, or the error it ends with. */
  predicate AuthorityRead(scheme: string, text: string, domain: string, port: Port, path: string, error: Option<UrlError>) {
    match Authority(scheme, StripUserinfo(Before(text, '/')))
    case Ok((d, p)) => error == None && domain == d && port == p && path == PathOf(text)
    case Err(e) => error == Some(e)
  }

  lemma NoAuthority(scheme: string, text: string)
    requires text != "" && text[0] == '/'
    ensures Authority(scheme, StripUserinfo(Before(text, '/'))) == Ok(("", 0)) && PathOf(text) == text
  {
    assert text == "" + ['/'] + text[1..];
    CutAt("", '/', text[1..]);
    assert text[0..] == text;
  }

  /** The stages after the scheme parse the rest together. */
  lemma StagesMakeUrl(rest: string, unanchored: string, text: string, u: UrlValue, error: Option<UrlError>)
    requires unanchored == Before(rest, '#') && u.anchor == After(rest, '#')
    requires text == Before(unanchored, '?') && u.query == ParseQuery(After(unanchored, '?'), map[])
    requires AuthorityRead(u.scheme, text, u.domain, u.port, u.path, error)
    ensures ParseRest(u.scheme, rest) == if error == None then Ok(u) else Err(error.value)
  {
  }

  /** Searching from `pos` is searching the tail. */
  lemma FoundInTail(s: string, c: char, pos: nat, found: Option<nat>)
    requires pos <= |s| && found == FindChar(s, c, pos)
    ensures found.None? ==> Before(s[pos..], c) == s[pos..] && After(s[pos..], c) == "" && c !in s[pos..]
    ensures found.Some? ==> Before(s[pos..], c) == s[pos..found.value] && After(s[pos..], c) == s[found.value + 1..]
                            && c in s[pos..]
  {
    if found.None? {
      WholeTail(s, c, pos);
    } else {
      CutTail(s, c, pos, found.value);
    }
  }

  lemma WholeTail(s: string, c: char, pos: nat)
    requires pos <= |s| && forall j :: pos <= j < |s| ==> s[j] != c
    ensures Before(s[pos..], c) == s[pos..] && After(s[pos..], c) == ""
    ensures c !in s[pos..]
  {
    NotInSlice(s, c, pos, |s|);
    CutNone(s[pos..], c);
  }

  lemma CutTail(s: string, c: char, pos: nat, i: nat)
    requires pos <= i < |s| && s[i] == c && forall j :: pos <= j < i ==> s[j] != c
    ensures Before(s[pos..], c) == s[pos..i] && After(s[pos..], c) == s[i + 1..]
    ensures c in s[pos..]
  {
    NotInSlice(s, c, pos, i);
    SliceAround(s, pos, i);
    CutAt(s[pos..i], c, s[i + 1..]);
  }

  lemma NotInSlice(s: string, c: char, lo: nat, hi: nat)
    requires lo <= hi <= |s| && forall j :: lo <= j < hi ==> s[j] != c
    ensures c !in s[lo..hi]
    ensures hi == |s| ==> s[lo..hi] == s[lo..]
  {
  }

  lemma SliceAround(s: string, pos: nat, i: nat)
    requires pos <= i < |s|
    ensures s[pos..] == s[pos..i] + [s[i]] + s[i + 1..]
  {
  }

  lemma AppendParameter(oss: string, key: string, value: string)
    ensures oss + key + "=" + value == oss + (key + "=" + value)
  {
  }

  /** Appending one more parameter to a printed query. */
  lemma {:induction false} QueryTextSnoc(ks: seq<string>, k: string, q: map<string, string>)
    requires k in q && forall x :: x in ks ==> x in q
    ensures QueryText(ks + [k], q) == QueryText(ks, q) + (if ks == [] then "" else "&") + ParameterText(k, q[k])
    decreases |ks|
  {
    var p := ParameterText(k, q[k]);
    if ks == [] {
      assert [] + [k] == [k] && "" + "" + p == p;
    } else {
      var p0, rest := ParameterText(ks[0], q[ks[0]]), ks[1..];
      assert (ks + [k])[1..] == rest + [k];
      QueryTextSnoc(rest, k, q);
      assert QueryText(ks + [k], q) == p0 + "&" + QueryText(rest + [k], q);
      Regroup(p0, QueryText(rest, q), if rest == [] then "" else "&", p);
      if rest == [] {
        assert QueryText(ks, q) == p0;
        assert p0 + "&" + "" == p0 + "&";
        assert "" + "" == "";
      }
    }
  }

  lemma Regroup(p0: string, t: string, sep: string, p: string)
    ensures p0 + "&" + (t + sep + p) == (p0 + "&" + t) + sep + p
  {
  }
}
