/**
 What parsing and printing a URL compute, as functions on values.
 The class in UrlClass.dfy does the same work in place and is proved equal to these.
 */
module UrlSpec {
  import opened Text

  type Port = n: nat | n < 0x1_0000

  /** The invalid_argument exceptions of the parser. */
  datatype UrlError = EmptyUrl | MalformedIPv6 | InvalidPort | PortOutOfRange

  datatype Result<+T> = Ok(value: T) | Err(error: UrlError)

  datatype UrlValue = UrlValue(
    scheme: string,
    domain: string,
    port: Port,
    path: string,
    query: map<string, string>,
    anchor: string)

  const SEPARATOR := "://"
  const STOI_MAX := 0x7FFF_FFFF

  // ---------- Parsing ----------

  function DefaultPort(scheme: string): Port {
    if scheme == "http" then 80 else if scheme == "https" then 443 else 0
  }

  /** The port of a host without one: the scheme's, else 80. */
  function ImpliedPort(scheme: string): Port {
    if DefaultPort(scheme) != 0 then DefaultPort(scheme) else 80
  }

  function ParsePortNumber(s: string): Result<Port> {
    if s == "" || !AllDigits(s) then Err(InvalidPort)
    else if Decimal(s) > STOI_MAX then Err(InvalidPort)
    else if Decimal(s) > 65535 then Err(PortOutOfRange)
    else Ok(Decimal(s))
  }

  function SchemeOf(raw: string): string {
    match Find(raw, SEPARATOR, 0)
    case Some(i) => Lower(raw[..i])
    case None => if raw != "" && raw[0] == '/' then "" else "http"
  }

  /** Where the text after the scheme starts. */
  function SchemeEnd(raw: string): (pos: nat)
    ensures pos <= |raw|
  {
    match Find(raw, SEPARATOR, 0)
    case Some(i) => i + 3
    case None => 0
  }

  /** One parameter of the query string; the later of two equal keys wins. */
  function AddParameter(m: map<string, string>, param: string): map<string, string> {
    if '=' in param then m[Before(param, '=') := After(param, '=')]
    else if param != "" then m[param := ""]
    else m
  }

  /** The getline loop over '&'. */
  function ParseQuery(s: string, m: map<string, string>): map<string, string>
    decreases |s|
  {
    if s == "" then m
    else ParseQuery(After(s, '&'), AddParameter(m, Before(s, '&')))
  }

  /** Drop "user:pass@", up to the first '@'. */
  function StripUserinfo(hostPort: string): string {
    if '@' in hostPort then After(hostPort, '@') else hostPort
  }

  /** Domain and port of an authority whose userinfo is gone. */
  function Authority(scheme: string, hostPort: string): Result<(string, Port)> {
    if hostPort == "" then Ok(("", 0))
    else if hostPort[0] == '[' then
      match FindChar(hostPort, ']', 0)
      case None => Err(MalformedIPv6)
      case Some(e) =>
        if e + 1 < |hostPort| && hostPort[e + 1] == ':' then
          match ParsePortNumber(hostPort[e + 2..])
          case Err(x) => Err(x)
          case Ok(p) => Ok((hostPort[..e + 1], p))
        else Ok((hostPort[..e + 1], ImpliedPort(scheme)))
    else
      match RFindChar(hostPort, ':')
      case None => Ok((hostPort, ImpliedPort(scheme)))
      case Some(i) =>
        match ParsePortNumber(hostPort[i + 1..])
        case Err(x) => Err(x)
        case Ok(p) => Ok((hostPort[..i], p))
  }

  function PathOf(text: string): string {
    if '/' in text then text[|Before(text, '/')|..] else "/"
  }

  /** Everything after the scheme: the first '#' ends the query, the first '?' ends the path. */
  function ParseRest(scheme: string, rest: string): Result<UrlValue> {
    var unanchored := Before(rest, '#');
    var text := Before(unanchored, '?');
    match Authority(scheme, StripUserinfo(Before(text, '/')))
    case Err(x) => Err(x)
    case Ok((domain, port)) =>
      Ok(UrlValue(scheme, domain, port, PathOf(text), ParseQuery(After(unanchored, '?'), map[]), After(rest, '#')))
  }

  function ParseUrl(raw: string): Result<UrlValue> {
    if raw == "" then Err(EmptyUrl)
    else ParseRest(SchemeOf(raw), raw[SchemeEnd(raw)..])
  }

  // ---------- Printing ----------

  predicate PortIsImplicit(scheme: string, port: Port) {
    (scheme == "http" && port == 80) || (scheme == "https" && port == 443)
  }

  function SchemeText(scheme: string): string {
    if scheme == "" then "" else scheme + SEPARATOR
  }

  function AuthorityText(scheme: string, domain: string, port: Port): string {
    if domain == "" then ""
    else if port != 0 && !PortIsImplicit(scheme, port) then domain + ":" + Digits(port)
    else domain
  }

  function ParameterText(key: string, value: string): string {
    if value == "" then key else key + "=" + value
  }

  function QueryText(keys: seq<string>, query: map<string, string>): string
    requires forall k :: k in keys ==> k in query
  {
    if keys == [] then ""
    else if |keys| == 1 then ParameterText(keys[0], query[keys[0]])
    else ParameterText(keys[0], query[keys[0]]) + "&" + QueryText(keys[1..], query)
  }

  function QuerySection(query: map<string, string>): string {
    if query == map[] then "" else "?" + QueryText(SortedKeys(query.Keys), query)
  }

  function AnchorSection(anchor: string): string {
    if anchor == "" then "" else "#" + anchor
  }

  /** What is printed after the scheme. */
  function RestText(u: UrlValue): string {
    AuthorityText(u.scheme, u.domain, u.port) + u.path + (QuerySection(u.query) + AnchorSection(u.anchor))
  }

  function PrintUrl(u: UrlValue): string {
    SchemeText(u.scheme) + RestText(u)
  }
}
