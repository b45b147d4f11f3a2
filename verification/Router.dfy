/**
 Path patterns, the route table and the lookup that serves the first matching route.
 */
module Routing {
  import opened Text

  type Params = map<string, string>

  /** Handlers and middleware are known by the identity of the object that was registered. */
  type HandlerId = nat
  type MiddlewareId = nat

  datatype Route = Route(
    pathPattern: string,
    verb: string,
    handler: Option<HandlerId>,
    middleware: seq<MiddlewareId>,
    isRegex: bool,
    paramKeys: seq<string>)

  // ---------- Segments ----------

  /** A piece between two slashes counts unless it is empty. */
  function Piece(s: string): seq<string> { if s == "" then [] else [s] }

  /** The non-empty pieces of a path between slashes. */
  function Segments(path: string): seq<string>
    decreases |path|
  {
    if path == "" then [] else Piece(Before(path, '/')) + Segments(After(path, '/'))
  }

  /** The done segments and those of the text still to be split make up all of them. */
  ghost predicate Pending(path: string, start: nat, done: seq<string>, all: seq<string>) {
    start <= |path| && done + Segments(path[start..]) == all
  }

  method SplitPath(path: string) returns (segments: seq<string>)
    ensures segments == Segments(path)
  {
    segments := [];
    var start, found := 0, FindChar(path, '/', 0);
    ghost var all := Segments(path);
    NothingSplit(path);
    while found.Some?
      invariant Pending(path, start, segments, all) && found == FindChar(path, '/', start)
      decreases |path| - start
    {
      var end := found.value;
      PieceFound(path, start, end, segments, all);
      segments := AddPiece(segments, path[start..end]);
      start := end + 1;
      found := FindChar(path, '/', start);
    }
    LastPiece(path, start, segments, all);
    segments := AddPiece(segments, path[start..]);
  }

  method AddPiece(segments: seq<string>, piece: string) returns (r: seq<string>)
    ensures r == segments + Piece(piece)
  {
    r := segments;
    if |piece| > 0 {
      r := r + [piece];
    }
  }

  lemma NothingSplit(path: string)
    ensures Pending(path, 0, [], Segments(path))
  {
    assert path[0..] == path;
  }

  lemma PieceFound(path: string, start: nat, end: nat, done: seq<string>, all: seq<string>)
    requires Pending(path, start, done, all) && FindChar(path, '/', start) == Some(end)
    ensures Pending(path, end + 1, done + Piece(path[start..end]), all)
  {
    PieceSplits(path, start, end);
    Append(done, Piece(path[start..end]), Segments(path[end + 1..]));
  }

  lemma PieceSplits(path: string, start: nat, end: nat)
    requires start <= |path| && FindChar(path, '/', start) == Some(end)
    ensures Segments(path[start..]) == Piece(path[start..end]) + Segments(path[end + 1..])
  {
    assert path[start..] == path[start..end] + ['/'] + path[end + 1..];
    FirstPiece(path[start..end], path[end + 1..]);
  }

  lemma LastPiece(path: string, start: nat, done: seq<string>, all: seq<string>)
    requires Pending(path, start, done, all) && FindChar(path, '/', start).None?
    ensures all == done + Piece(path[start..])
  {
    OnePiece(path[start..]);
  }

  lemma Append(done: seq<string>, piece: seq<string>, rest: seq<string>)
    ensures done + (piece + rest) == (done + piece) + rest
    ensures done + [] == done
  {
  }

  lemma FirstPiece(h: string, t: string)
    requires '/' !in h
    ensures Segments(h + ['/'] + t) == Piece(h) + Segments(t)
  {
    CutAt(h, '/', t);
    assert h + ['/'] + t != "";
  }

  lemma OnePiece(h: string)
    requires '/' !in h
    ensures Segments(h) == Piece(h)
  {
    CutNone(h, '/');
  }

  /** Splitting at a slash splits the segments. */
  lemma {:induction false} SegmentsConcat(a: string, b: string)
    ensures Segments(a + "/" + b) == Segments(a) + Segments(b)
    decreases |a|
  {
    if '/' in a {
      var h, t := Before(a, '/'), After(a, '/');
      SegmentsConcat(t, b);
      FirstPiece(h, t + "/" + b);
      FirstPiece(h, t);
      MoveSlash(h, t, b);
      Append(Piece(h), Segments(t), Segments(b));
    } else {
      FirstPiece(a, b);
      OnePiece(a);
    }
  }

  lemma MoveSlash(h: string, t: string, b: string)
    ensures (h + ['/'] + t) + "/" + b == h + ['/'] + (t + "/" + b)
  {
  }

  /** Two texts put together without a slash at the seam lose one segment. */
  lemma {:induction false} SegmentsMerge(a: string, b: string)
    requires a != "" && b != "" && a[|a| - 1] != '/' && b[0] != '/'
    ensures |Segments(a + b)| == |Segments(a)| + |Segments(b)| - 1
    decreases |a|
  {
    if '/' in a {
      var h, t := Before(a, '/'), After(a, '/');
      assert a + b == h + ['/'] + (t + b);
      CutAt(h, '/', t + b);
      assert t != "" && t[|t| - 1] == a[|a| - 1];
      SegmentsMerge(t, b);
    } else {
      CutNone(a, '/');
      if '/' in b {
        var h, t := Before(b, '/'), After(b, '/');
        assert a + b == (a + h) + ['/'] + t;
        CutAt(a + h, '/', t);
      } else {
        CutNone(b, '/');
        CutNone(a + b, '/');
      }
    }
  }

  lemma Rejoin(a: string, b: string)
    ensures b != "" && b[0] == '/' ==> a + b == a + "/" + b[1..]
    ensures a != "" && a[|a| - 1] == '/' ==> a + b == a[..|a| - 1] + "/" + b && a == a[..|a| - 1] + "/" + ""
  {
  }

  lemma SlashAtSeam(a: string, b: string)
    requires a != "" && b != "" && (a[|a| - 1] == '/' || b[0] == '/')
    ensures Segments(a + b) == Segments(a) + Segments(b)
  {
    Rejoin(a, b);
    if b[0] == '/' {
      SegmentsConcat(a, b[1..]);
      LeadingSlash(b);
    } else {
      SegmentsConcat(a[..|a| - 1], b);
      SegmentsConcat(a[..|a| - 1], "");
      Append(Segments(a[..|a| - 1]), [], []);
    }
  }

  lemma LeadingSlash(b: string)
    requires b != "" && b[0] == '/'
    ensures Segments(b) == Segments(b[1..])
  {
    SegmentsConcat("", b[1..]);
    assert b == "" + "/" + b[1..];
  }

  /** Concatenation splits into segments exactly when a slash, or nothing, stands at the seam. */
  lemma SegmentsSeamIff(a: string, b: string)
    ensures Segments(a + b) == Segments(a) + Segments(b)
            <==> a == "" || b == "" || a[|a| - 1] == '/' || b[0] == '/'
  {
    if a == "" || b == "" {
      assert a + b == if a == "" then b else a;
    } else if a[|a| - 1] == '/' || b[0] == '/' {
      SlashAtSeam(a, b);
    } else {
      SegmentsMerge(a, b);
    }
  }

  // ---------- Matching ----------

  predicate IsParam(segment: string) { segment != "" && segment[0] == ':' }

  function KeyOf(segment: string): string
    requires IsParam(segment)
  {
    segment[1..]
  }

  /** Match the segments in order; a parameter stores the segment under its key. */
  function MatchSegments(pat: seq<string>, segs: seq<string>, m: Params): Option<Params> {
    if |pat| != |segs| then None
    else if pat == [] then Some(m)
    else if IsParam(pat[0]) then MatchSegments(pat[1..], segs[1..], m[KeyOf(pat[0]) := segs[0]])
    else if pat[0] != segs[0] then None
    else MatchSegments(pat[1..], segs[1..], m)
  }

  function MatchPath(pattern: string, path: string): Option<Params> {
    MatchSegments(Segments(pattern), Segments(path), map[])
  }

  method MatchPattern(pattern: string, path: string) returns (matched: bool, params: Params)
    ensures matched <==> MatchPath(pattern, path).Some?
    ensures matched ==> MatchPath(pattern, path) == Some(params)
  {
    params := map[];
    var patSegs := SplitPath(pattern);
    var pathSegs := SplitPath(path);
    if |patSegs| != |pathSegs| {
      return false, params;
    }
    ghost var answer := MatchPath(pattern, path);
    assert patSegs[0..] == patSegs && pathSegs[0..] == pathSegs;
    for i := 0 to |patSegs|
      invariant MatchSegments(patSegs[i..], pathSegs[i..], params) == answer
    {
      MatchStep(patSegs, pathSegs, i, params);
      if patSegs[i] != "" && patSegs[i][0] == ':' {
        params := params[patSegs[i][1..] := pathSegs[i]];
      } else if patSegs[i] != pathSegs[i] {
        return false, params;
      }
    }
    return true, params;
  }

  lemma MatchStep(pat: seq<string>, segs: seq<string>, i: nat, m: Params)
    requires |pat| == |segs| && i < |pat|
    ensures MatchSegments(pat[i..], segs[i..], m) ==
            if IsParam(pat[i]) then MatchSegments(pat[i + 1..], segs[i + 1..], m[KeyOf(pat[i]) := segs[i]])
            else if pat[i] != segs[i] then None
            else MatchSegments(pat[i + 1..], segs[i + 1..], m)
  {
    assert pat[i..][1..] == pat[i + 1..] && segs[i..][1..] == segs[i + 1..];
  }

  // ---------- Matching inverts instantiation ----------

  ghost function Keys(pat: seq<string>): set<string> {
    set i | 0 <= i < |pat| && IsParam(pat[i]) :: KeyOf(pat[i])
  }

  /** The pattern with its parameters replaced by their bindings. */
  function Instantiate(pat: seq<string>, b: Params): (r: seq<string>)
    requires forall i :: 0 <= i < |pat| && IsParam(pat[i]) ==> KeyOf(pat[i]) in b
    ensures |r| == |pat|
  {
    seq(|pat|, i requires 0 <= i < |pat| => if IsParam(pat[i]) then b[KeyOf(pat[i])] else pat[i])
  }

  /** Places with the same key hold the same segment. */
  predicate Agree(pat: seq<string>, segs: seq<string>) {
    |pat| == |segs|
    && forall i, j :: 0 <= i < j < |pat| && IsParam(pat[i]) && IsParam(pat[j]) && KeyOf(pat[i]) == KeyOf(pat[j])
                      ==> segs[i] == segs[j]
  }

  predicate DistinctKeys(pat: seq<string>) {
    forall i, j :: 0 <= i < j < |pat| && IsParam(pat[i]) && IsParam(pat[j]) ==> KeyOf(pat[i]) != KeyOf(pat[j])
  }

  /** The literal places agree. */
  predicate LiteralsAgree(pat: seq<string>, segs: seq<string>) {
    |pat| == |segs| && forall i :: 0 <= i < |pat| && !IsParam(pat[i]) ==> pat[i] == segs[i]
  }

  /** The binding of a key is the segment at its last place; other keys keep theirs. */
  ghost predicate BindsLast(pat: seq<string>, segs: seq<string>, m: Params, b: Params)
    requires |pat| == |segs|
  {
    && b.Keys == m.Keys + Keys(pat)
    && (forall i :: 0 <= i < |pat| && IsParam(pat[i])
          && (forall j :: i < j < |pat| && IsParam(pat[j]) ==> KeyOf(pat[j]) != KeyOf(pat[i]))
          ==> b[KeyOf(pat[i])] == segs[i])
    && forall k :: k in m && k !in Keys(pat) ==> b[k] == m[k]
  }

  lemma KeysStep(pat: seq<string>)
    requires pat != []
    ensures Keys(pat) == Keys(pat[1..]) + if IsParam(pat[0]) then {KeyOf(pat[0])} else {}
  {
    forall i | 0 < i < |pat| && IsParam(pat[i]) ensures KeyOf(pat[i]) in Keys(pat[1..]) {
      assert pat[i] == pat[1..][i - 1];
    }
    forall i | 0 <= i < |pat[1..]| && IsParam(pat[1..][i]) ensures KeyOf(pat[1..][i]) in Keys(pat) {
      assert pat[i + 1] == pat[1..][i];
    }
  }

  lemma BindsStep(pat: seq<string>, segs: seq<string>, m: Params, b: Params)
    requires |pat| == |segs| && pat != []
    requires BindsLast(pat[1..], segs[1..], if IsParam(pat[0]) then m[KeyOf(pat[0]) := segs[0]] else m, b)
    ensures BindsLast(pat, segs, m, b)
  {
    KeysStep(pat);
    var rest := pat[1..];
    forall i | 0 <= i < |pat| && IsParam(pat[i])
               && (forall j :: i < j < |pat| && IsParam(pat[j]) ==> KeyOf(pat[j]) != KeyOf(pat[i]))
      ensures b[KeyOf(pat[i])] == segs[i]
    {
      if i > 0 {
        assert rest[i - 1] == pat[i] && segs[1..][i - 1] == segs[i];
        assert forall j :: i - 1 < j < |rest| && IsParam(rest[j]) ==> rest[j] == pat[j + 1];
      } else {
        assert forall j :: 0 <= j < |rest| && IsParam(rest[j]) ==> rest[j] == pat[j + 1];
        assert KeyOf(pat[0]) !in Keys(rest);
      }
    }
  }

  /** A match succeeds exactly on agreeing literals, and binds each key to its last place. */
  lemma {:induction false} MatchMeaning(pat: seq<string>, segs: seq<string>, m: Params)
    ensures MatchSegments(pat, segs, m).Some? <==> LiteralsAgree(pat, segs)
    ensures match MatchSegments(pat, segs, m)
            case Some(b) => BindsLast(pat, segs, m, b)
            case None => true
  {
    if |pat| == |segs| && pat != [] {
      var m' := if IsParam(pat[0]) then m[KeyOf(pat[0]) := segs[0]] else m;
      MatchMeaning(pat[1..], segs[1..], m');
      assert LiteralsAgree(pat, segs) <==>
             LiteralsAgree(pat[1..], segs[1..]) && (IsParam(pat[0]) || pat[0] == segs[0]) by {
        assert forall i :: 0 < i < |pat| ==> pat[i] == pat[1..][i - 1] && segs[i] == segs[1..][i - 1];
      }
      if MatchSegments(pat, segs, m).Some? {
        BindsStep(pat, segs, m, MatchSegments(pat, segs, m).value);
      }
    }
  }

  /** The places that hold a key, seen from its last one. */
  lemma {:induction false} LastPlace(pat: seq<string>, i: nat) returns (j: nat)
    requires i < |pat| && IsParam(pat[i])
    ensures i <= j < |pat| && IsParam(pat[j]) && KeyOf(pat[j]) == KeyOf(pat[i])
    ensures forall k :: j < k < |pat| && IsParam(pat[k]) ==> KeyOf(pat[k]) != KeyOf(pat[j])
    decreases |pat| - i
  {
    if k :| i < k < |pat| && IsParam(pat[k]) && KeyOf(pat[k]) == KeyOf(pat[i]) {
      j := LastPlace(pat, k);
    } else {
      j := i;
    }
  }

  /** Matching is the inverse of instantiation: a match with bindings `b` in which equal keys
      agree is the same as the segments being the pattern filled in with `b`. */
  lemma MatchIffInstance(pat: seq<string>, segs: seq<string>, b: Params)
    ensures MatchSegments(pat, segs, map[]) == Some(b) && Agree(pat, segs)
            <==> b.Keys == Keys(pat) && segs == Instantiate(pat, b)
  {
    MatchMeaning(pat, segs, map[]);
    if MatchSegments(pat, segs, map[]) == Some(b) && Agree(pat, segs) {
      forall i | 0 <= i < |pat| ensures segs[i] == Instantiate(pat, b)[i] {
        if IsParam(pat[i]) {
          var j := LastPlace(pat, i);
          assert segs[i] == segs[j];
        }
      }
    } else if b.Keys == Keys(pat) && segs == Instantiate(pat, b) {
      assert LiteralsAgree(pat, segs);
      BindingsDetermined(pat, segs, MatchSegments(pat, segs, map[]).value, b);
    }
  }

  lemma BindingsDetermined(pat: seq<string>, segs: seq<string>, a: Params, b: Params)
    requires |pat| == |segs| && BindsLast(pat, segs, map[], a)
    requires b.Keys == Keys(pat) && segs == Instantiate(pat, b)
    ensures a == b
  {
    forall k | k in Keys(pat) ensures a[k] == b[k] {
      var i :| 0 <= i < |pat| && IsParam(pat[i]) && KeyOf(pat[i]) == k;
      var j := LastPlace(pat, i);
      assert segs[j] == b[k];
    }
  }

  lemma DistinctAgree(pat: seq<string>, segs: seq<string>)
    requires DistinctKeys(pat) && |pat| == |segs|
    ensures Agree(pat, segs)
  {
  }

  /** With distinct keys a path matches with bindings `b` if and only if it is the pattern filled in with `b`. */
  lemma MatchInvertsInstantiation(pattern: string, path: string, b: Params)
    requires DistinctKeys(Segments(pattern))
    ensures MatchPath(pattern, path) == Some(b)
            <==> b.Keys == Keys(Segments(pattern)) && Segments(path) == Instantiate(Segments(pattern), b)
  {
    MatchMeaning(Segments(pattern), Segments(path), map[]);
    if |Segments(pattern)| == |Segments(path)| {
      DistinctAgree(Segments(pattern), Segments(path));
    }
    MatchIffInstance(Segments(pattern), Segments(path), b);
  }

  // ---------- Paths from segments ----------

  function PathFrom(segs: seq<string>): string {
    if segs == [] then "" else "/" + segs[0] + PathFrom(segs[1..])
  }

  predicate IsSegment(s: string) { s != "" && '/' !in s }

  lemma PathStep(s: string, rest: string)
    requires IsSegment(s) && (rest == "" || rest[0] == '/')
    ensures Segments("/" + s + rest) == [s] + Segments(rest)
  {
    assert "/" + s + rest == "" + ['/'] + (s + rest);
    FirstPiece("", s + rest);
    OnePiece(s);
    SegmentsSeamIff(s, rest);
  }

  lemma {:induction false} SegmentsOfPath(segs: seq<string>)
    requires forall i :: 0 <= i < |segs| ==> IsSegment(segs[i])
    ensures Segments(PathFrom(segs)) == segs
  {
    if segs != [] {
      PathStep(segs[0], PathFrom(segs[1..]));
      SegmentsOfPath(segs[1..]);
      assert segs == [segs[0]] + segs[1..];
    }
  }

  lemma {:induction false} SegmentsAreSegments(path: string)
    ensures forall i :: 0 <= i < |Segments(path)| ==> IsSegment(Segments(path)[i])
    decreases |path|
  {
    if path != "" { SegmentsAreSegments(After(path, '/')); }
  }

  /** Filling the parameters of a pattern with segments gives a path that matches with exactly those bindings. */
  lemma InstanceMatches(pattern: string, b: Params)
    requires b.Keys == Keys(Segments(pattern)) && forall k :: k in b ==> IsSegment(b[k])
    ensures MatchPath(pattern, PathFrom(Instantiate(Segments(pattern), b))) == Some(b)
  {
    var pat := Segments(pattern);
    var segs := Instantiate(pat, b);
    SegmentsAreSegments(pattern);
    SegmentsOfPath(segs);
    MatchIffInstance(pat, segs, b);
  }

  lemma TwoSegments(a: string, b: string)
    requires IsSegment(a) && IsSegment(b)
    ensures PathFrom([a, b]) == "/" + a + ("/" + b) && Segments(PathFrom([a, b])) == [a, b]
  {
    SegmentsOfPath([a, b]);
    assert [a, b][1..] == [b] && [b][1..] == [];
    assert PathFrom([b]) == "/" + b + "" == "/" + b;
  }

  lemma RepeatedKeyBinds(p: string, x: string, y: string)
    requires IsParam(p)
    ensures MatchSegments([p, p], [x, y], map[]) == Some(map[KeyOf(p) := y])
    ensures Instantiate([p, p], map[KeyOf(p) := y]) == [y, y]
  {
    var b := map[KeyOf(p) := x];
    assert [p, p][1..] == [p] && [x, y][1..] == [y] && [p][1..] == [] && [y][1..] == [];
    assert b[KeyOf(p) := y] == map[KeyOf(p) := y];
    assert MatchSegments([p], [y], b) == MatchSegments([], [], b[KeyOf(p) := y]);
    assert MatchSegments([p, p], [x, y], map[]) == MatchSegments([p], [y], b);
  }

  /** With a repeated key a match need not be an instance: a pattern and a path whose bindings give another path back. */
  lemma RepeatedKeyLosesSegment(p: string, x: string, y: string)
    requires IsParam(p) && IsSegment(p) && IsSegment(x) && IsSegment(y) && x != y
    ensures var pattern, path, b := "/" + p + ("/" + p), "/" + x + ("/" + y), map[KeyOf(p) := y];
            && Segments(pattern) == [p, p] && MatchPath(pattern, path) == Some(b)
            && PathFrom(Instantiate(Segments(pattern), b)) == "/" + y + ("/" + y) != path
  {
    TwoSegments(p, p);
    TwoSegments(x, y);
    TwoSegments(y, y);
    RepeatedKeyBinds(p, x, y);
    assert [x, y][0] != [y, y][0];
  }

  // ---------- The route table ----------

  /** The outcome of a regular expression on a path; a bad expression throws. */
  datatype RegexOutcome = BadRegex | NoRegexMatch | RegexMatch(groups: seq<string>)

  type RegexMatcher = (string, string) -> RegexOutcome

  datatype Lookup = Threw | NotFound | Found(index: nat, params: Params)

  datatype Candidate = Bad | Unmatched | Matched(params: Params)

  /** The groups of a match stored under the route's keys, as many as there are of both. */
  function StoreGroups(m: Params, keys: seq<string>, groups: seq<string>): Params
    decreases |keys|
  {
    if keys == [] || groups == [] then m
    else StoreGroups(m[keys[0] := groups[0]], keys[1..], groups[1..])
  }

  /** A parameter that is not among the keys with a group stays as it was. */
  lemma {:induction false} OthersKept(m: Params, keys: seq<string>, groups: seq<string>, k: string)
    requires forall j :: 0 <= j < |keys| && j < |groups| ==> keys[j] != k
    ensures var r := StoreGroups(m, keys, groups);
            (k in r <==> k in m) && (k in m ==> r[k] == m[k])
    decreases |keys|
  {
    if keys != [] && groups != [] { OthersKept(m[keys[0] := groups[0]], keys[1..], groups[1..], k); }
  }

  /** A key gets the group at the last place where it stands, among the places that have a group. */
  lemma {:induction false} LastGroupStays(m: Params, keys: seq<string>, groups: seq<string>, i: nat)
    requires i < |keys| && i < |groups|
    requires forall j :: i < j < |keys| && j < |groups| ==> keys[j] != keys[i]
    ensures var r := StoreGroups(m, keys, groups); keys[i] in r && r[keys[i]] == groups[i]
    decreases |keys|
  {
    var m' := m[keys[0] := groups[0]];
    if i == 0 {
      OthersKept(m', keys[1..], groups[1..], keys[0]);
    } else {
      LastGroupStays(m', keys[1..], groups[1..], i - 1);
    }
  }

  /** One route tried on its own; a regular expression adds to the parameters it is given. */
  function TryRoute(r: Route, path: string, verb: string, regex: RegexMatcher, given: Params): Candidate {
    if r.verb != verb then Unmatched
    else if r.isRegex then
      match regex(r.pathPattern, path)
      case BadRegex => Bad
      case NoRegexMatch => Unmatched
      case RegexMatch(groups) => Matched(StoreGroups(given, r.paramKeys, groups))
    else
      match MatchPath(r.pathPattern, path)
      case None => Unmatched
      case Some(b) => Matched(b)
  }

  /** The first route that is not passed over decides. */
  function FirstRoute(routes: seq<Route>, path: string, verb: string, regex: RegexMatcher, given: Params): (r: Lookup)
    ensures r.Found? ==> r.index < |routes|
    decreases |routes|
  {
    if routes == [] then NotFound
    else
      match TryRoute(routes[0], path, verb, regex, given)
      case Bad => Threw
      case Matched(b) => Found(0, b)
      case Unmatched =>
        match FirstRoute(routes[1..], path, verb, regex, given)
        case Found(i, b) => Found(i + 1, b)
        case other => other
  }

  /** A route that neither matches nor throws is passed over. */
  predicate PassedOver(r: Route, path: string, verb: string, regex: RegexMatcher, given: Params) {
    TryRoute(r, path, verb, regex, given).Unmatched?
  }

  /** The lookup stops at the least route that is not passed over, and reports what that one route gives. */
  lemma {:induction false} FirstRouteMeaning(routes: seq<Route>, path: string, verb: string, regex: RegexMatcher,
                                             given: Params)
    ensures match FirstRoute(routes, path, verb, regex, given)
            case Found(i, b) =>
              && i < |routes| && TryRoute(routes[i], path, verb, regex, given) == Matched(b)
              && forall j :: 0 <= j < i ==> PassedOver(routes[j], path, verb, regex, given)
            case NotFound => forall j :: 0 <= j < |routes| ==> PassedOver(routes[j], path, verb, regex, given)
            case Threw =>
              exists i :: 0 <= i < |routes| && TryRoute(routes[i], path, verb, regex, given).Bad?
                          && forall j :: 0 <= j < i ==> PassedOver(routes[j], path, verb, regex, given)
    decreases |routes|
  {
    if routes != [] && PassedOver(routes[0], path, verb, regex, given) {
      var rest := routes[1..];
      FirstRouteMeaning(rest, path, verb, regex, given);
      assert forall j :: 0 < j < |routes| ==> routes[j] == rest[j - 1];
      if FirstRoute(rest, path, verb, regex, given) == Threw {
        var i :| 0 <= i < |rest| && TryRoute(rest[i], path, verb, regex, given).Bad?
                 && forall j :: 0 <= j < i ==> PassedOver(rest[j], path, verb, regex, given);
        assert TryRoute(routes[i + 1], path, verb, regex, given).Bad?;
      }
    }
  }

  /** A route is served if and only if it matches and every route before it is passed over. */
  lemma FoundIffLeast(routes: seq<Route>, path: string, verb: string, regex: RegexMatcher, given: Params,
                      i: nat, b: Params)
    ensures FirstRoute(routes, path, verb, regex, given) == Found(i, b)
            <==> i < |routes| && TryRoute(routes[i], path, verb, regex, given) == Matched(b)
                 && forall j :: 0 <= j < i ==> PassedOver(routes[j], path, verb, regex, given)
  {
    FirstRouteMeaning(routes, path, verb, regex, given);
    match FirstRoute(routes, path, verb, regex, given)
    case Found(k, c) => assert k == i || k < i || i < k;
    case NotFound =>
    case Threw =>
  }

  lemma NothingFound(routes: seq<Route>, path: string, verb: string, regex: RegexMatcher, given: Params)
    requires forall i :: 0 <= i < |routes| ==> PassedOver(routes[i], path, verb, regex, given)
    ensures FirstRoute(routes, path, verb, regex, given) == NotFound
  {
    FirstRouteMeaning(routes, path, verb, regex, given);
  }

  lemma BadIsThrown(routes: seq<Route>, path: string, verb: string, regex: RegexMatcher, given: Params, i: nat)
    requires i < |routes| && TryRoute(routes[i], path, verb, regex, given).Bad?
    requires forall j :: 0 <= j < i ==> PassedOver(routes[j], path, verb, regex, given)
    ensures FirstRoute(routes, path, verb, regex, given) == Threw
  {
    FirstRouteMeaning(routes, path, verb, regex, given);
  }

  /** The answer of a table of `n` routes, or else that of the routes behind it. */
  function OrElse(answer: Lookup, n: nat, later: Lookup): Lookup {
    if answer != NotFound then answer
    else match later case Found(i, b) => Found(n + i, b) case other => other
  }

  /** Routes added later never change an answer that the earlier ones give. */
  lemma {:induction false} LaterRoutesDoNotInterfere(routes: seq<Route>, more: seq<Route>, path: string, verb: string,
                                                     regex: RegexMatcher, given: Params)
    ensures FirstRoute(routes + more, path, verb, regex, given)
            == OrElse(FirstRoute(routes, path, verb, regex, given), |routes|, FirstRoute(more, path, verb, regex, given))
    decreases |routes|
  {
    if routes == [] {
      assert routes + more == more;
    } else {
      assert (routes + more)[1..] == routes[1..] + more;
      LaterRoutesDoNotInterfere(routes[1..], more, path, verb, regex, given);
    }
  }

  // ---------- What the lookup answers, route by route ----------

  /** The keys that have a group. */
  ghost function Stored(keys: seq<string>, groups: seq<string>): set<string> {
    set i | 0 <= i < |keys| && i < |groups| :: keys[i]
  }

  /** Each key has the group at its last place that has one; other parameters are as they were. */
  ghost predicate GroupsBound(m: Params, keys: seq<string>, groups: seq<string>, b: Params) {
    && b.Keys == m.Keys + Stored(keys, groups)
    && (forall i :: 0 <= i < |keys| && i < |groups|
          && (forall j :: i < j < |keys| && j < |groups| ==> keys[j] != keys[i])
          ==> b[keys[i]] == groups[i])
    && forall k :: k in m && k !in Stored(keys, groups) ==> b[k] == m[k]
  }

  /** The last place of a key among those that have a group. */
  lemma LastStored(keys: seq<string>, groups: seq<string>, i: nat) returns (last: nat)
    requires i < |keys| && i < |groups|
    ensures i <= last < |keys| && last < |groups| && keys[last] == keys[i]
    ensures forall j :: last < j < |keys| && j < |groups| ==> keys[j] != keys[last]
    decreases |keys| - i
  {
    if j :| i < j < |keys| && j < |groups| && keys[j] == keys[i] {
      last := LastStored(keys, groups, j);
    } else {
      last := i;
    }
  }

  lemma StoredHeld(m: Params, keys: seq<string>, groups: seq<string>, k: string)
    ensures k in StoreGroups(m, keys, groups) <==> k in m || k in Stored(keys, groups)
    ensures k in m && k !in Stored(keys, groups) ==> StoreGroups(m, keys, groups)[k] == m[k]
  {
    if k in Stored(keys, groups) {
      var i :| 0 <= i < |keys| && i < |groups| && keys[i] == k;
      var last := LastStored(keys, groups, i);
      LastGroupStays(m, keys, groups, last);
    } else {
      OthersKept(m, keys, groups, k);
    }
  }

  lemma StoreGroupsBinds(m: Params, keys: seq<string>, groups: seq<string>)
    ensures GroupsBound(m, keys, groups, StoreGroups(m, keys, groups))
  {
    var b := StoreGroups(m, keys, groups);
    forall i | 0 <= i < |keys| && i < |groups|
               && (forall j :: i < j < |keys| && j < |groups| ==> keys[j] != keys[i])
      ensures keys[i] in b && b[keys[i]] == groups[i]
    {
      LastGroupStays(m, keys, groups, i);
    }
    forall k
      ensures k in b <==> k in m || k in Stored(keys, groups)
      ensures k in m && k !in Stored(keys, groups) ==> b[k] == m[k]
    {
      StoredHeld(m, keys, groups, k);
    }
  }

  lemma GroupsBoundOnce(m: Params, keys: seq<string>, groups: seq<string>, a: Params, b: Params)
    requires GroupsBound(m, keys, groups, a) && GroupsBound(m, keys, groups, b)
    ensures a == b
  {
    forall k | k in Stored(keys, groups) ensures a[k] == b[k] {
      var i :| 0 <= i < |keys| && i < |groups| && keys[i] == k;
      var last := LastStored(keys, groups, i);
    }
  }

  lemma BindsLastOnce(pat: seq<string>, segs: seq<string>, m: Params, a: Params, b: Params)
    requires |pat| == |segs| && BindsLast(pat, segs, m, a) && BindsLast(pat, segs, m, b)
    ensures a == b
  {
    forall k | k in Keys(pat) ensures a[k] == b[k] {
      var i :| 0 <= i < |pat| && IsParam(pat[i]) && KeyOf(pat[i]) == k;
      var last := LastPlace(pat, i);
    }
  }

  /** The route has the verb, and its pattern or expression matches the path and binds `b`. */
  ghost predicate Serves(r: Route, path: string, verb: string, regex: RegexMatcher, given: Params, b: Params) {
    && r.verb == verb
    && if r.isRegex then
         exists groups :: regex(r.pathPattern, path) == RegexMatch(groups) && GroupsBound(given, r.paramKeys, groups, b)
       else
         LiteralsAgree(Segments(r.pathPattern), Segments(path))
         && BindsLast(Segments(r.pathPattern), Segments(path), map[], b)
  }

  /** The route has another verb, or its pattern or expression does not match. */
  predicate Skipped(r: Route, path: string, verb: string, regex: RegexMatcher) {
    || r.verb != verb
    || if r.isRegex then regex(r.pathPattern, path) == NoRegexMatch
       else !LiteralsAgree(Segments(r.pathPattern), Segments(path))
  }

  /** The route has the verb, and its regular expression is malformed. */
  predicate Breaks(r: Route, path: string, verb: string, regex: RegexMatcher) {
    r.verb == verb && r.isRegex && regex(r.pathPattern, path) == BadRegex
  }

  lemma TryPlainMeaning(r: Route, path: string, verb: string, regex: RegexMatcher, given: Params, b: Params)
    requires !r.isRegex
    ensures TryRoute(r, path, verb, regex, given) == Matched(b) <==> Serves(r, path, verb, regex, given, b)
    ensures PassedOver(r, path, verb, regex, given) <==> Skipped(r, path, verb, regex)
    ensures !TryRoute(r, path, verb, regex, given).Bad?
  {
    var pat, segs := Segments(r.pathPattern), Segments(path);
    MatchMeaning(pat, segs, map[]);
    if LiteralsAgree(pat, segs) && BindsLast(pat, segs, map[], b) {
      BindsLastOnce(pat, segs, map[], MatchSegments(pat, segs, map[]).value, b);
    }
  }

  lemma TryRegexMeaning(r: Route, path: string, verb: string, regex: RegexMatcher, given: Params, b: Params)
    requires r.isRegex
    ensures TryRoute(r, path, verb, regex, given) == Matched(b) <==> Serves(r, path, verb, regex, given, b)
    ensures PassedOver(r, path, verb, regex, given) <==> Skipped(r, path, verb, regex)
    ensures TryRoute(r, path, verb, regex, given).Bad? <==> Breaks(r, path, verb, regex)
  {
    match regex(r.pathPattern, path)
    case RegexMatch(groups) =>
      StoreGroupsBinds(given, r.paramKeys, groups);
      if GroupsBound(given, r.paramKeys, groups, b) {
        GroupsBoundOnce(given, r.paramKeys, groups, b, StoreGroups(given, r.paramKeys, groups));
      }
    case _ =>
  }

  lemma TryMeaning(r: Route, path: string, verb: string, regex: RegexMatcher, given: Params, b: Params)
    ensures TryRoute(r, path, verb, regex, given) == Matched(b) <==> Serves(r, path, verb, regex, given, b)
    ensures PassedOver(r, path, verb, regex, given) <==> Skipped(r, path, verb, regex)
    ensures TryRoute(r, path, verb, regex, given).Bad? <==> Breaks(r, path, verb, regex)
  {
    if r.isRegex { TryRegexMeaning(r, path, verb, regex, given, b); } else { TryPlainMeaning(r, path, verb, regex, given, b); }
  }

  lemma PassedOverMeaning(routes: seq<Route>, path: string, verb: string, regex: RegexMatcher, given: Params)
    ensures forall j :: 0 <= j < |routes| ==>
              (PassedOver(routes[j], path, verb, regex, given) <==> Skipped(routes[j], path, verb, regex))
    ensures forall j :: 0 <= j < |routes| ==>
              (TryRoute(routes[j], path, verb, regex, given).Bad? <==> Breaks(routes[j], path, verb, regex))
  {
    forall j | 0 <= j < |routes|
      ensures PassedOver(routes[j], path, verb, regex, given) <==> Skipped(routes[j], path, verb, regex)
      ensures TryRoute(routes[j], path, verb, regex, given).Bad? <==> Breaks(routes[j], path, verb, regex)
    {
      TryMeaning(routes[j], path, verb, regex, given, map[]);
    }
  }

  /** A route is the answer, with bindings, if and only if it serves the path with them and every earlier one is skipped. */
  lemma LookupFound(routes: seq<Route>, path: string, verb: string, regex: RegexMatcher, given: Params, i: nat, b: Params)
    ensures FirstRoute(routes, path, verb, regex, given) == Found(i, b)
            <==> i < |routes| && Serves(routes[i], path, verb, regex, given, b)
                 && forall j :: 0 <= j < i ==> Skipped(routes[j], path, verb, regex)
  {
    FoundIffLeast(routes, path, verb, regex, given, i, b);
    PassedOverMeaning(routes, path, verb, regex, given);
    if i < |routes| { TryMeaning(routes[i], path, verb, regex, given, b); }
  }

  /** The lookup throws if and only if the first route that is not skipped has a bad expression. */
  lemma LookupThrew(routes: seq<Route>, path: string, verb: string, regex: RegexMatcher, given: Params)
    ensures FirstRoute(routes, path, verb, regex, given) == Threw
            <==> exists i :: 0 <= i < |routes| && Breaks(routes[i], path, verb, regex)
                             && forall j :: 0 <= j < i ==> Skipped(routes[j], path, verb, regex)
  {
    FirstRouteMeaning(routes, path, verb, regex, given);
    PassedOverMeaning(routes, path, verb, regex, given);
    if i :| 0 <= i < |routes| && Breaks(routes[i], path, verb, regex)
            && forall j :: 0 <= j < i ==> Skipped(routes[j], path, verb, regex) {
      BadIsThrown(routes, path, verb, regex, given, i);
    }
  }

  /** It answers nothing if and only if every route is skipped. */
  lemma LookupNothing(routes: seq<Route>, path: string, verb: string, regex: RegexMatcher, given: Params)
    ensures FirstRoute(routes, path, verb, regex, given) == NotFound
            <==> forall j :: 0 <= j < |routes| ==> Skipped(routes[j], path, verb, regex)
  {
    FirstRouteMeaning(routes, path, verb, regex, given);
    PassedOverMeaning(routes, path, verb, regex, given);
    if forall j :: 0 <= j < |routes| ==> Skipped(routes[j], path, verb, regex) {
      NothingFound(routes, path, verb, regex, given);
    }
  }

  // ---------- Groups ----------

  /** A route as a group registers it: prefix before its pattern, group middleware after its own. */
  function GroupRoute(prefix: string, r: Route, middleware: seq<MiddlewareId>): Route {
    r.(pathPattern := prefix + r.pathPattern, middleware := r.middleware + middleware)
  }

  function GroupRoutes(prefix: string, rs: seq<Route>, middleware: seq<MiddlewareId>): seq<Route> {
    seq(|rs|, i requires 0 <= i < |rs| => GroupRoute(prefix, rs[i], middleware))
  }

  /** Matching a pattern in two parts: the first part binds first, the second overrides. */
  lemma {:induction false} MatchInParts(p: seq<string>, q: seq<string>, segs: seq<string>, m: Params)
    ensures MatchSegments(p + q, segs, m) ==
            if |segs| != |p| + |q| then None
            else match MatchSegments(p, segs[..|p|], m)
                 case None => None
                 case Some(b) => MatchSegments(q, segs[|p|..], b)
    decreases |p|
  {
    if |segs| == |p| + |q| {
      if p == [] {
        assert p + q == q && segs[0..] == segs;
      } else {
        assert (p + q)[1..] == p[1..] + q;
        assert segs[1..][..|p| - 1] == segs[..|p|][1..] && segs[1..][|p| - 1..] == segs[|p|..];
        var m' := if IsParam(p[0]) then m[KeyOf(p[0]) := segs[0]] else m;
        MatchInParts(p[1..], q, segs[1..], m');
      }
    }
  }

  /** Starting from bindings is starting from none and overriding. */
  lemma {:induction false} MatchOverrides(p: seq<string>, segs: seq<string>, m: Params)
    ensures MatchSegments(p, segs, m) ==
            match MatchSegments(p, segs, map[]) case None => None case Some(b) => Some(m + b)
  {
    if |p| == |segs| {
      if p == [] {
        assert m + map[] == m;
      } else if IsParam(p[0]) {
        var k, v := KeyOf(p[0]), segs[0];
        MatchOverrides(p[1..], segs[1..], m[k := v]);
        MatchOverrides(p[1..], segs[1..], map[k := v]);
        if MatchSegments(p[1..], segs[1..], map[]).Some? {
          var b := MatchSegments(p[1..], segs[1..], map[]).value;
          assert m[k := v] + b == m + (map[k := v] + b);
        }
      } else {
        MatchOverrides(p[1..], segs[1..], m);
      }
    }
  }

  /** The match of segments in two parts, the second part's bindings overriding the first's. */
  function MatchTwo(p: seq<string>, q: seq<string>, segs: seq<string>): Option<Params> {
    if |p| > |segs| then None
    else match (MatchSegments(p, segs[..|p|], map[]), MatchSegments(q, segs[|p|..], map[]))
         case (Some(a), Some(b)) => Some(a + b)
         case _ => None
  }

  lemma MatchJoined(p: seq<string>, q: seq<string>, segs: seq<string>)
    ensures MatchSegments(p + q, segs, map[]) == MatchTwo(p, q, segs)
  {
    MatchInParts(p, q, segs, map[]);
    if |segs| == |p| + |q| && MatchSegments(p, segs[..|p|], map[]).Some? {
      MatchOverrides(q, segs[|p|..], MatchSegments(p, segs[..|p|], map[]).value);
    }
  }

  /** A slash, or nothing, stands where the prefix meets the pattern. */
  predicate Joins(prefix: string, pattern: string) {
    prefix == "" || pattern == "" || prefix[|prefix| - 1] == '/' || pattern[0] == '/'
  }

  /**
   Behind a prefix it joins, a group's pattern matches a path if and only if the path's segments
   split into a match of the prefix and one of the pattern, the pattern's bindings overriding.
   */
  lemma GroupMatch(prefix: string, pattern: string, path: string)
    requires Joins(prefix, pattern)
    ensures MatchPath(prefix + pattern, path) == MatchTwo(Segments(prefix), Segments(pattern), Segments(path))
  {
    SegmentsSeamIff(prefix, pattern);
    MatchJoined(Segments(prefix), Segments(pattern), Segments(path));
  }

  lemma {:induction false} MatchesItself(pat: seq<string>, m: Params)
    ensures MatchSegments(pat, pat, m).Some?
    decreases |pat|
  {
    if pat != [] {
      MatchesItself(pat[1..], if IsParam(pat[0]) then m[KeyOf(pat[0]) := pat[0]] else m);
    }
  }

  lemma MatchTwoNeedsLength(p: seq<string>, q: seq<string>, segs: seq<string>)
    ensures MatchTwo(p, q, segs).Some? ==> |segs| == |p| + |q|
  {
  }

  /** Matching in two parts is right for every path exactly when the pattern joins its prefix. */
  lemma GroupMatchIff(prefix: string, pattern: string)
    ensures (forall path :: MatchPath(prefix + pattern, path)
                            == MatchTwo(Segments(prefix), Segments(pattern), Segments(path)))
            <==> Joins(prefix, pattern)
  {
    if Joins(prefix, pattern) {
      forall path { GroupMatch(prefix, pattern, path); }
    } else {
      var whole := prefix + pattern;
      SegmentsMerge(prefix, pattern);
      MatchesItself(Segments(whole), map[]);
      MatchTwoNeedsLength(Segments(prefix), Segments(pattern), Segments(whole));
      assert MatchPath(whole, whole).Some?;
    }
  }

  datatype Stripped = Mismatch | Rest(bound: Params, path: string)

  /** What a group's prefix binds of a path, and the path that remains for the group's own patterns. */
  function StripPrefix(prefix: string, path: string): Stripped {
    var n, segs := |Segments(prefix)|, Segments(path);
    if n > |segs| then Mismatch
    else match MatchSegments(Segments(prefix), segs[..n], map[])
         case None => Mismatch
         case Some(a) => Rest(a, PathFrom(segs[n..]))
  }

  /** A route whose pattern is not a regular expression and joins the group's prefix. */
  predicate Groupable(prefix: string, r: Route) {
    !r.isRegex && Joins(prefix, r.pathPattern)
  }

  lemma StrippedSegments(prefix: string, path: string)
    requires |Segments(prefix)| <= |Segments(path)|
    ensures var n := |Segments(prefix)|; Segments(PathFrom(Segments(path)[n..])) == Segments(path)[n..]
  {
    SegmentsAreSegments(path);
    SegmentsOfPath(Segments(path)[|Segments(prefix)|..]);
  }

  lemma GroupMatchStripped(prefix: string, pattern: string, path: string)
    requires Joins(prefix, pattern)
    ensures MatchPath(prefix + pattern, path) ==
            match StripPrefix(prefix, path)
            case Mismatch => None
            case Rest(a, rest) => (match MatchPath(pattern, rest) case None => None case Some(b) => Some(a + b))
  {
    GroupMatch(prefix, pattern, path);
    if |Segments(prefix)| <= |Segments(path)| { StrippedSegments(prefix, path); }
  }

  /** A candidate of the group's own table, seen behind the prefix. */
  function BehindPrefix(a: Params, c: Candidate): Candidate {
    match c case Matched(b) => Matched(a + b) case other => other
  }

  lemma GroupTry(prefix: string, r: Route, middleware: seq<MiddlewareId>, path: string, verb: string,
                 regex: RegexMatcher, given: Params)
    requires Groupable(prefix, r)
    ensures TryRoute(GroupRoute(prefix, r, middleware), path, verb, regex, given) ==
            match StripPrefix(prefix, path)
            case Mismatch => Unmatched
            case Rest(a, rest) => BehindPrefix(a, TryRoute(r, rest, verb, regex, given))
  {
    GroupMatchStripped(prefix, r.pathPattern, path);
  }

  function AnswerBehind(a: Params, answer: Lookup): Lookup {
    match answer case Found(i, b) => Found(i, a + b) case other => other
  }

  /** Tables whose candidates correspond, one behind a prefix, give corresponding answers. */
  lemma {:induction false} SameBehind(gs: seq<Route>, path: string, rs: seq<Route>, rest: string, a: Params,
                                      verb: string, regex: RegexMatcher, given: Params)
    requires |gs| == |rs|
    requires forall i :: 0 <= i < |rs| ==>
               TryRoute(gs[i], path, verb, regex, given) == BehindPrefix(a, TryRoute(rs[i], rest, verb, regex, given))
    ensures FirstRoute(gs, path, verb, regex, given) == AnswerBehind(a, FirstRoute(rs, rest, verb, regex, given))
    decreases |rs|
  {
    if rs != [] { SameBehind(gs[1..], path, rs[1..], rest, a, verb, regex, given); }
  }

  /**
   Looking a path up in a registered group is stripping the prefix and looking the rest up in the
   group's own table, the answer's bindings overriding the prefix's.
   */
  lemma {:induction false} GroupLookup(prefix: string, rs: seq<Route>, middleware: seq<MiddlewareId>, path: string,
                                       verb: string, regex: RegexMatcher, given: Params)
    requires forall i :: 0 <= i < |rs| ==> Groupable(prefix, rs[i])
    ensures FirstRoute(GroupRoutes(prefix, rs, middleware), path, verb, regex, given) ==
            match StripPrefix(prefix, path)
            case Mismatch => NotFound
            case Rest(a, rest) => AnswerBehind(a, FirstRoute(rs, rest, verb, regex, given))
  {
    var gs := GroupRoutes(prefix, rs, middleware);
    var stripped := StripPrefix(prefix, path);
    if stripped == Mismatch {
      forall i | 0 <= i < |gs| ensures PassedOver(gs[i], path, verb, regex, given) {
        GroupTry(prefix, rs[i], middleware, path, verb, regex, given);
      }
      NothingFound(gs, path, verb, regex, given);
    } else {
      CandidatesBehind(prefix, rs, middleware, path, stripped.path, stripped.bound, verb, regex, given);
    }
  }

  lemma CandidatesBehind(prefix: string, rs: seq<Route>, middleware: seq<MiddlewareId>, path: string, rest: string,
                         a: Params, verb: string, regex: RegexMatcher, given: Params)
    requires forall i :: 0 <= i < |rs| ==> Groupable(prefix, rs[i])
    requires StripPrefix(prefix, path) == Rest(a, rest)
    ensures FirstRoute(GroupRoutes(prefix, rs, middleware), path, verb, regex, given)
            == AnswerBehind(a, FirstRoute(rs, rest, verb, regex, given))
  {
    var gs := GroupRoutes(prefix, rs, middleware);
    forall i | 0 <= i < |rs|
      ensures TryRoute(gs[i], path, verb, regex, given) == BehindPrefix(a, TryRoute(rs[i], rest, verb, regex, given))
    {
      GroupTry(prefix, rs[i], middleware, path, verb, regex, given);
    }
    SameBehind(gs, path, rs, rest, a, verb, regex, given);
  }

  // ---------- Resources ----------

  function ResourceRoutes(resource: string, handler: Option<HandlerId>, middleware: seq<MiddlewareId>): seq<Route> {
    TwoPatterns("/" + resource, "/" + resource + "/:id", handler, middleware)
  }

  /** Two routes for the collection's pattern and three for one item's. */
  function TwoPatterns(many: string, one: string, handler: Option<HandlerId>, middleware: seq<MiddlewareId>): seq<Route> {
    [ Route(many, "GET", handler, middleware, false, []),
      Route(many, "POST", handler, middleware, false, []),
      Route(one, "GET", handler, middleware, false, []),
      Route(one, "PUT", handler, middleware, false, []),
      Route(one, "DELETE", handler, middleware, false, []) ]
  }

  lemma OneParameter(segs: seq<string>)
    ensures MatchSegments([":id"], segs, map[]) == if |segs| == 1 then Some(map["id" := segs[0]]) else None
  {
    assert ":id"[1..] == "id" && [":id"][1..] == [];
    if |segs| == 1 { assert segs[1..] == []; }
  }

  lemma ItemSegments()
    ensures Segments("/:id") == [":id"]
  {
    LeadingSlash("/:id");
    assert "/:id"[1..] == ":id";
    OnePiece(":id");
  }

  /** Override by the item's own parameter. */
  lemma ItemBinding(first: Option<Params>, last: seq<string>)
    ensures (match (first, MatchSegments([":id"], last, map[]))
             case (Some(a), Some(b)) => Some(a + b)
             case _ => None)
         == if |last| == 1 && first.Some? then Some(first.value["id" := last[0]]) else None
  {
    OneParameter(last);
    if |last| == 1 && first.Some? {
      assert first.value + map["id" := last[0]] == first.value["id" := last[0]];
    }
  }

  /** The pattern of one item matches a collection's path followed by any one segment. */
  lemma ItemMatch(resource: string, path: string)
    ensures var n, segs := |Segments(resource)|, Segments(path);
            MatchPath("/" + resource + "/:id", path) ==
            if |segs| != n + 1 then None
            else match MatchSegments(Segments(resource), segs[..n], map[])
                 case None => None
                 case Some(b) => Some(b["id" := segs[n]])
  {
    var n, segs := |Segments(resource)|, Segments(path);
    CollectionSegments(resource);
    ItemSegments();
    GroupMatch("/" + resource, "/:id", path);
    if n <= |segs| {
      ItemBinding(MatchSegments(Segments(resource), segs[..n], map[]), segs[n..]);
    }
  }

  lemma CollectionSegments(resource: string)
    ensures Segments("/" + resource) == Segments(resource)
  {
    LeadingSlash("/" + resource);
    assert ("/" + resource)[1..] == resource;
  }

  lemma MatchNeedsLength(pat: seq<string>, segs: seq<string>)
    ensures MatchSegments(pat, segs, map[]).Some? ==> |pat| == |segs|
  {
  }

  /** What the five routes of a resource answer, from what its collection's and its items' patterns bind. */
  function Served(verb: string, collection: Option<Params>, item: Option<Params>): Lookup {
    if (verb == "GET" || verb == "POST") && collection.Some? then
      Found(if verb == "GET" then 0 else 1, collection.value)
    else if (verb == "GET" || verb == "PUT" || verb == "DELETE") && item.Some? then
      Found(if verb == "GET" then 2 else if verb == "PUT" then 3 else 4, item.value)
    else NotFound
  }

  /** What a route gives that is tried when its pattern binds `bound`. */
  predicate Gives(r: Route, path: string, verb: string, regex: RegexMatcher, given: Params, bound: Option<Params>) {
    && (r.verb == verb && bound.Some? ==> TryRoute(r, path, verb, regex, given) == Matched(bound.value))
    && (r.verb != verb || bound.None? ==> PassedOver(r, path, verb, regex, given))
  }

  /** A route without a regular expression gives what its pattern binds. */
  lemma TryPlain(r: Route, path: string, verb: string, regex: RegexMatcher, given: Params, bound: Option<Params>)
    requires !r.isRegex && MatchPath(r.pathPattern, path) == bound
    ensures Gives(r, path, verb, regex, given, bound)
  {
  }

  lemma GivesAll(rs: seq<Route>, pattern: string, path: string, verb: string, regex: RegexMatcher, given: Params,
                 bound: Option<Params>)
    requires forall k :: 0 <= k < |rs| ==> !rs[k].isRegex && rs[k].pathPattern == pattern
    requires MatchPath(pattern, path) == bound
    ensures forall k :: 0 <= k < |rs| ==> Gives(rs[k], path, verb, regex, given, bound)
  {
    forall k | 0 <= k < |rs| ensures Gives(rs[k], path, verb, regex, given, bound) {
      TryPlain(rs[k], path, verb, regex, given, bound);
    }
  }

  lemma SamePatternNone(rs: seq<Route>, path: string, verb: string, regex: RegexMatcher, given: Params,
                        bound: Option<Params>)
    requires forall k :: 0 <= k < |rs| ==> Gives(rs[k], path, verb, regex, given, bound)
    requires bound.None? || forall k :: 0 <= k < |rs| ==> rs[k].verb != verb
    ensures FirstRoute(rs, path, verb, regex, given) == NotFound
  {
    forall k | 0 <= k < |rs| ensures PassedOver(rs[k], path, verb, regex, given) {}
    NothingFound(rs, path, verb, regex, given);
  }

  lemma SamePatternFound(rs: seq<Route>, path: string, verb: string, regex: RegexMatcher, given: Params,
                         bound: Option<Params>, i: nat)
    requires forall k :: 0 <= k < |rs| ==> Gives(rs[k], path, verb, regex, given, bound)
    requires bound.Some? && i < |rs| && rs[i].verb == verb && forall k :: 0 <= k < i ==> rs[k].verb != verb
    ensures FirstRoute(rs, path, verb, regex, given) == Found(i, bound.value)
  {
    forall k | 0 <= k < i ensures PassedOver(rs[k], path, verb, regex, given) {}
    FoundIffLeast(rs, path, verb, regex, given, i, bound.value);
  }

  /** Routes with one pattern for different verbs: the verb picks the route. */
  lemma ByVerb(rs: seq<Route>, pattern: string, path: string, verb: string, regex: RegexMatcher, given: Params,
               bound: Option<Params>)
    requires forall k :: 0 <= k < |rs| ==> !rs[k].isRegex && rs[k].pathPattern == pattern
    requires forall k, l :: 0 <= k < l < |rs| ==> rs[k].verb != rs[l].verb
    requires MatchPath(pattern, path) == bound
    ensures bound.None? || (forall k :: 0 <= k < |rs| ==> rs[k].verb != verb)
            ==> FirstRoute(rs, path, verb, regex, given) == NotFound
    ensures bound.Some? ==> forall i :: 0 <= i < |rs| && rs[i].verb == verb
                                        ==> FirstRoute(rs, path, verb, regex, given) == Found(i, bound.value)
  {
    GivesAll(rs, pattern, path, verb, regex, given, bound);
    if bound.None? || forall k :: 0 <= k < |rs| ==> rs[k].verb != verb {
      SamePatternNone(rs, path, verb, regex, given, bound);
    } else {
      var i :| 0 <= i < |rs| && rs[i].verb == verb;
      SamePatternFound(rs, path, verb, regex, given, bound, i);
    }
  }

  lemma DistinctVerbs()
    ensures "GET" != "POST" && "GET" != "PUT" && "GET" != "DELETE"
    ensures "POST" != "PUT" && "POST" != "DELETE" && "PUT" != "DELETE"
  {
    assert "POST"[1] != "PUT"[1];
  }

  function ManyAnswer(verb: string, bound: Option<Params>): Lookup {
    if bound.Some? && verb == "GET" then Found(0, bound.value)
    else if bound.Some? && verb == "POST" then Found(1, bound.value)
    else NotFound
  }

  function OneAnswer(verb: string, bound: Option<Params>): Lookup {
    if bound.Some? && verb == "GET" then Found(0, bound.value)
    else if bound.Some? && verb == "PUT" then Found(1, bound.value)
    else if bound.Some? && verb == "DELETE" then Found(2, bound.value)
    else NotFound
  }

  lemma ServedInTwo(verb: string, collection: Option<Params>, item: Option<Params>)
    ensures OrElse(ManyAnswer(verb, collection), 2, OneAnswer(verb, item)) == Served(verb, collection, item)
  {
    DistinctVerbs();
  }

  lemma TwoVerbs(rs: seq<Route>, pattern: string, path: string, verb: string, regex: RegexMatcher, given: Params,
                 bound: Option<Params>)
    requires |rs| == 2 && (forall k :: 0 <= k < 2 ==> !rs[k].isRegex && rs[k].pathPattern == pattern)
    requires rs[0].verb == "GET" && rs[1].verb == "POST" && MatchPath(pattern, path) == bound
    ensures FirstRoute(rs, path, verb, regex, given) == ManyAnswer(verb, bound)
  {
    DistinctVerbs();
    assert rs[0].verb != rs[1].verb;
    ByVerb(rs, pattern, path, verb, regex, given, bound);
    assert verb == "GET" ==> rs[0].verb == verb;
    assert verb == "POST" ==> rs[1].verb == verb;
  }

  lemma ThreeVerbs(rs: seq<Route>, pattern: string, path: string, verb: string, regex: RegexMatcher, given: Params,
                   bound: Option<Params>)
    requires |rs| == 3 && (forall k :: 0 <= k < 3 ==> !rs[k].isRegex && rs[k].pathPattern == pattern)
    requires rs[0].verb == "GET" && rs[1].verb == "PUT" && rs[2].verb == "DELETE" && MatchPath(pattern, path) == bound
    ensures FirstRoute(rs, path, verb, regex, given) == OneAnswer(verb, bound)
  {
    DistinctVerbs();
    assert rs[0].verb != rs[1].verb && rs[0].verb != rs[2].verb && rs[1].verb != rs[2].verb;
    ByVerb(rs, pattern, path, verb, regex, given, bound);
    assert verb == "GET" ==> rs[0].verb == verb;
    assert verb == "PUT" ==> rs[1].verb == verb;
    assert verb == "DELETE" ==> rs[2].verb == verb;
  }

  /** The answer of a resource's table in terms of its two patterns. */
  lemma ResourceAnswer(one: string, many: string, handler: Option<HandlerId>, middleware: seq<MiddlewareId>,
                       path: string, verb: string, regex: RegexMatcher, given: Params)
    ensures FirstRoute(TwoPatterns(many, one, handler, middleware), path, verb, regex, given)
            == Served(verb, MatchPath(many, path), MatchPath(one, path))
  {
    var rs := TwoPatterns(many, one, handler, middleware);
    assert rs[..2] + rs[2..] == rs;
    AnswerInTwo(rs[..2], rs[2..], one, many, path, verb, regex, given, MatchPath(many, path), MatchPath(one, path));
  }

  lemma AnswerInTwo(a: seq<Route>, b: seq<Route>, one: string, many: string, path: string, verb: string,
                    regex: RegexMatcher, given: Params, collection: Option<Params>, item: Option<Params>)
    requires |a| == 2 && (forall k :: 0 <= k < 2 ==> !a[k].isRegex && a[k].pathPattern == many)
    requires a[0].verb == "GET" && a[1].verb == "POST" && MatchPath(many, path) == collection
    requires |b| == 3 && (forall k :: 0 <= k < 3 ==> !b[k].isRegex && b[k].pathPattern == one)
    requires b[0].verb == "GET" && b[1].verb == "PUT" && b[2].verb == "DELETE" && MatchPath(one, path) == item
    ensures FirstRoute(a + b, path, verb, regex, given) == Served(verb, collection, item)
  {
    TwoVerbs(a, many, path, verb, regex, given, collection);
    ThreeVerbs(b, one, path, verb, regex, given, item);
    LaterRoutesDoNotInterfere(a, b, path, verb, regex, given);
    ServedInTwo(verb, collection, item);
  }

  /** What a table holding only a resource answers: the collection to GET and POST, an item to GET, PUT and DELETE. */
  lemma ResourceLookup(resource: string, handler: Option<HandlerId>, middleware: seq<MiddlewareId>, path: string,
                       verb: string, regex: RegexMatcher, given: Params)
    ensures var n, segs := |Segments(resource)|, Segments(path);
            FirstRoute(ResourceRoutes(resource, handler, middleware), path, verb, regex, given) ==
            if |segs| == n && (verb == "GET" || verb == "POST") then
              (match MatchSegments(Segments(resource), segs, map[])
               case None => NotFound
               case Some(b) => Found(if verb == "GET" then 0 else 1, b))
            else if |segs| == n + 1 && (verb == "GET" || verb == "PUT" || verb == "DELETE") then
              (match MatchSegments(Segments(resource), segs[..n], map[])
               case None => NotFound
               case Some(b) => Found(if verb == "GET" then 2 else if verb == "PUT" then 3 else 4, b["id" := segs[n]]))
            else NotFound
  {
    CollectionSegments(resource);
    ItemMatch(resource, path);
    MatchNeedsLength(Segments(resource), Segments(path));
    ResourceAnswer("/" + resource + "/:id", "/" + resource, handler, middleware, path, verb, regex, given);
  }

  // ---------- The object ----------

  class Router {
    var routes: seq<Route>

    constructor ()
      ensures routes == []
    {
      routes := [];
    }

    method AddRoute(route: Route)
      modifies this
      ensures routes == old(routes) + [route]
    {
      routes := routes + [route];
    }

    /** Scan the table; on no match, and on a throw, the outputs keep what they were given. */
    method FindRoute(path: string, verb: string, regex: RegexMatcher, given: Params, givenMiddleware: seq<MiddlewareId>)
      returns (threw: bool, handler: Option<HandlerId>, outParams: Params, outMiddleware: seq<MiddlewareId>)
      ensures match FirstRoute(routes, path, verb, regex, given)
              case Found(i, b) =>
                && i < |routes| && !threw && handler == routes[i].handler
                && outParams == b && outMiddleware == routes[i].middleware
              case NotFound => !threw && handler == None && outParams == given && outMiddleware == givenMiddleware
              case Threw => threw && outParams == given && outMiddleware == givenMiddleware
    {
      for i := 0 to |routes|
        invariant forall j :: 0 <= j < i ==> PassedOver(routes[j], path, verb, regex, given)
      {
        var candidate := Try(routes[i], path, verb, regex, given);
        match candidate {
          case Bad =>
            BadIsThrown(routes, path, verb, regex, given, i);
            return true, None, given, givenMiddleware;
          case Matched(params) =>
            FoundIffLeast(routes, path, verb, regex, given, i, params);
            return false, routes[i].handler, params, routes[i].middleware;
          case Unmatched =>
        }
      }
      NothingFound(routes, path, verb, regex, given);
      return false, None, given, givenMiddleware;
    }

    /** One round of the scan. */
    method Try(route: Route, path: string, verb: string, regex: RegexMatcher, given: Params) returns (c: Candidate)
      ensures c == TryRoute(route, path, verb, regex, given)
    {
      if route.verb != verb {
        return Unmatched;
      }
      if route.isRegex {
        match regex(route.pathPattern, path) {
          case BadRegex =>
            return Bad;
          case NoRegexMatch =>
            return Unmatched;
          case RegexMatch(groups) =>
            var params := StoreMatch(given, route.paramKeys, groups);
            return Matched(params);
        }
      }
      var matched, params := MatchPattern(route.pathPattern, path);
      return if matched then Matched(params) else Unmatched;
    }

    method AddGroup(prefix: string, groupRoutes: seq<Route>, groupMiddleware: seq<MiddlewareId>)
      modifies this
      ensures routes == old(routes) + GroupRoutes(prefix, groupRoutes, groupMiddleware)
      ensures |routes| == |old(routes)| + |groupRoutes|
      ensures forall i :: 0 <= i < |groupRoutes| ==>
                routes[|old(routes)| + i]
                == groupRoutes[i].(pathPattern := prefix + groupRoutes[i].pathPattern,
                                   middleware := groupRoutes[i].middleware + groupMiddleware)
    {
      for i := 0 to |groupRoutes|
        invariant routes == old(routes) + GroupRoutes(prefix, groupRoutes, groupMiddleware)[..i]
      {
        var route := groupRoutes[i];
        route := route.(pathPattern := prefix + route.pathPattern);
        route := AppendMiddleware(route, groupMiddleware);
        AddRoute(route);
      }
    }

    method AppendMiddleware(route: Route, groupMiddleware: seq<MiddlewareId>) returns (r: Route)
      ensures r == route.(middleware := route.middleware + groupMiddleware)
    {
      r := route;
      for i := 0 to |groupMiddleware|
        invariant r == route.(middleware := route.middleware + groupMiddleware[..i])
      {
        r := r.(middleware := r.middleware + [groupMiddleware[i]]);
      }
      assert groupMiddleware[..|groupMiddleware|] == groupMiddleware;
    }

    method AddResource(resource: string, handler: Option<HandlerId>, middleware: seq<MiddlewareId>)
      modifies this
      ensures routes == old(routes) + ResourceRoutes(resource, handler, middleware)
      ensures forall i :: |old(routes)| <= i < |routes| ==>
                routes[i].handler == handler && routes[i].middleware == middleware
    {
      AddRoute(Route("/" + resource, "GET", handler, middleware, false, []));
      AddRoute(Route("/" + resource, "POST", handler, middleware, false, []));
      AddRoute(Route("/" + resource + "/:id", "GET", handler, middleware, false, []));
      AddRoute(Route("/" + resource + "/:id", "PUT", handler, middleware, false, []));
      AddRoute(Route("/" + resource + "/:id", "DELETE", handler, middleware, false, []));
    }
  }

  method StoreMatch(given: Params, keys: seq<string>, groups: seq<string>) returns (outParams: Params)
    ensures outParams == StoreGroups(given, keys, groups)
  {
    outParams := given;
    assert keys[0..] == keys && groups[0..] == groups;
    for i := 0 to |groups|
      invariant i <= |keys| ==> StoreGroups(outParams, keys[i..], groups[i..]) == StoreGroups(given, keys, groups)
      invariant i > |keys| ==> outParams == StoreGroups(given, keys, groups)
    {
      if i < |keys| {
        assert keys[i..][1..] == keys[i + 1..] && groups[i..][1..] == groups[i + 1..];
        outParams := outParams[keys[i] := groups[i]];
      }
    }
  }
}
