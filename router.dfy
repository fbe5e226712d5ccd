/** The single-page app's hash router: patterns such as `/movie/:id` registered with handlers, the location
    hash matched segment by segment, and the first matching handler invoked with the bound parameters. */
module HashRouter {
  import opened Wrappers
  import opened Seqs
  import opened Text

  // ---------------------------------------------------------------------------------------------
  // decodeURIComponent
  // ---------------------------------------------------------------------------------------------

  /** The byte written `%XY` at position `k` of `s`, if there is one there. */
  function EscapeAt(s: string, k: nat): (r: Option<nat>)
    ensures r.Some? ==> k + 3 <= |s| && s[k] == '%' && r.value < 256
  {
    if k + 3 <= |s| && s[k] == '%' then
      match (DigitValue(s[k + 1], 16), DigitValue(s[k + 2], 16))
      case (Some(hi), Some(lo)) => Some(16 * hi + lo)
      case _ => None
    else None
  }

  /** `n` escapes in a row at the start of `s`. */
  function EscapedBytes(s: string, n: nat): (r: Option<seq<nat>>)
    ensures r.Some? ==> |r.value| == n && 3 * n <= |s|
  {
    if n == 0 then Some([])
    else
      match EscapeAt(s, 0)
      case None => None
      case Some(b) =>
        match EscapedBytes(s[3..], n - 1)
        case None => None
        case Some(rest) => Some([b] + rest)
  }

  /** The length of the UTF-8 sequence a leading byte of 0x80 or more announces; 0 for a byte that cannot
      lead one (a continuation byte, or five or more leading one bits). */
  function Utf8Length(b: nat): nat
  {
    if 0xC0 <= b < 0xE0 then 2
    else if 0xE0 <= b < 0xF0 then 3
    else if 0xF0 <= b < 0xF8 then 4
    else 0
  }

  predicate IsContinuation(b: nat)
  {
    0x80 <= b < 0xC0
  }

  predicate IsScalarValue(cp: int)
  {
    0 <= cp < 0xD800 || 0xE000 <= cp < 0x110000
  }

  /** The code point of a multi-byte UTF-8 sequence; nothing for a sequence that is not the shortest
      encoding of a Unicode scalar value. */
  function Utf8CodePoint(bytes: seq<nat>): (r: Option<nat>)
    requires 2 <= |bytes| <= 4 && |bytes| == Utf8Length(bytes[0])
    ensures r.Some? ==> IsScalarValue(r.value) && r.value >= 0x80
  {
    if exists i :: 1 <= i < |bytes| && !IsContinuation(bytes[i]) then None
    else if |bytes| == 2 then
      var cp := (bytes[0] - 0xC0) * 64 + (bytes[1] - 0x80);
      if cp >= 0x80 then Some(cp) else None
    else if |bytes| == 3 then
      var cp := (bytes[0] - 0xE0) * 4096 + (bytes[1] - 0x80) * 64 + (bytes[2] - 0x80);
      if cp >= 0x800 && IsScalarValue(cp) then Some(cp) else None
    else
      var cp := (bytes[0] - 0xF0) * 262144 + (bytes[1] - 0x80) * 4096 + (bytes[2] - 0x80) * 64 + (bytes[3] - 0x80);
      if 0x10000 <= cp < 0x110000 then Some(cp) else None
  }

  function Prepend(c: char, r: Option<string>): Option<string>
  {
    match r
    case None => None
    case Some(t) => Some([c] + t)
  }

  /** `decodeURIComponent(s)`: every `%XY` escape, and every run of escapes that spells one UTF-8 encoded
      character, replaced by that character; nothing (a `URIError`) when an escape is malformed or the
      bytes are not valid UTF-8. Decoding never lengthens the text: each escape of three characters or
      more gives one character. */
  function Decode(s: string): (r: Option<string>)
    ensures r.Some? ==> |r.value| <= |s|
    decreases |s|
  {
    if s == [] then Some([])
    else if s[0] != '%' then Prepend(s[0], Decode(s[1..]))
    else
      match EscapeAt(s, 0)
      case None => None
      case Some(b) =>
        if b < 0x80 then Prepend(b as char, Decode(s[3..]))
        else
          var n := Utf8Length(b);
          if n == 0 then None
          else
            match EscapedBytes(s, n)
            case None => None
            case Some(bytes) =>
              match Utf8CodePoint(bytes)
              case None => None
              case Some(cp) => Prepend(cp as char, Decode(s[3 * n..]))
  }

  /** Text without escapes decodes to itself. */
  lemma {:induction false} DecodePlain(s: string)
    requires '%' !in s
    ensures Decode(s) == Some(s)
  {
    if s != [] {
      DecodePlain(s[1..]);
      assert [s[0]] + s[1..] == s;
    }
  }

  /** An escaped slash decodes to a slash, so a bound parameter may hold one although no segment does. */
  lemma EscapedSlash()
    ensures Decode("a%2Fb") == Some("a/b")
  {
    var s, t := "a%2Fb", "%2Fb";
    assert s[0] == 'a' && s[1..] == t && t[0] == '%' && t[3..] == "b";
    assert EscapeAt(t, 0) == Some(47);
    DecodePlain("b");
    assert Decode(t) == Prepend(47 as char, Some("b"));
    assert ['/'] + "b" == "/b" && ['a'] + "/b" == "a/b";
  }

  // ---------------------------------------------------------------------------------------------
  // _matchRoute
  // ---------------------------------------------------------------------------------------------

  /** The parameters a match binds: `{ name: decoded segment }`. */
  type Params = map<string, string>

  /** `_matchRoute`'s three endings: `null`, the params object, or the `URIError` decoding throws. */
  datatype MatchResult = NoMatch | Matched(params: Params) | UriError

  function IsNonEmpty(s: string): bool
  {
    s != ""
  }

  /** `s.split('/').filter(Boolean)`: the non-empty segments of a path. */
  function Segments(s: string): (r: seq<string>)
    ensures forall i :: 0 <= i < |r| ==> r[i] != ""
  {
    Filter(Split(s, '/'), IsNonEmpty)
  }

  /** `segment.startsWith(':')`. */
  predicate IsParam(segment: string)
  {
    |segment| > 0 && segment[0] == ':'
  }

  /** The loop of `_matchRoute` from some segment on, with the parameters bound so far: it matches exactly
      when every remaining segment is accepted. */
  function MatchSegments(patternParts: seq<string>, pathParts: seq<string>, bound: Params): (r: MatchResult)
    requires |patternParts| == |pathParts|
    ensures r.Matched? <==> forall i :: 0 <= i < |patternParts| ==> Accepts(patternParts[i], pathParts[i])
  {
    if patternParts == [] then Matched(bound)
    else
      AcceptedCons(patternParts, pathParts);
      var part := patternParts[0];
      if IsParam(part) then
        match Decode(pathParts[0])
        case None => UriError
        case Some(value) => MatchSegments(patternParts[1..], pathParts[1..], bound[part[1..] := value])
      else if part != pathParts[0] then NoMatch
      else MatchSegments(patternParts[1..], pathParts[1..], bound)
  }

  /** `_matchRoute(pattern, path)`: a path matches exactly when it has as many segments as the pattern and
      each is accepted. */
  function Match(pattern: string, path: string): (r: MatchResult)
    ensures var patternParts, pathParts := Segments(pattern), Segments(path);
      r.Matched? <==>
        |patternParts| == |pathParts| && forall i :: 0 <= i < |patternParts| ==> Accepts(patternParts[i], pathParts[i])
  {
    var patternParts, pathParts := Segments(pattern), Segments(path);
    if |patternParts| != |pathParts| then NoMatch else MatchSegments(patternParts, pathParts, map[])
  }

  /** `_matchRoute`: compare segment by segment, binding each `:name` segment to the decoded path segment
      and giving up at the first literal segment that differs. */
  method MatchRoute(pattern: string, path: string) returns (r: MatchResult)
    ensures r == Match(pattern, path)
  {
    var patternParts := Segments(pattern);
    var pathParts := Segments(path);
    if |patternParts| != |pathParts| {
      return NoMatch;
    }
    var params: Params := map[];
    for i := 0 to |patternParts|
      invariant MatchSegments(patternParts[i..], pathParts[i..], params) == Match(pattern, path)
    {
      MatchSegmentsStep(patternParts, pathParts, i, params);
      var part := patternParts[i];
      if IsParam(part) {
        var value := Decode(pathParts[i]);
        if value.None? {
          return UriError;
        }
        params := params[part[1..] := value.value];
      } else if part != pathParts[i] {
        return NoMatch;
      }
    }
    assert patternParts[|patternParts|..] == [];
    return Matched(params);
  }

  lemma MatchSegmentsStep(patternParts: seq<string>, pathParts: seq<string>, i: nat, bound: Params)
    requires i < |patternParts| == |pathParts|
    ensures var part := patternParts[i];
      MatchSegments(patternParts[i..], pathParts[i..], bound) ==
        if IsParam(part) then
          match Decode(pathParts[i])
          case None => UriError
          case Some(value) => MatchSegments(patternParts[i + 1..], pathParts[i + 1..], bound[part[1..] := value])
        else if part != pathParts[i] then NoMatch
        else MatchSegments(patternParts[i + 1..], pathParts[i + 1..], bound)
  {
    assert patternParts[i..][0] == patternParts[i] && patternParts[i..][1..] == patternParts[i + 1..];
    assert pathParts[i..][0] == pathParts[i] && pathParts[i..][1..] == pathParts[i + 1..];
  }

  /** Segment `i` of the path is accepted by segment `i` of the pattern: a parameter whose value decodes,
      or an equal literal. */
  predicate Accepts(patternPart: string, pathPart: string)
  {
    if IsParam(patternPart) then Decode(pathPart).Some? else patternPart == pathPart
  }

  /** Every segment is accepted exactly when the first is and every later one is. */
  lemma AcceptedCons(patternParts: seq<string>, pathParts: seq<string>)
    requires |patternParts| == |pathParts| > 0
    ensures (forall i :: 0 <= i < |patternParts| ==> Accepts(patternParts[i], pathParts[i])) <==>
      Accepts(patternParts[0], pathParts[0]) &&
      forall i :: 0 <= i < |patternParts[1..]| ==> Accepts(patternParts[1..][i], pathParts[1..][i])
  {
    if forall i :: 1 <= i < |patternParts| ==> Accepts(patternParts[i], pathParts[i]) {
      assert forall i :: 0 <= i < |patternParts[1..]| ==> Accepts(patternParts[1..][i], pathParts[1..][i]) by {
        forall i | 0 <= i < |patternParts[1..]| ensures Accepts(patternParts[1..][i], pathParts[1..][i]) {
          assert patternParts[1..][i] == patternParts[i + 1] && pathParts[1..][i] == pathParts[i + 1];
        }
      }
    } else {
      var i :| 1 <= i < |patternParts| && !Accepts(patternParts[i], pathParts[i]);
      assert patternParts[1..][i - 1] == patternParts[i] && pathParts[1..][i - 1] == pathParts[i];
    }
  }

  /** A literal segment that differs from the path's, with every segment before it accepted, gives `null`
      whatever follows. */
  lemma {:induction false} LiteralMismatchRejects(patternParts: seq<string>, pathParts: seq<string>, bound: Params, k: nat)
    requires |patternParts| == |pathParts| && k < |patternParts|
    requires !IsParam(patternParts[k]) && patternParts[k] != pathParts[k]
    requires forall j :: 0 <= j < k ==> Accepts(patternParts[j], pathParts[j])
    ensures MatchSegments(patternParts, pathParts, bound) == NoMatch
  {
    if k > 0 {
      assert Accepts(patternParts[0], pathParts[0]);
      var part := patternParts[0];
      var next := if IsParam(part) then bound[part[1..] := Decode(pathParts[0]).value] else bound;
      forall j | 0 <= j < k - 1 ensures Accepts(patternParts[1..][j], pathParts[1..][j]) {
        assert patternParts[1..][j] == patternParts[j + 1] && pathParts[1..][j] == pathParts[j + 1];
      }
      LiteralMismatchRejects(patternParts[1..], pathParts[1..], next, k - 1);
    }
  }

  /** A parameter segment whose path segment does not decode, with every segment before it accepted,
      throws whatever follows. */
  lemma {:induction false} UndecodableThrows(patternParts: seq<string>, pathParts: seq<string>, bound: Params, k: nat)
    requires |patternParts| == |pathParts| && k < |patternParts|
    requires IsParam(patternParts[k]) && Decode(pathParts[k]).None?
    requires forall j :: 0 <= j < k ==> Accepts(patternParts[j], pathParts[j])
    ensures MatchSegments(patternParts, pathParts, bound) == UriError
  {
    if k > 0 {
      assert Accepts(patternParts[0], pathParts[0]);
      var part := patternParts[0];
      var next := if IsParam(part) then bound[part[1..] := Decode(pathParts[0]).value] else bound;
      forall j | 0 <= j < k - 1 ensures Accepts(patternParts[1..][j], pathParts[1..][j]) {
        assert patternParts[1..][j] == patternParts[j + 1] && pathParts[1..][j] == pathParts[j + 1];
      }
      UndecodableThrows(patternParts[1..], pathParts[1..], next, k - 1);
    }
  }

  /** The names the `:name` segments of a pattern bind. */
  function ParamNames(patternParts: seq<string>): set<string>
  {
    set i | 0 <= i < |patternParts| && IsParam(patternParts[i]) :: patternParts[i][1..]
  }

  /** Segment `i` is the last parameter segment of its name, so its value is the one that stays bound. */
  predicate LastOfName(patternParts: seq<string>, i: nat)
    requires i < |patternParts|
  {
    IsParam(patternParts[i]) &&
    forall j :: i < j < |patternParts| && IsParam(patternParts[j]) ==> patternParts[j][1..] != patternParts[i][1..]
  }

  /** A match binds exactly the names of the parameter segments, each to the decoded path segment of the
      last segment of that name. */
  lemma Bindings(pattern: string, path: string)
    requires Match(pattern, path).Matched?
    ensures var patternParts, pathParts, params := Segments(pattern), Segments(path), Match(pattern, path).params;
      && |patternParts| == |pathParts|
      && params.Keys == ParamNames(patternParts)
      && forall i :: 0 <= i < |patternParts| && LastOfName(patternParts, i) ==>
           Decode(pathParts[i]).Some? && params[patternParts[i][1..]] == Decode(pathParts[i]).value
  {
    SegmentBindings(Segments(pattern), Segments(path), map[]);
  }

  lemma {:induction false} SegmentBindings(patternParts: seq<string>, pathParts: seq<string>, bound: Params)
    requires |patternParts| == |pathParts| && MatchSegments(patternParts, pathParts, bound).Matched?
    ensures var params := MatchSegments(patternParts, pathParts, bound).params;
      && params.Keys == bound.Keys + ParamNames(patternParts)
      && (forall name :: name in bound && name !in ParamNames(patternParts) ==> params[name] == bound[name])
      && forall i :: 0 <= i < |patternParts| && LastOfName(patternParts, i) ==>
           Decode(pathParts[i]).Some? && params[patternParts[i][1..]] == Decode(pathParts[i]).value
  {
    if patternParts != [] {
      var part, rest := patternParts[0], patternParts[1..];
      var next := if IsParam(part) then bound[part[1..] := Decode(pathParts[0]).value] else bound;
      SegmentBindings(rest, pathParts[1..], next);
      var params := MatchSegments(patternParts, pathParts, bound).params;
      assert params == MatchSegments(rest, pathParts[1..], next).params;
      ParamNamesCons(patternParts);
      forall i | 0 <= i < |patternParts| && LastOfName(patternParts, i)
        ensures Decode(pathParts[i]).Some? && params[patternParts[i][1..]] == Decode(pathParts[i]).value
      {
        if i == 0 {
          assert forall j :: 0 <= j < |rest| && IsParam(rest[j]) ==> rest[j][1..] != part[1..] by {
            forall j | 0 <= j < |rest| && IsParam(rest[j]) ensures rest[j][1..] != part[1..] {
              assert rest[j] == patternParts[j + 1];
            }
          }
          assert part[1..] !in ParamNames(rest);
        } else {
          assert rest[i - 1] == patternParts[i] && pathParts[1..][i - 1] == pathParts[i];
          assert LastOfName(rest, i - 1) by {
            forall j | i - 1 < j < |rest| && IsParam(rest[j]) ensures rest[j][1..] != rest[i - 1][1..] {
              assert rest[j] == patternParts[j + 1];
            }
          }
        }
      }
    }
  }

  lemma ParamNamesCons(patternParts: seq<string>)
    requires patternParts != []
    ensures ParamNames(patternParts) ==
      (if IsParam(patternParts[0]) then {patternParts[0][1..]} else {}) + ParamNames(patternParts[1..])
  {
    var rest := patternParts[1..];
    forall name | name in ParamNames(patternParts)
      ensures name in (if IsParam(patternParts[0]) then {patternParts[0][1..]} else {}) + ParamNames(rest)
    {
      var i :| 0 <= i < |patternParts| && IsParam(patternParts[i]) && patternParts[i][1..] == name;
      if i > 0 {
        assert rest[i - 1] == patternParts[i];
      }
    }
    forall name | name in ParamNames(rest) ensures name in ParamNames(patternParts) {
      var i :| 0 <= i < |rest| && IsParam(rest[i]) && rest[i][1..] == name;
      assert patternParts[i + 1] == rest[i];
    }
  }

  /** A pattern without parameters matches exactly the paths with the same segments, and binds nothing. */
  lemma NoParamsMatchExactly(pattern: string, path: string)
    requires forall i :: 0 <= i < |Segments(pattern)| ==> !IsParam(Segments(pattern)[i])
    ensures Match(pattern, path) == if Segments(pattern) == Segments(path) then Matched(map[]) else NoMatch
  {
    var patternParts, pathParts := Segments(pattern), Segments(path);
    if |patternParts| == |pathParts| {
      LiteralsOnly(patternParts, pathParts);
    }
  }

  lemma {:induction false} LiteralsOnly(patternParts: seq<string>, pathParts: seq<string>)
    requires |patternParts| == |pathParts|
    requires forall i :: 0 <= i < |patternParts| ==> !IsParam(patternParts[i])
    ensures MatchSegments(patternParts, pathParts, map[]) ==
      if patternParts == pathParts then Matched(map[]) else NoMatch
  {
    if patternParts != [] {
      LiteralsOnly(patternParts[1..], pathParts[1..]);
      if patternParts[0] == pathParts[0] && patternParts[1..] == pathParts[1..] {
        assert patternParts == [patternParts[0]] + patternParts[1..];
        assert pathParts == [pathParts[0]] + pathParts[1..];
      }
    }
  }

  // ---------------------------------------------------------------------------------------------
  // Empty segments
  // ---------------------------------------------------------------------------------------------

  /** A slash joins the segments of the two sides, so repeated, leading and trailing slashes add none. */
  lemma SegmentsJoin(a: string, b: string)
    ensures Segments(a + "/" + b) == Segments(a) + Segments(b)
  {
    SplitConcat(a, b, '/');
    FilterConcat(Split(a, '/'), Split(b, '/'), IsNonEmpty);
  }

  lemma NoSegments()
    ensures Segments("") == [] && Segments("/") == []
  {
    SegmentsJoin("", "");
    assert "" + "/" + "" == "/";
  }

  /** `/movie/5/` and `//movie/5` have the segments of `/movie/5`. */
  lemma ExtraSlashesIgnored(path: string)
    ensures Segments(path + "/") == Segments(path)
    ensures Segments("/" + path) == Segments(path)
  {
    NoSegments();
    SegmentsJoin(path, "");
    assert path + "/" + "" == path + "/";
    SegmentsJoin("", path);
    assert "" + "/" + path == "/" + path;
  }

  /** The pattern `/` matches exactly the paths without segments. */
  lemma RootMatchesOnlyEmpty(path: string)
    ensures Match("/", path) == if Segments(path) == [] then Matched(map[]) else NoMatch
  {
    NoSegments();
  }

  // ---------------------------------------------------------------------------------------------
  // on / resolve
  // ---------------------------------------------------------------------------------------------

  /** `window.location.hash.slice(1) || '/'`: the path the hash names, `/` for an empty hash. */
  function HashPath(locationHash: string): (path: string)
    ensures path != ""
  {
    if |locationHash| <= 1 then "/" else locationHash[1..]
  }

  /** `navigate(path)` sets the hash to `'#' + path`: resolving it comes back to that path, and the empty
      path resolves as `/`. */
  function NavigateHash(path: string): (hash: string)
    ensures HashPath(hash) == if path == "" then "/" else path
  {
    var hash := "#" + path;
    assert hash[1..] == path;
    hash
  }

  /** The handler `resolve` invokes and the parameters it passes; nothing invoked; or the `URIError` a
      parameter that does not decode throws out of `resolve`. */
  datatype Outcome<H> = Dispatched(pattern: string, handler: H, params: Params) | Unhandled | Threw

  /** The patterns tried in order: the first that matches is invoked with its parameters; a decoding error
      ends the search; when none matches, the `/` handler, if there is one, is invoked with `{}`. */
  function FirstDispatch<H>(patterns: seq<string>, routes: map<string, H>, path: string): (r: Outcome<H>)
    requires forall i :: 0 <= i < |patterns| ==> patterns[i] in routes
    ensures r.Dispatched? ==>
      && r.pattern in routes && r.handler == routes[r.pattern]
      && (r.pattern in patterns || (r.pattern == "/" && r.params == map[]))
    ensures r.Unhandled? ==> "/" !in routes
  {
    if patterns == [] then
      if "/" in routes then Dispatched("/", routes["/"], map[]) else Unhandled
    else
      match Match(patterns[0], path)
      case Matched(params) => Dispatched(patterns[0], routes[patterns[0]], params)
      case UriError => Threw
      case NoMatch => FirstDispatch(patterns[1..], routes, path)
  }

  /** The outcome is decided by the first pattern that does not give `null`: its handler with its
      parameters, or the error; when every pattern gives `null`, the fallback. */
  lemma {:induction false} FirstMatchWins<H>(patterns: seq<string>, routes: map<string, H>, path: string)
    requires forall i :: 0 <= i < |patterns| ==> patterns[i] in routes
    ensures forall k :: 0 <= k < |patterns| && (forall j :: 0 <= j < k ==> Match(patterns[j], path).NoMatch?) ==>
      var m := Match(patterns[k], path);
      && (m.Matched? ==> FirstDispatch(patterns, routes, path) == Dispatched(patterns[k], routes[patterns[k]], m.params))
      && (m.UriError? ==> FirstDispatch(patterns, routes, path) == Threw)
    ensures (forall j :: 0 <= j < |patterns| ==> Match(patterns[j], path).NoMatch?) ==>
      FirstDispatch(patterns, routes, path) == if "/" in routes then Dispatched("/", routes["/"], map[]) else Unhandled
  {
    if patterns != [] {
      var rest := patterns[1..];
      FirstMatchWins(rest, routes, path);
      forall k | 0 <= k < |patterns| && (forall j :: 0 <= j < k ==> Match(patterns[j], path).NoMatch?)
        ensures var m := Match(patterns[k], path);
          && (m.Matched? ==> FirstDispatch(patterns, routes, path) == Dispatched(patterns[k], routes[patterns[k]], m.params))
          && (m.UriError? ==> FirstDispatch(patterns, routes, path) == Threw)
      {
        if k > 0 {
          assert Match(patterns[0], path).NoMatch?;
          assert rest[k - 1] == patterns[k];
          assert forall j :: 0 <= j < k - 1 ==> Match(rest[j], path).NoMatch? by {
            forall j | 0 <= j < k - 1 ensures Match(rest[j], path).NoMatch? {
              assert rest[j] == patterns[j + 1];
            }
          }
        }
      }
      if forall j :: 0 <= j < |patterns| ==> Match(patterns[j], path).NoMatch? {
        assert Match(patterns[0], path).NoMatch?;
        assert forall j :: 0 <= j < |rest| ==> Match(rest[j], path).NoMatch? by {
          forall j | 0 <= j < |rest| ensures Match(rest[j], path).NoMatch? {
            assert rest[j] == patterns[j + 1];
          }
        }
      }
    }
  }

  /** The loop of `resolve` over the registered patterns, and its fallback. */
  method Dispatch<H>(patterns: seq<string>, routes: map<string, H>, path: string) returns (outcome: Outcome<H>)
    requires forall i :: 0 <= i < |patterns| ==> patterns[i] in routes
    ensures outcome == FirstDispatch(patterns, routes, path)
  {
    for i := 0 to |patterns|
      invariant FirstDispatch(patterns[i..], routes, path) == FirstDispatch(patterns, routes, path)
    {
      assert patterns[i..][0] == patterns[i] && patterns[i..][1..] == patterns[i + 1..];
      var params := MatchRoute(patterns[i], path);
      if params.Matched? {
        return Dispatched(patterns[i], routes[patterns[i]], params.params);
      } else if params.UriError? {
        return Threw;
      }
    }
    assert patterns[|patterns|..] == [];
    if "/" in routes {
      outcome := Dispatched("/", routes["/"], map[]);
    } else {
      outcome := Unhandled;
    }
  }

  /** The `Router` object: its `routes`, kept as the handler of each pattern plus the order in which the
      patterns were first registered (the order `for...in` visits them), and `currentRoute`. */
  class Router<H> {
    var order: seq<string>
    var routes: map<string, H>
    var currentRoute: Option<string>

    /** Each registered pattern appears once in the order, and the order holds only registered patterns. */
    ghost predicate Valid()
      reads this
    {
      && NoDuplicates(order)
      && (forall i :: 0 <= i < |order| ==> order[i] in routes)
      && (forall p :: p in routes ==> p in order)
    }

    /** `routes: {}, currentRoute: null`. */
    constructor()
      ensures Valid() && order == [] && routes == map[] && currentRoute == None
    {
      order := [];
      routes := map[];
      currentRoute := None;
    }

    /** `on(pattern, handler)`: the pattern's handler is replaced, or the pattern is added last; every
        other registration stays as it was. */
    method On(pattern: string, handler: H)
      requires Valid()
      modifies this
      ensures Valid()
      ensures routes == old(routes)[pattern := handler]
      ensures order == if pattern in old(routes) then old(order) else old(order) + [pattern]
      ensures currentRoute == old(currentRoute)
    {
      if pattern !in routes {
        order := order + [pattern];
      }
      routes := routes[pattern := handler];
    }

    /** `resolve()` with the current `window.location.hash` passed in: records the path as the current
        route and invokes the first matching handler, or the `/` handler as a fallback. */
    method Resolve(locationHash: string) returns (outcome: Outcome<H>)
      requires Valid()
      modifies this
      ensures Valid() && order == old(order) && routes == old(routes)
      ensures currentRoute == Some(HashPath(locationHash))
      ensures outcome == FirstDispatch(order, routes, HashPath(locationHash))
    {
      var hash := if |locationHash| <= 1 then "/" else locationHash[1..];
      currentRoute := Some(hash);
      outcome := Dispatch(order, routes, hash);
    }
  }
}
