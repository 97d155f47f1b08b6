/** HTTP route patterns (`Route` in src/Jasper.Http/Routing/Route.cs): a pattern string such as
    `a/:id/...` parsed into literal, argument and spread segments, with the structural rules the
    constructors enforce and the strings and queries derived from the segments. */
module Routing {
  import opened Wrappers
  import opened DotNetStrings

  /** One piece of a route, tagged with its index in the route. */
  datatype Segment =
    | Literal(path: string, position: int)      // class Segment
    | Argument(key: string, position: int)      // class RouteArgument
    | Spread(position: int)                     // class Spread

  /** The exceptions the two constructors throw. */
  datatype RouteError =
    | PatternIsNull            // ArgumentNullException on a null pattern
    | SpreadAsFirstSegment     // InvalidOperationException from validateSegments
    | ArgumentAsFirstSegment   // InvalidOperationException from validateSegments
    | MoreThanOneSpread        // InvalidOperationException thrown by SingleOrDefault
    | SpreadNotLast            // ArgumentOutOfRangeException from setupArgumentsAndSpread

  /** A constructed route: the state its constructors leave behind. */
  datatype Route = Route(httpMethod: string, pattern: string, name: string, segments: seq<Segment>)

  predicate IsArgument(s: Segment) { s.Argument? }
  predicate IsSpread(s: Segment) { s.Spread? }
  predicate IsParameter(s: Segment) { !s.Literal? }

  /** A key with no `:` at either end: what trimming `:` from a piece leaves. */
  predicate ColonFree(key: string) {
    key == [] || (key[0] != ':' && key[|key| - 1] != ':')
  }

  /** The pieces `ToParameter` keeps as literal text. */
  predicate IsLiteralPiece(path: string) {
    path != "..." && !StartsWith(path, ":") && !(StartsWith(path, "{") && EndsWith(path, "}"))
  }

  /** `Route.ToParameter`: classify one piece of a pattern, spread first, then `:key`, then `{key}`. */
  function ToParameter(path: string, position: int): (s: Segment)
    ensures s.position == position
    ensures s.Spread? <==> path == "..."
    ensures s.Literal? <==> IsLiteralPiece(path)
    ensures s.Literal? ==> s.path == path
    ensures s.Argument? && StartsWith(path, ":") ==> ColonFree(s.key)
  {
    if path == "..." then Spread(position)
    else if StartsWith(path, ":") then Argument(Trim(path, ':'), position)
    else if StartsWith(path, "{") && EndsWith(path, "}") then Argument(TrimEnd(TrimStart(path, '{'), '}'), position)
    else Literal(path, position)
  }

  /** An argument's key is cut out of its piece, so a piece without `/` gives a key without `/`. */
  lemma ArgumentKeyWithinPiece(path: string, position: int)
    requires '/' !in path
    ensures ToParameter(path, position).Argument? ==> '/' !in ToParameter(path, position).key
  {
    TrimsKeepAbsentChar(path, ':', '/');
    TrimsKeepAbsentChar(path, '{', '/');
    TrimsKeepAbsentChar(TrimStart(path, '{'), '}', '/');
  }

  /** A `:key` piece names the argument `key`. */
  lemma ColonPieceIsArgument(key: string, position: int)
    requires ColonFree(key)
    ensures ToParameter(":" + key, position) == Argument(key, position)
  {
    var path := ":" + key;
    assert StartsWith(path, ":");
    assert path[1..] == key;
    assert TrimStart(path, ':') == TrimStart(key, ':');
  }

  /** A `{key}` piece names the argument `key` when the key does not itself begin with `{` or end with `}`. */
  lemma BracePieceIsArgument(key: string, position: int)
    requires key == [] || (key[0] != '{' && key[|key| - 1] != '}')
    ensures ToParameter("{" + key + "}", position) == Argument(key, position)
  {
    var inner := key + "}";
    var path := "{" + inner;
    assert path == "{" + key + "}";
    assert path[0] == '{' && path[1..] == inner;
    assert inner[0] != '{';
    assert LeadingCount(inner, '{') == 0;
    assert TrimStart(path, '{') == inner;
    assert inner[|inner| - 1] == '}' && inner[..|inner| - 1] == key;
    assert TrimEnd(inner, '}') == key;
    assert path != "..." && !StartsWith(path, ":") by { assert path[0] == '{'; }
    assert StartsWith(path, "{") && EndsWith(path, "}");
  }

  /** The text a segment stands for in `Pattern` (`ISegment.SegmentPath`). */
  function SegmentPath(s: Segment): string {
    match s
    case Literal(path, _) => path
    case Argument(key, _) => ":" + key
    case Spread(_) => "..."
  }

  /** `SegmentPath` and `ToParameter` are inverse on every segment `ToParameter` can produce. */
  lemma ToParameterInvertsSegmentPath(s: Segment)
    requires s.Literal? ==> IsLiteralPiece(s.path)
    requires s.Argument? ==> ColonFree(s.key)
    ensures ToParameter(SegmentPath(s), s.position) == s
  {
    if s.Argument? {
      ColonPieceIsArgument(s.key, s.position);
    }
  }

  /** The elements of `s` satisfying `p`, in order (LINQ `Where` / `OfType`). */
  function Filter(s: seq<Segment>, p: Segment -> bool): seq<Segment> {
    if s == [] then []
    else if p(s[0]) then [s[0]] + Filter(s[1..], p)
    else Filter(s[1..], p)
  }

  /** `Filter` keeps exactly the elements satisfying `p`. */
  lemma {:induction false} FilterMembers(s: seq<Segment>, p: Segment -> bool, x: Segment)
    ensures x in Filter(s, p) <==> x in s && p(x)
  {
    if s != [] {
      FilterMembers(s[1..], p, x);
      assert s == [s[0]] + s[1..];
    }
  }

  /** `Filter` keeps exactly the elements satisfying `p`, for every element at once. */
  lemma FilterMembersAll(s: seq<Segment>, p: Segment -> bool)
    ensures forall x :: x in Filter(s, p) <==> x in s && p(x)
  {
    forall x ensures x in Filter(s, p) <==> x in s && p(x) {
      FilterMembers(s, p, x);
    }
  }

  /** Filtering a concatenation filters each part, so `Filter` keeps the order of `s`. */
  lemma {:induction false} FilterAppend(a: seq<Segment>, b: seq<Segment>, p: Segment -> bool)
    ensures Filter(a + b, p) == Filter(a, p) + Filter(b, p)
  {
    if a == [] {
      assert a + b == b;
    } else {
      FilterAppend(a[1..], b, p);
      assert (a + b)[1..] == a[1..] + b;
    }
  }

  /** `SegmentPath` of each segment, in order. */
  function SegmentPaths(segs: seq<Segment>): (r: seq<string>)
    ensures |r| == |segs|
    ensures forall i :: 0 <= i < |segs| ==> r[i] == SegmentPath(segs[i])
  {
    if segs == [] then [] else [SegmentPath(segs[0])] + SegmentPaths(segs[1..])
  }

  /** `Pattern`: the segment paths joined by `/`. */
  function PatternOf(segs: seq<Segment>): (p: string)
    ensures segs == [] ==> p == ""
    ensures |segs| == 1 ==> p == SegmentPath(segs[0])
    ensures '/' in p <==> |segs| > 1 || exists i :: 0 <= i < |segs| && '/' in SegmentPath(segs[i])
  {
    var paths := SegmentPaths(segs);
    assert (exists i :: 0 <= i < |paths| && '/' in paths[i])
       <==> (exists i :: 0 <= i < |segs| && '/' in SegmentPath(segs[i]));
    Join(paths, '/')
  }

  /** The pattern with every leading and then every trailing `/` removed. */
  function Trimmed(pattern: string): (t: string)
    ensures t != [] ==> t[0] != '/' && t[|t| - 1] != '/'
  {
    TrimEnd(TrimStart(pattern, '/'), '/')
  }

  /** The segments of the string constructor's loop: piece i classified at position i. */
  function ClassifyPieces(pieces: seq<string>): (segs: seq<Segment>)
    ensures |segs| == |pieces|
    ensures forall i :: 0 <= i < |segs| ==> segs[i].position == i
    ensures forall i :: 0 <= i < |segs| ==> (segs[i].Literal? <==> IsLiteralPiece(pieces[i]))
    ensures forall i :: 0 <= i < |segs| ==> (segs[i].Spread? <==> pieces[i] == "...")
  {
    seq(|pieces|, i requires 0 <= i < |pieces| => ToParameter(pieces[i], i))
  }

  /** `validateSegments`: the first segment may be neither a spread nor an argument. */
  function ValidateSegments(segs: seq<Segment>): (o: Outcome<RouteError>)
    ensures o == Fail(SpreadAsFirstSegment) <==> segs != [] && segs[0].Spread?
    ensures o == Fail(ArgumentAsFirstSegment) <==> segs != [] && segs[0].Argument?
    ensures o.Pass? <==> segs == [] || segs[0].Literal?
  {
    if segs == [] then Pass
    else if segs[0].Spread? then Fail(SpreadAsFirstSegment)
    else if segs[0].Argument? then Fail(ArgumentAsFirstSegment)
    else Pass
  }

  /** `_spread`: the spread segment, when there is one. */
  function SpreadOf(segs: seq<Segment>): (r: Option<Segment>)
    ensures r.None? <==> forall s :: s in segs ==> !s.Spread?
    ensures r.Some? ==> r.value.Spread? && r.value in segs
  {
    var spreads := Filter(segs, IsSpread);
    FilterMembersAll(segs, IsSpread);
    if spreads == [] then None
    else
      assert spreads[0] in spreads;
      Some(spreads[0])
  }

  /** `setupArgumentsAndSpread`: `SingleOrDefault` rejects a second spread, then the spread must be last. */
  function SetupArgumentsAndSpread(r: Route): (res: Result<Route, RouteError>)
    ensures res.Success? ==> res.value == r
    ensures res == Failure(MoreThanOneSpread) <==> |Filter(r.segments, IsSpread)| > 1
    ensures res == Failure(SpreadNotLast) <==>
              |Filter(r.segments, IsSpread)| == 1 && !r.segments[|r.segments| - 1].Spread?
    ensures res.Success? <==>
              && |Filter(r.segments, IsSpread)| <= 1
              && (|Filter(r.segments, IsSpread)| == 1 ==> r.segments[|r.segments| - 1].Spread?)
  {
    var spreads := Filter(r.segments, IsSpread);
    SingleSpreadIsLast(r.segments);
    if |spreads| > 1 then Failure(MoreThanOneSpread)
    else if spreads != [] && spreads[0] != r.segments[|r.segments| - 1] then Failure(SpreadNotLast)
    else Success(r)
  }

  /** With exactly one spread, that spread is the last segment exactly when the last segment is a spread. */
  lemma SingleSpreadIsLast(segs: seq<Segment>)
    ensures |Filter(segs, IsSpread)| == 1 ==>
              (Filter(segs, IsSpread)[0] == segs[|segs| - 1] <==> segs[|segs| - 1].Spread?)
  {
    var spreads := Filter(segs, IsSpread);
    if |spreads| == 1 {
      FilterMembers(segs, IsSpread, spreads[0]);
      FilterMembers(segs, IsSpread, segs[|segs| - 1]);
    }
  }

  /** What both constructors do once the segments are known: validate, derive `Pattern` and `Name`
      (the method, then `separator`, then the pattern), then check the spread. */
  function Construct(segs: seq<Segment>, httpMethod: string, separator: string): (res: Result<Route, RouteError>)
    ensures res.Success? ==> ValidateSegments(segs).Pass?
    ensures res.Success? ==> && res.value.segments == segs && res.value.httpMethod == httpMethod
                             && res.value.pattern == PatternOf(segs)
                             && res.value.name == httpMethod + separator + res.value.pattern
  {
    match ValidateSegments(segs)
    case Fail(e) => Failure(e)
    case Pass =>
      var pat := PatternOf(segs);
      SetupArgumentsAndSpread(Route(httpMethod, pat, httpMethod + separator + pat, segs))
  }

  /** `new Route(pattern, httpMethod)`: `Name` is `"{method}:/{Pattern}"`. */
  function RouteFromPattern(pattern: Option<string>, httpMethod: string): (res: Result<Route, RouteError>)
    ensures pattern.None? ==> res == Failure(PatternIsNull)
    ensures res.Success? ==> && res.value.httpMethod == httpMethod
                             && res.value.pattern == PatternOf(res.value.segments)
                             && res.value.name == httpMethod + ":/" + res.value.pattern
  {
    if pattern.None? then Failure(PatternIsNull)
    else
      var t := Trimmed(pattern.value);
      if t == [] then
        var noSegments: seq<Segment> := [];
        assert PatternOf(noSegments) == "";
        SetupArgumentsAndSpread(Route(httpMethod, "", httpMethod + ":/", noSegments))
      else Construct(ClassifyPieces(Split(t, '/')), httpMethod, ":/")
  }

  /** `new Route(segments, httpVerb)`: `Name` is `"{method}:{Pattern}"`. */
  function RouteFromSegments(segs: seq<Segment>, httpVerb: string): (res: Result<Route, RouteError>)
    ensures res.Success? ==> && res.value.segments == segs && res.value.httpMethod == httpVerb
                             && res.value.pattern == PatternOf(segs)
                             && res.value.name == httpVerb + ":" + res.value.pattern
  {
    Construct(segs, httpVerb, ":")
  }

  /** The string constructor as the source runs it: trim, split, one `ToParameter` per piece, validate, derive. */
  method NewRoute(pattern: Option<string>, httpMethod: string) returns (r: Result<Route, RouteError>)
    ensures r == RouteFromPattern(pattern, httpMethod)
  {
    if pattern.None? {
      return Failure(PatternIsNull);
    }
    var p := TrimEnd(TrimStart(pattern.value, '/'), '/');
    var segments: seq<Segment> := [];
    var patternText: string;
    if p == [] {
      patternText := "";
    } else {
      var pieces := Split(p, '/');
      var i := 0;
      while i < |pieces|
        invariant 0 <= i <= |pieces|
        invariant |segments| == i
        invariant forall k :: 0 <= k < i ==> segments[k] == ToParameter(pieces[k], k)
      {
        segments := segments + [ToParameter(pieces[i], i)];
        i := i + 1;
      }
      assert segments == ClassifyPieces(pieces);
      var validation := ValidateSegments(segments);
      if validation.Fail? {
        return Failure(validation.error);
      }
      patternText := PatternOf(segments);
    }
    var name := httpMethod + ":/" + patternText;
    r := SetupArgumentsAndSpread(Route(httpMethod, patternText, name, segments));
    assert p == [] ==> name == httpMethod + ":/";
    assert p != [] ==> r == RouteFromPattern(pattern, httpMethod);
  }

  /** `Arguments`: the argument segments, in order. */
  function Arguments(r: Route): (args: seq<Segment>)
    ensures forall s :: s in args <==> s in r.segments && s.Argument?
  {
    FilterMembersAll(r.segments, IsArgument);
    Filter(r.segments, IsArgument)
  }

  /** `Parameters`: every segment that is not a literal, in order. */
  function Parameters(r: Route): (ps: seq<Segment>)
    ensures forall s :: s in ps <==> s in r.segments && !s.Literal?
  {
    FilterMembersAll(r.segments, IsParameter);
    Filter(r.segments, IsParameter)
  }

  /** `HasSpread`: the route has a spread segment. */
  predicate HasSpread(r: Route)
    ensures HasSpread(r) <==> exists i :: 0 <= i < |r.segments| && r.segments[i].Spread?
  {
    FilterMembersAll(r.segments, IsSpread);
    assert (exists i :: 0 <= i < |r.segments| && r.segments[i].Spread?) ==> Filter(r.segments, IsSpread) != [] by {
      if exists i :: 0 <= i < |r.segments| && r.segments[i].Spread? {
        var i :| 0 <= i < |r.segments| && r.segments[i].Spread?;
        assert r.segments[i] in Filter(r.segments, IsSpread);
      }
    }
    assert Filter(r.segments, IsSpread) != [] ==> exists i :: 0 <= i < |r.segments| && r.segments[i].Spread? by {
      if Filter(r.segments, IsSpread) != [] {
        var x := Filter(r.segments, IsSpread)[0];
        assert x in r.segments;
        var i :| 0 <= i < |r.segments| && r.segments[i] == x;
      }
    }
    SpreadOf(r.segments).Some?
  }

  /** `HasParameters`: the route has a spread or at least one argument, which is to say some segment
      is not a literal. */
  predicate HasParameters(r: Route)
    ensures HasParameters(r) <==> exists i :: 0 <= i < |r.segments| && !r.segments[i].Literal?
  {
    var args := Arguments(r);
    assert (exists i :: 0 <= i < |r.segments| && r.segments[i].Argument?) <==> |args| > 0 by {
      if exists i :: 0 <= i < |r.segments| && r.segments[i].Argument? {
        var i :| 0 <= i < |r.segments| && r.segments[i].Argument?;
        assert r.segments[i] in args;
      }
      if |args| > 0 {
        assert args[0] in r.segments;
        var i :| 0 <= i < |r.segments| && r.segments[i] == args[0];
      }
    }
    HasSpread(r) || |args| > 0
  }

  /** The first argument segment named `key`, or none. */
  function FirstArgument(segs: seq<Segment>, key: string): (a: Option<Segment>)
    ensures a.Some? ==> a.value.Argument? && a.value.key == key && a.value in segs
    ensures a.None? <==> forall s :: s in segs ==> !(s.Argument? && s.key == key)
  {
    if segs == [] then None
    else if segs[0].Argument? && segs[0].key == key then Some(segs[0])
    else FirstArgument(segs[1..], key)
  }

  /** `GetArgument(key)`: the first argument segment with that key, or null when there is none. */
  function GetArgument(r: Route, key: string): (a: Option<Segment>)
    ensures a.None? <==> forall s :: s in r.segments ==> !(s.Argument? && s.key == key)
    ensures a.Some? ==>
              && a.value.Argument? && a.value.key == key
              && exists k :: 0 <= k < |r.segments| && r.segments[k] == a.value &&
                   forall j :: 0 <= j < k ==> !(r.segments[j].Argument? && r.segments[j].key == key)
  {
    var a := FirstArgument(r.segments, key);
    if a.Some? then
      GetArgumentIsFirst(r.segments, key);
      a
    else a
  }

  /** `Description`: the method, a colon and a space, then the pattern. */
  function Description(r: Route): (d: string)
    ensures |d| == |r.httpMethod| + 2 + |r.pattern|
    ensures d[..|r.httpMethod|] == r.httpMethod && d[|r.httpMethod|..|r.httpMethod| + 2] == ": "
    ensures d[|r.httpMethod| + 2..] == r.pattern
  {
    r.httpMethod + ": " + r.pattern
  }

  /** `ToString()`: the same text as `Description`. */
  function ToString(r: Route): (t: string)
    ensures t == Description(r)
  {
    r.httpMethod + ": " + r.pattern
  }

  /** What every constructed route satisfies. */
  predicate WellFormed(r: Route) {
    && (r.segments != [] ==> r.segments[0].Literal?)
    && |Filter(r.segments, IsSpread)| <= 1
    && (HasSpread(r) ==> r.segments[|r.segments| - 1].Spread?)
    && r.pattern == PatternOf(r.segments)
  }

  // ---------------------------------------------------------------- properties

  /** A null pattern is rejected before anything else. */
  lemma NullPatternRejected(httpMethod: string)
    ensures RouteFromPattern(None, httpMethod) == Failure(PatternIsNull)
  {
  }

  /** A pattern that is empty once its slashes are trimmed gives the empty route. */
  lemma EmptyPatternHasNoSegments(pattern: string, httpMethod: string)
    requires Trimmed(pattern) == []
    ensures RouteFromPattern(Some(pattern), httpMethod) == Success(Route(httpMethod, "", httpMethod + ":/", []))
  {
  }

  /** A route parsed from a pattern has one segment per `/`-separated piece, piece i at position i. */
  lemma SegmentPerPiece(pattern: string, httpMethod: string)
    requires RouteFromPattern(Some(pattern), httpMethod).Success?
    requires Trimmed(pattern) != []
    ensures var r := RouteFromPattern(Some(pattern), httpMethod).value;
            var pieces := Split(Trimmed(pattern), '/');
            && |r.segments| == |pieces|
            && (forall i :: 0 <= i < |pieces| ==> r.segments[i] == ToParameter(pieces[i], i))
            && (forall i :: 0 <= i < |pieces| ==> r.segments[i].position == i)
            && Join(pieces, '/') == Trimmed(pattern)
  {
    JoinSplit(Trimmed(pattern), '/');
  }

  /** Which exception the constructors throw for a non-empty list of segments, and when they accept it. */
  lemma ConstructErrors(segs: seq<Segment>, httpMethod: string, separator: string)
    requires segs != []
    ensures var spreads := Filter(segs, IsSpread);
            var r := Construct(segs, httpMethod, separator);
            && (segs[0].Spread? <==> r == Failure(SpreadAsFirstSegment))
            && (segs[0].Argument? <==> r == Failure(ArgumentAsFirstSegment))
            && (segs[0].Literal? && |spreads| > 1 <==> r == Failure(MoreThanOneSpread))
            && (segs[0].Literal? && |spreads| == 1 && !segs[|segs| - 1].Spread? <==> r == Failure(SpreadNotLast))
            && (r.Success? <==> segs[0].Literal? && |spreads| <= 1 && (|spreads| == 1 ==> segs[|segs| - 1].Spread?))
  {
    var spreads := Filter(segs, IsSpread);
    if |spreads| == 1 {
      FilterMembers(segs, IsSpread, segs[|segs| - 1]);
      FilterMembers(segs, IsSpread, spreads[0]);
    }
  }

  /** The string constructor on a non-empty trimmed pattern is `Construct` on the classified pieces. */
  lemma PatternErrors(pattern: string, httpMethod: string)
    requires Trimmed(pattern) != []
    ensures var segs := ClassifyPieces(Split(Trimmed(pattern), '/'));
            && segs != []
            && RouteFromPattern(Some(pattern), httpMethod) == Construct(segs, httpMethod, ":/")
  {
  }

  /** The first piece decides the first two rules: `...` or an argument first is rejected. */
  lemma FirstPieceRules(pattern: string, httpMethod: string)
    requires Trimmed(pattern) != []
    ensures var first := Split(Trimmed(pattern), '/')[0];
            && (first == "..." ==> RouteFromPattern(Some(pattern), httpMethod) == Failure(SpreadAsFirstSegment))
            && (first != "..." && !IsLiteralPiece(first) ==>
                  RouteFromPattern(Some(pattern), httpMethod) == Failure(ArgumentAsFirstSegment))
  {
  }

  /** Every route `Construct` accepts is well-formed. */
  lemma ConstructWellFormed(segs: seq<Segment>, httpMethod: string, separator: string)
    ensures Construct(segs, httpMethod, separator).Success? ==> WellFormed(Construct(segs, httpMethod, separator).value)
  {
    var spreads := Filter(segs, IsSpread);
    if Construct(segs, httpMethod, separator).Success? && spreads != [] {
      FilterMembers(segs, IsSpread, spreads[0]);
    }
  }

  /** Both constructors only produce well-formed routes. */
  lemma ConstructedRoutesAreWellFormed(pattern: Option<string>, segs: seq<Segment>, httpMethod: string)
    ensures RouteFromPattern(pattern, httpMethod).Success? ==> WellFormed(RouteFromPattern(pattern, httpMethod).value)
    ensures RouteFromSegments(segs, httpMethod).Success? ==> WellFormed(RouteFromSegments(segs, httpMethod).value)
  {
    ConstructWellFormed(segs, httpMethod, ":");
    if pattern.Some? && Trimmed(pattern.value) != [] {
      ConstructWellFormed(ClassifyPieces(Split(Trimmed(pattern.value), '/')), httpMethod, ":/");
    }
  }

  /** The segment constructor on the segments a pattern parses to gives the same route, except that
      its `Name` lacks the `/` after the colon. */
  lemma ConstructorsAgree(pattern: string, httpMethod: string)
    requires RouteFromPattern(Some(pattern), httpMethod).Success?
    ensures var r := RouteFromPattern(Some(pattern), httpMethod).value;
            && RouteFromSegments(r.segments, httpMethod) == Success(r.(name := httpMethod + ":" + r.pattern))
            && r.name == httpMethod + ":/" + r.pattern
  {
    var r := RouteFromPattern(Some(pattern), httpMethod).value;
    if r.segments == [] {
      var noSegments: seq<Segment> := [];
      assert Filter(noSegments, IsSpread) == [];
      assert PatternOf(noSegments) == "";
    }
  }

  /** In a well-formed route the parameters are the arguments in order, then the spread if any. */
  lemma ParametersAreArgumentsThenSpread(r: Route)
    requires WellFormed(r)
    ensures Parameters(r) == Arguments(r) + (if HasSpread(r) then [SpreadOf(r.segments).value] else [])
  {
    var segs := r.segments;
    if HasSpread(r) {
      var n := |segs| - 1;
      assert segs == segs[..n] + [segs[n]];
      FilterAppend(segs[..n], [segs[n]], IsParameter);
      FilterAppend(segs[..n], [segs[n]], IsArgument);
      FilterAppend(segs[..n], [segs[n]], IsSpread);
      assert Filter([segs[n]], IsSpread) == [segs[n]];
      assert Filter([segs[n]], IsArgument) == [];
      assert Filter([segs[n]], IsParameter) == [segs[n]];
      assert Filter(segs[..n], IsSpread) == [];
      NoSpreadParametersAreArguments(segs[..n]);
    } else {
      NoSpreadParametersAreArguments(segs);
    }
  }

  /** Without a spread, the non-literal segments are exactly the arguments. */
  lemma {:induction false} NoSpreadParametersAreArguments(segs: seq<Segment>)
    requires Filter(segs, IsSpread) == []
    ensures Filter(segs, IsParameter) == Filter(segs, IsArgument)
  {
    if segs != [] {
      FilterMembers(segs, IsSpread, segs[0]);
      assert !segs[0].Spread?;
      assert Filter(segs[1..], IsSpread) == [];
      NoSpreadParametersAreArguments(segs[1..]);
    }
  }

  /** `GetArgument(key)` is the first argument with that key: no earlier segment is one. */
  lemma {:induction false} GetArgumentIsFirst(segs: seq<Segment>, key: string)
    requires FirstArgument(segs, key).Some?
    ensures exists k :: 0 <= k < |segs| && segs[k] == FirstArgument(segs, key).value &&
              forall j :: 0 <= j < k ==> !(segs[j].Argument? && segs[j].key == key)
  {
    if !(segs[0].Argument? && segs[0].key == key) {
      GetArgumentIsFirst(segs[1..], key);
      var k :| 0 <= k < |segs[1..]| && segs[1..][k] == FirstArgument(segs[1..], key).value &&
               forall j :: 0 <= j < k ==> !(segs[1..][j].Argument? && segs[1..][j].key == key);
      assert segs[k + 1] == FirstArgument(segs, key).value;
      assert forall j :: 1 <= j < k + 1 ==> segs[j] == segs[1..][j - 1];
    }
  }

  /** A pattern whose first and last segment paths are non-empty and free of `/` is left alone by trimming. */
  lemma PatternIsTrimmed(segs: seq<Segment>)
    requires segs != []
    requires forall i :: 0 <= i < |segs| ==> '/' !in SegmentPath(segs[i])
    requires SegmentPath(segs[0]) != [] && SegmentPath(segs[|segs| - 1]) != []
    ensures PatternOf(segs) != [] && Trimmed(PatternOf(segs)) == PatternOf(segs)
  {
    var paths := SegmentPaths(segs);
    var first, last := paths[0], paths[|segs| - 1];
    var pat := Join(paths, '/');
    JoinEnds(paths, '/');
    assert pat[0] != '/' by {
      assert pat[..|first|] == first;
      assert pat[0] == first[0];
    }
    assert pat[|pat| - 1] != '/' by {
      assert pat[|pat| - |last|..] == last;
      assert pat[|pat| - 1] == last[|last| - 1];
      assert last[|last| - 1] in last;
    }
    TrimsLeaveTrimmed(pat, '/');
  }

  /** Segments the parser can produce, numbered from zero and with paths free of `/`, are given back by
      splitting and classifying their own `Pattern`. */
  lemma ReclassifyPattern(segs: seq<Segment>)
    requires segs != []
    requires forall i :: 0 <= i < |segs| ==> segs[i].position == i
    requires forall i :: 0 <= i < |segs| ==> '/' !in SegmentPath(segs[i])
    requires forall i :: 0 <= i < |segs| ==> segs[i].Literal? ==> IsLiteralPiece(segs[i].path)
    requires forall i :: 0 <= i < |segs| ==> segs[i].Argument? ==> ColonFree(segs[i].key)
    ensures ClassifyPieces(Split(PatternOf(segs), '/')) == segs
  {
    var paths := SegmentPaths(segs);
    SplitJoin(paths, '/');
    forall i | 0 <= i < |paths| ensures ToParameter(paths[i], i) == segs[i] {
      ToParameterInvertsSegmentPath(segs[i]);
    }
  }

  /** Parsing the `Pattern` of a parsed route again gives back the same route, provided no argument
      key carries a `:` at either end (which a braced piece whose key begins with a colon can produce). */
  lemma PatternReparses(pattern: string, httpMethod: string)
    requires RouteFromPattern(Some(pattern), httpMethod).Success?
    requires forall s :: s in RouteFromPattern(Some(pattern), httpMethod).value.segments && s.Argument? ==> ColonFree(s.key)
    ensures var r := RouteFromPattern(Some(pattern), httpMethod).value;
            RouteFromPattern(Some(r.pattern), httpMethod) == Success(r)
  {
    var r := RouteFromPattern(Some(pattern), httpMethod).value;
    var t := Trimmed(pattern);
    if t == [] {
      assert Trimmed("") == "";
    } else {
      var pieces := Split(t, '/');
      var segs := ClassifyPieces(pieces);
      assert r.segments == segs;
      var n := |segs| - 1;
      forall i | 0 <= i < |segs|
        ensures '/' !in SegmentPath(segs[i])
        ensures segs[i].Literal? ==> IsLiteralPiece(segs[i].path)
        ensures segs[i].Argument? ==> ColonFree(segs[i].key)
      {
        ArgumentKeyWithinPiece(pieces[i], i);
        assert segs[i] in r.segments;
        if segs[i].Argument? {
          assert SegmentPath(segs[i]) == [':'] + segs[i].key;
        }
      }
      SplitFirstPiece(t, '/');
      SplitLastPiece(t, '/');
      assert SegmentPath(segs[n]) != [] by {
        if segs[n].Literal? {
          assert SegmentPath(segs[n]) == pieces[n];
        }
      }
      PatternIsTrimmed(segs);
      ReclassifyPattern(segs);
    }
  }
}
