/** Path splitting and dispatch (common/src/http_server.cpp) and the control
    plane's route table (control-plane/src/main.cpp). */
module Router {

  type Segments = seq<string>

  // ---------------------------------------------------------------- splitting

  /** What `split_path` produces from the rest of a path, given the segment read so far. */
  function Split(path: string, current: string): Segments
    decreases |path|
  {
    if path == "" || path[0] == '?' then (if current != "" then [current] else [])
    else if path[0] == '/' then (if current != "" then [current] else []) + Split(path[1..], "")
    else Split(path[1..], current + [path[0]])
  }

  method SplitPath(path: string) returns (segments: Segments)
    ensures segments == Split(path, "")
  {
    segments := [];
    var current := "";
    var i := 0;
    while i < |path|
      invariant 0 <= i <= |path|
      invariant segments + Split(path[i..], current) == Split(path, "")
    {
      assert path[i..][0] == path[i] && path[i..][1..] == path[i + 1..];
      if path[i] == '?' {
        break;
      } else if path[i] == '/' {
        if current != "" {
          segments := segments + [current];
          current := "";
        }
      } else {
        current := current + [path[i]];
      }
      i := i + 1;
    }
    assert Split(path[i..], current) == if current != "" then [current] else [];
    if current != "" { segments := segments + [current]; }
  }

  predicate IsSegment(s: string) { s != "" && '/' !in s && '?' !in s }

  predicate AreSegments(segments: Segments) { forall i :: 0 <= i < |segments| ==> IsSegment(segments[i]) }

  function Slashes(n: nat): string { if n == 0 then "" else "/" + Slashes(n - 1) }

  /** A path naming the segments: at least one slash before each, extra slashes
      anywhere, and a tail that is empty or a query string. */
  function PathOf(segments: Segments, extra: seq<nat>, last: nat, query: string): string
    requires |extra| == |segments|
  {
    if segments == [] then Slashes(last) + query
    else "/" + Slashes(extra[0]) + segments[0] + PathOf(segments[1..], extra[1..], last, query)
  }

  predicate IsTail(query: string) { query == "" || query[0] == '?' }

  lemma {:induction false} SplitSlashes(n: nat, rest: string)
    ensures Split(Slashes(n) + rest, "") == Split(rest, "")
  {
    if n == 0 {
      assert Slashes(0) + rest == rest;
    } else {
      assert (Slashes(n) + rest)[1..] == Slashes(n - 1) + rest;
      SplitSlashes(n - 1, rest);
    }
  }

  lemma {:induction false} SplitSegment(segment: string, rest: string, current: string)
    requires '/' !in segment && '?' !in segment
    ensures Split(segment + rest, current) == Split(rest, current + segment)
    decreases |segment|
  {
    if segment == "" {
      assert segment + rest == rest && current + segment == current;
    } else {
      assert segment[0] in segment;
      assert (segment + rest)[1..] == segment[1..] + rest;
      SplitSegment(segment[1..], rest, current + [segment[0]]);
      assert current + [segment[0]] + segment[1..] == current + segment;
    }
  }

  /** After a whole segment comes the end, a query or another slash. */
  lemma SplitAfter(segment: string, rest: string)
    requires segment != "" && (rest == "" || rest[0] == '?' || rest[0] == '/')
    ensures Split(rest, segment) == [segment] + Split(rest, "")
  {
  }

  /** Repeated slashes and query strings do not matter: the segments come back. */
  lemma {:induction false} SplitOfPath(segments: Segments, extra: seq<nat>, last: nat, query: string)
    requires |extra| == |segments| && AreSegments(segments) && IsTail(query)
    ensures Split(PathOf(segments, extra, last, query), "") == segments
    decreases |segments|
  {
    if segments == [] {
      SplitSlashes(last, query);
    } else {
      var rest := PathOf(segments[1..], extra[1..], last, query);
      SplitOfPath(segments[1..], extra[1..], last, query);
      var path := PathOf(segments, extra, last, query);
      assert path == Slashes(extra[0] + 1) + (segments[0] + rest);
      SplitSlashes(extra[0] + 1, segments[0] + rest);
      SplitSegment(segments[0], rest, "");
      assert "" + segments[0] == segments[0];
      assert rest == "" || rest[0] == '?' || rest[0] == '/' by {
        if |segments| == 1 && last == 0 { assert rest == query; }
      }
      SplitAfter(segments[0], rest);
    }
  }

  /** The usual way of writing a path or a route pattern. */
  function Joined(segments: Segments): string {
    if segments == [] then "" else "/" + segments[0] + Joined(segments[1..])
  }

  lemma {:induction false} JoinedIsPath(segments: Segments, extra: seq<nat>)
    requires |extra| == |segments| && forall i :: 0 <= i < |extra| ==> extra[i] == 0
    ensures PathOf(segments, extra, 0, "") == Joined(segments)
  {
    if segments != [] {
      JoinedIsPath(segments[1..], extra[1..]);
      assert "/" + Slashes(extra[0]) + segments[0] == "/" + segments[0];
    }
  }

  lemma SplitOfJoined(segments: Segments)
    requires AreSegments(segments)
    ensures Split(Joined(segments), "") == segments
  {
    var extra := seq(|segments|, _ => 0);
    JoinedIsPath(segments, extra);
    SplitOfPath(segments, extra, 0, "");
  }

  // ---------------------------------------------------------------- matching and dispatch

  datatype Route = Route(verb: string, pattern: Segments)

  predicate IsParam(s: string) { s != "" && s[0] == '{' && s[|s| - 1] == '}' }

  predicate Fits(expected: string, actual: string) { IsParam(expected) || expected == actual }

  predicate Matches(pattern: Segments, path: Segments) {
    |pattern| == |path| && forall i :: 0 <= i < |path| ==> Fits(pattern[i], path[i])
  }

  function Params(pattern: Segments, path: Segments): Segments
    requires |pattern| == |path|
  {
    if path == [] then []
    else (if IsParam(pattern[0]) then [path[0]] else []) + Params(pattern[1..], path[1..])
  }

  /** A placeholder is any text in braces. */
  lemma ParamIsBraced(s: string)
    ensures |s| >= 2 ==> (IsParam(s) <==> s == "{" + s[1..|s| - 1] + "}")
    ensures |s| < 2 ==> !IsParam(s)
  {
    if |s| >= 2 && IsParam(s) { assert s == [s[0]] + s[1..|s| - 1] + [s[|s| - 1]]; }
    if |s| >= 2 && s == "{" + s[1..|s| - 1] + "}" { assert s[|s| - 1] == '}'; }
  }

  function Placeholders(pattern: Segments): nat {
    if pattern == [] then 0 else Placeholders(pattern[1..]) + if IsParam(pattern[0]) then 1 else 0
  }

  /** The pattern with its placeholders, in order, replaced by the values. */
  function Fill(pattern: Segments, values: Segments): Segments
    requires |values| == Placeholders(pattern)
  {
    if pattern == [] then []
    else if IsParam(pattern[0]) then [values[0]] + Fill(pattern[1..], values[1..])
    else [pattern[0]] + Fill(pattern[1..], values)
  }

  /** Filling the pattern with the parameters gives the path back. */
  lemma {:induction false} FillOfParams(pattern: Segments, path: Segments)
    requires Matches(pattern, path)
    ensures |Params(pattern, path)| == Placeholders(pattern)
    ensures Fill(pattern, Params(pattern, path)) == path
    decreases |path|
  {
    if path != [] {
      assert Fits(pattern[0], path[0]);
      assert forall i :: 0 <= i < |path| - 1 ==> Fits(pattern[1..][i], path[1..][i]) by {
        assert forall i :: 0 <= i < |path| - 1 ==> pattern[1..][i] == pattern[i + 1] && path[1..][i] == path[i + 1];
      }
      FillOfParams(pattern[1..], path[1..]);
      var rest := Params(pattern[1..], path[1..]);
      if IsParam(pattern[0]) {
        assert Params(pattern, path) == [path[0]] + rest && ([path[0]] + rest)[1..] == rest;
      } else {
        assert Params(pattern, path) == rest;
      }
      assert path == [path[0]] + path[1..];
    }
  }

  /** A filled pattern matches, and its parameters are the values. */
  lemma {:induction false} ParamsOfFill(pattern: Segments, values: Segments)
    requires |values| == Placeholders(pattern)
    ensures Matches(pattern, Fill(pattern, values)) && Params(pattern, Fill(pattern, values)) == values
    decreases |pattern|
  {
    if pattern != [] {
      var rest := if IsParam(pattern[0]) then values[1..] else values;
      ParamsOfFill(pattern[1..], rest);
      var path := Fill(pattern, values);
      assert path[1..] == Fill(pattern[1..], rest);
      assert Params(pattern, path) == (if IsParam(pattern[0]) then [values[0]] else []) + rest;
      forall i | 0 <= i < |path|
        ensures Fits(pattern[i], path[i])
      {
        if i > 0 { assert Fits(pattern[1..][i - 1], path[1..][i - 1]); }
      }
    }
  }

  /** `Server::match` */
  method Match(pattern: Segments, path: Segments) returns (matched: bool, params: Segments)
    ensures matched <==> Matches(pattern, path)
    ensures matched ==> |params| == Placeholders(pattern) && Fill(pattern, params) == path
  {
    params := [];
    if |pattern| != |path| { return false, params; }
    for i := 0 to |path|
      invariant forall j :: 0 <= j < i ==> Fits(pattern[j], path[j])
      invariant params + Params(pattern[i..], path[i..]) == Params(pattern, path)
    {
      assert pattern[i..][0] == pattern[i] && pattern[i..][1..] == pattern[i + 1..];
      assert path[i..][0] == path[i] && path[i..][1..] == path[i + 1..];
      if IsParam(pattern[i]) {
        params := params + [path[i]];
      } else if pattern[i] != path[i] {
        return false, params;
      }
    }
    assert params == Params(pattern, path);
    FillOfParams(pattern, path);
    matched := true;
  }

  datatype Outcome = Handled(route: Route, params: Segments) | MethodNotAllowed | NotFound

  predicate Serves(route: Route, verb: string, path: Segments) {
    route.verb == verb && Matches(route.pattern, path)
  }

  /** What dispatch must answer, without saying which of several routes wins. */
  ghost predicate Answers(routes: seq<Route>, verb: string, path: Segments, o: Outcome) {
    match o
    case Handled(route, params) =>
      && route in routes && Serves(route, verb, path)
      && |params| == Placeholders(route.pattern) && Fill(route.pattern, params) == path
    case MethodNotAllowed =>
      && (exists i :: 0 <= i < |routes| && Matches(routes[i].pattern, path))
      && (forall i :: 0 <= i < |routes| ==> !Serves(routes[i], verb, path))
    case NotFound => forall i :: 0 <= i < |routes| ==> !Matches(routes[i].pattern, path)
  }

  /** The dispatch loop of `handle_connection`. */
  method Dispatch(routes: seq<Route>, verb: string, path: Segments) returns (o: Outcome)
    ensures Answers(routes, verb, path, o)
  {
    var pathMatched := false;
    for i := 0 to |routes|
      invariant pathMatched <==> exists j :: 0 <= j < i && Matches(routes[j].pattern, path)
      invariant forall j :: 0 <= j < i ==> !Serves(routes[j], verb, path)
    {
      var matched, params := Match(routes[i].pattern, path);
      if matched {
        pathMatched := true;
        if routes[i].verb == verb { return Handled(routes[i], params); }
      }
    }
    o := if pathMatched then MethodNotAllowed else NotFound;
  }

  // ---------------------------------------------------------------- the control plane's table

  /** Each pattern is registered in its `Joined` form and split again. */
  const ROUTES: seq<Route> := [
    Route("GET", ["health"]),
    Route("POST", ["functions"]),
    Route("GET", ["functions", "{name}"]),
    Route("DELETE", ["functions", "{name}"]),
    Route("POST", ["functions", "{name}", "invoke"]),
    Route("GET", ["functions", "{name}", "runtime"]),
    Route("GET", ["runtimes"]),
    Route("GET", ["metrics"]),
    Route("GET", ["invocations", "{id}"])]

  ghost predicate Unambiguous(routes: seq<Route>) {
    forall a, b, verb, path :: a in routes && b in routes && Serves(a, verb, path) && Serves(b, verb, path) ==> a == b
  }

  lemma LiteralsAreFixed()
    ensures !IsParam("health") && !IsParam("functions") && !IsParam("runtimes") && !IsParam("metrics")
            && !IsParam("invocations") && !IsParam("invoke") && !IsParam("runtime")
  {
  }

  /** No request is served by two routes of the control plane. */
  lemma RoutesAreUnambiguous()
    ensures Unambiguous(ROUTES)
  {
    forall a, b, verb, path | a in ROUTES && b in ROUTES && Serves(a, verb, path) && Serves(b, verb, path)
      ensures a == b
    {
      RoutesDiffer(a, b, path);
    }
  }

  lemma RouteShape(a: Route)
    requires a in ROUTES
    ensures 1 <= |a.pattern| <= 3 && !IsParam(a.pattern[0]) && (|a.pattern| == 3 ==> !IsParam(a.pattern[2]))
  {
    LiteralsAreFixed();
  }

  /** Routes are told apart by method, length and their literals. */
  lemma ShapeDecides(a: Route, b: Route)
    requires a in ROUTES && b in ROUTES && a.verb == b.verb && |a.pattern| == |b.pattern| && a.pattern != []
    requires a.pattern[0] == b.pattern[0] && (|a.pattern| == 3 ==> a.pattern[2] == b.pattern[2])
    ensures a == b
  {
  }

  lemma RoutesDiffer(a: Route, b: Route, path: Segments)
    requires a in ROUTES && b in ROUTES && a.verb == b.verb && Matches(a.pattern, path) && Matches(b.pattern, path)
    ensures a == b
  {
    RouteShape(a);
    RouteShape(b);
    assert Fits(a.pattern[0], path[0]) && Fits(b.pattern[0], path[0]);
    if |path| == 3 { assert Fits(a.pattern[2], path[2]) && Fits(b.pattern[2], path[2]); }
    ShapeDecides(a, b);
  }

  /** So the order in which routes are registered does not matter: any two tables
      with the same unambiguous routes give every request the same answer, which is
      405 exactly when only the method is wrong and 404 exactly when no pattern matches. */
  lemma DispatchIgnoresOrder(routes: seq<Route>, other: seq<Route>, verb: string, path: Segments, o: Outcome, p: Outcome)
    requires Unambiguous(routes) && (forall r :: r in routes <==> r in other)
    requires Answers(routes, verb, path, o) && Answers(other, verb, path, p)
    ensures o == p
    ensures o.MethodNotAllowed? <==>
              (exists r :: r in routes && Matches(r.pattern, path)) && (forall r :: r in routes ==> !Serves(r, verb, path))
    ensures o.NotFound? <==> forall r :: r in routes ==> !Matches(r.pattern, path)
  {
    if o.Handled? && p.Handled? {
      assert o.route == p.route;
      ParamsOfFill(o.route.pattern, o.params);
      ParamsOfFill(p.route.pattern, p.params);
    }
    assert forall i :: 0 <= i < |routes| ==> routes[i] in routes && routes[i] in other;
    assert forall i :: 0 <= i < |other| ==> other[i] in other && other[i] in routes;
  }

  /** Every literal of a pattern is a segment. */
  lemma {:induction false} FilledAreSegments(pattern: Segments, values: Segments)
    requires |values| == Placeholders(pattern) && AreSegments(values)
    requires forall i :: 0 <= i < |pattern| ==> IsParam(pattern[i]) || IsSegment(pattern[i])
    ensures AreSegments(Fill(pattern, values))
    decreases |pattern|
  {
    if pattern != [] {
      FilledAreSegments(pattern[1..], if IsParam(pattern[0]) then values[1..] else values);
    }
  }

  lemma LiteralsAreSegments(route: Route)
    requires route in ROUTES
    ensures forall i :: 0 <= i < |route.pattern| ==> IsParam(route.pattern[i]) || IsSegment(route.pattern[i])
  {
    WordsAreSegments();
    forall i | 0 <= i < |route.pattern|
      ensures route.pattern[i] in WORDS
    {
    }
  }

  const WORDS: seq<string> :=
    ["health", "functions", "{name}", "invoke", "runtime", "runtimes", "metrics", "invocations", "{id}"]

  lemma WordsAreSegments()
    ensures forall w :: w in WORDS ==> IsParam(w) || IsSegment(w)
  {
  }

  /** Any request that fills a route of the control plane, however its path is written,
      reaches exactly that route, and its handler gets the values that were filled in. */
  lemma RequestReachesRoute(route: Route, values: Segments, extra: seq<nat>, last: nat, query: string, o: Outcome)
    requires route in ROUTES && |values| == Placeholders(route.pattern) && AreSegments(values)
    requires |extra| == |Fill(route.pattern, values)| && IsTail(query)
    requires Answers(ROUTES, route.verb, Split(PathOf(Fill(route.pattern, values), extra, last, query), ""), o)
    ensures o == Handled(route, values)
  {
    var path := Fill(route.pattern, values);
    LiteralsAreSegments(route);
    FilledAreSegments(route.pattern, values);
    SplitOfPath(path, extra, last, query);
    ParamsOfFill(route.pattern, values);
    RouteServes(route, path, o);
    ParamsOfFill(o.route.pattern, o.params);
  }

  lemma RouteServes(route: Route, path: Segments, o: Outcome)
    requires route in ROUTES && Matches(route.pattern, path) && Answers(ROUTES, route.verb, path, o)
    ensures o.Handled? && o.route == route
  {
    assert Serves(route, route.verb, path);
    RoutesAreUnambiguous();
    var i :| 0 <= i < |ROUTES| && ROUTES[i] == route;
  }

  /** A concrete request. */
  lemma DeleteHelloIsRouted(o: Outcome)
    requires Answers(ROUTES, "DELETE", Split("/functions/hello", ""), o)
    ensures o == Handled(Route("DELETE", ["functions", "{name}"]), ["hello"])
  {
    HelloPath();
    HelloMatches();
    RouteServes(Route("DELETE", ["functions", "{name}"]), ["functions", "hello"], o);
    FilledOne("functions", "{name}", o.params);
  }

  lemma HelloPath()
    ensures Split("/functions/hello", "") == ["functions", "hello"]
  {
    var path := ["functions", "hello"];
    assert path[1..] == ["hello"] && ["hello"][1..] == [];
    assert Joined(["hello"]) == "/hello" && Joined(path) == "/functions/hello";
    SplitOfJoined(path);
  }

  lemma HelloMatches()
    ensures Route("DELETE", ["functions", "{name}"]) in ROUTES && !IsParam("functions") && IsParam("{name}")
    ensures Matches(["functions", "{name}"], ["functions", "hello"])
  {
    assert ROUTES[3] == Route("DELETE", ["functions", "{name}"]);
  }

  lemma FilledOne(literal: string, param: string, values: Segments)
    requires !IsParam(literal) && IsParam(param) && |values| == Placeholders([literal, param])
    ensures |values| == 1 && Fill([literal, param], values) == [literal, values[0]]
  {
    var pattern := [literal, param];
    assert pattern[1..] == [param] && pattern[1..][1..] == [];
    assert Placeholders([]) == 0 && Placeholders([param]) == 1;
    assert values[1..] == [] && Fill([param], values) == [values[0]] + Fill([], values[1..]);
  }
}
