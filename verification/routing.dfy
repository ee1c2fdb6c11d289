/** The namespaced router `Libraries\Router`: an append-only table of routes,
    a group prefix, and the first-match dispatch decision of `run`. The
    closure call, the reflective controller call and the 404 view are
    reported as an outcome instead of being performed. */
module Routing {
  import opened Php
  import opened Text

  /** A route handler: a closure (identified by a token), a
      `[controllerClass, method]` array, or any other value. */
  datatype Handler = Closure(token: nat) | Action(controller: string, action: string) | Unsupported

  datatype Route = Route(uri: string, handler: Handler, httpMethod: string)

  /** The static route table and the instance's current group prefix. */
  datatype Router = Router(routes: seq<Route>, prefix: string)

  /** What `run` does: call a closure, call a controller method, throw, or render a view. */
  datatype Dispatched =
    | CallClosure(token: nat)
    | CallAction(controller: string, action: string)
    | Raise(error: Exception)
    | RenderView(path: string)

  const NoRoutes := Router([], "")

  /** `register($uri, $handle, $method)`: exactly one route is appended, under
      the prefixed uri; the earlier routes and the prefix are unchanged. */
  function Register(r: Router, uri: string, handler: Handler, httpMethod: string): (r': Router)
    ensures r'.prefix == r.prefix
    ensures |r'.routes| == |r.routes| + 1
    ensures r'.routes[..|r.routes|] == r.routes
    ensures r'.routes[|r.routes|] == Route(r.prefix + uri, handler, httpMethod)
  {
    r.(routes := r.routes + [Route(r.prefix + uri, handler, httpMethod)])
  }

  /** The HTTP verbs of the registration helpers. */
  datatype Verb = GET | POST | PUT | PATCH | DELETE

  /** The lower-case method string each helper registers with. */
  function MethodName(v: Verb): (m: string)
    ensures Lower(m) == m
  {
    match v
    case GET => "get"
    case POST => "post"
    case PUT => "put"
    case PATCH => "patch"
    case DELETE => "delete"
  }

  /** `get`, `post`, `put`, `patch` and `delete`: register under the verb's lower-case name. */
  function RegisterVerb(r: Router, v: Verb, uri: string, handler: Handler): (r': Router)
    ensures r'.prefix == r.prefix
    ensures |r'.routes| == |r.routes| + 1 && r'.routes[..|r.routes|] == r.routes
    ensures r'.routes[|r.routes|] == Route(r.prefix + uri, handler, MethodName(v))
    ensures Lower(r'.routes[|r.routes|].httpMethod) == r'.routes[|r.routes|].httpMethod
  {
    Register(r, uri, handler, MethodName(v))
  }

  /** `group($prefix, $callable)`: the body runs with the prefix set, and the
      prefix is then reset to the empty string, not to its earlier value. */
  function Group(r: Router, prefix: string, body: Router -> Router): (r': Router)
    ensures r'.prefix == ""
  {
    body(r.(prefix := prefix)).(prefix := "")
  }

  /** A registration script: what a route file does to the router. */
  datatype Command =
    | Add(verb: Verb, uri: string, handler: Handler)
    | InGroup(prefix: string, body: seq<Command>)

  /** Runs a script against the router, in order. */
  function Exec(r: Router, script: seq<Command>): Router
    decreases script
  {
    if |script| == 0 then r
    else
      var r1 := match script[0]
        case Add(v, uri, h) => RegisterVerb(r, v, uri, h)
        case InGroup(p, body) => Exec(r.(prefix := p), body).(prefix := "");
      Exec(r1, script[1..])
  }

  /** Running a script only ever appends routes. */
  lemma {:induction false} ExecOnlyAppends(r: Router, script: seq<Command>)
    ensures |r.routes| <= |Exec(r, script).routes|
    ensures Exec(r, script).routes[..|r.routes|] == r.routes
    decreases script
  {
    if |script| > 0 {
      var r1 := match script[0]
        case Add(v, uri, h) => RegisterVerb(r, v, uri, h)
        case InGroup(p, body) => Exec(r.(prefix := p), body).(prefix := "");
      match script[0] {
        case Add(v, uri, h) =>
        case InGroup(p, body) =>
          ExecOnlyAppends(r.(prefix := p), body);
      }
      assert r1.routes[..|r.routes|] == r.routes;
      ExecOnlyAppends(r1, script[1..]);
      assert Exec(r, script) == Exec(r1, script[1..]);
      var out := Exec(r1, script[1..]).routes;
      assert out[..|r.routes|] == out[..|r1.routes|][..|r.routes|];
    }
  }

  predicate Flat(script: seq<Command>) {
    forall i :: 0 <= i < |script| ==> script[i].Add?
  }

  /** The routes a flat script registers under a prefix. */
  function Prefixed(prefix: string, script: seq<Command>): (rs: seq<Route>)
    requires Flat(script)
    ensures |rs| == |script|
    ensures forall i :: 0 <= i < |script| ==>
      rs[i] == Route(prefix + script[i].uri, script[i].handler, MethodName(script[i].verb))
  {
    seq(|script|, i requires 0 <= i < |script| =>
      Route(prefix + script[i].uri, script[i].handler, MethodName(script[i].verb)))
  }

  /** One registration step of a script. */
  lemma ExecAdd(r: Router, script: seq<Command>)
    requires |script| > 0 && script[0].Add?
    ensures Exec(r, script)
         == Exec(RegisterVerb(r, script[0].verb, script[0].uri, script[0].handler), script[1..])
  {
  }

  /** One group step of a script: the group's body runs under the group's
      prefix, exactly as `group` runs its callable. */
  lemma ExecGroup(r: Router, script: seq<Command>)
    requires |script| > 0 && script[0].InGroup?
    ensures Exec(r, script)
         == Exec(Group(r, script[0].prefix, (x: Router) => Exec(x, script[0].body)), script[1..])
  {
  }

  lemma {:induction false} ExecFlat(r: Router, script: seq<Command>)
    requires Flat(script)
    ensures Exec(r, script) == Router(r.routes + Prefixed(r.prefix, script), r.prefix)
    decreases script
  {
    if |script| > 0 {
      var c := script[0];
      var r1 := RegisterVerb(r, c.verb, c.uri, c.handler);
      ExecAdd(r, script);
      PrefixedCons(r.prefix, script);
      ExecFlat(r1, script[1..]);
      AppendAssoc(r.routes, Route(r.prefix + c.uri, c.handler, MethodName(c.verb)), Prefixed(r.prefix, script[1..]));
    } else {
      assert r.routes + [] == r.routes;
    }
  }

  lemma AppendAssoc<T>(a: seq<T>, x: T, b: seq<T>)
    ensures (a + [x]) + b == a + ([x] + b)
  {
  }

  lemma PrefixedCons(prefix: string, script: seq<Command>)
    requires |script| > 0 && Flat(script)
    ensures Flat(script[1..])
    ensures Prefixed(prefix, script)
         == [Route(prefix + script[0].uri, script[0].handler, MethodName(script[0].verb))]
            + Prefixed(prefix, script[1..])
  {
    forall i | 0 <= i < |script[1..]| ensures script[1..][i].Add? {
      assert script[1..][i] == script[i + 1];
    }
    var all := Prefixed(prefix, script);
    var rest := Prefixed(prefix, script[1..]);
    forall i | 0 <= i < |all| ensures all[i] == ([all[0]] + rest)[i] {
      if i > 0 {
        assert script[1..][i - 1] == script[i];
      }
    }
  }

  /** A group whose body only registers routes puts the group prefix in front
      of every uri, keeps the verbs and handlers, and leaves the prefix empty. */
  lemma GroupPrefixesItsRoutes(r: Router, prefix: string, body: seq<Command>)
    requires Flat(body)
    ensures Exec(r, [InGroup(prefix, body)]) == Router(r.routes + Prefixed(prefix, body), "")
  {
    ExecFlat(r.(prefix := prefix), body);
    ExecGroup(r, [InGroup(prefix, body)]);
    assert [InGroup(prefix, body)][1..] == [];
  }

  /** Groups do not nest: an inner group's prefix replaces the outer one
      instead of extending it, and after the inner group the outer group's
      remaining routes get no prefix at all, since the reset restores ''
      rather than '/a'. */
  lemma NestedGroupDropsOuterPrefix(h1: Handler, h2: Handler)
    ensures Exec(NoRoutes, [InGroup("/a", [InGroup("/b", [Add(GET, "/x", h1)]), Add(GET, "/y", h2)])]).routes
         == [Route("/b/x", h1, "get"), Route("/y", h2, "get")]
  {
    var inner := [Add(GET, "/x", h1)];
    var tail := [Add(GET, "/y", h2)];
    var outer := [InGroup("/b", inner)] + tail;
    var top := [InGroup("/a", outer)];
    var r0 := Router([], "/a");
    ExecFlat(Router([], "/b"), inner);
    assert "/b" + "/x" == "/b/x";
    assert "" + "/y" == "/y";
    var g1 := Router([Route("/b/x", h1, "get")], "");
    assert Prefixed("/b", inner) == [Route("/b/x", h1, "get")];
    assert Exec(r0.(prefix := "/b"), inner).(prefix := "") == g1;
    assert outer[1..] == tail;
    assert Exec(r0, outer) == Exec(g1, tail);
    ExecAdd(g1, tail);
    assert Exec(g1, tail) == Exec(Register(g1, "/y", h2, "get"), []);
    assert Exec(g1, tail) == Router([Route("/b/x", h1, "get"), Route("/y", h2, "get")], "");
    assert Exec(NoRoutes, top) == Exec(Exec(r0, outer).(prefix := ""), []);
  }

  /** The test `run` applies to each route: the uri equals the url exactly and
      the lower-cased request method equals the route's method. */
  predicate Matches(route: Route, url: string, requestMethod: string) {
    route.uri == url && Lower(requestMethod) == route.httpMethod
  }

  /** Closures and controller arrays are acted on; any other handler is passed over. */
  predicate Dispatchable(h: Handler) {
    h.Closure? || h.Action?
  }

  predicate Selects(route: Route, url: string, requestMethod: string) {
    Matches(route, url, requestMethod) && Dispatchable(route.handler)
  }

  /** Route `i` is the first route, in registration order, that `run` acts on. */
  predicate FirstSelected(routes: seq<Route>, url: string, requestMethod: string, i: int) {
    && 0 <= i < |routes|
    && Selects(routes[i], url, requestMethod)
    && forall j :: 0 <= j < i ==> !Selects(routes[j], url, requestMethod)
  }

  const MissingController :=
    "Handle must be a class of controller if array is supplied or the controller does not exist."

  /** What a selected handler does: a closure is called; a controller array
      throws when its class is missing, throws when its method is missing,
      and otherwise has the method called. */
  function Invoke(h: Handler, classExists: string -> bool, methodExists: (string, string) -> bool): (d: Dispatched)
    requires Dispatchable(h)
    ensures !d.RenderView?
    ensures h.Closure? ==> d == CallClosure(h.token)
    ensures h.Action? ==>
      (d.CallAction? <==> classExists(h.controller) && methodExists(h.controller, h.action))
    ensures h.Action? && d.CallAction? ==> d == CallAction(h.controller, h.action)
    ensures h.Action? && !classExists(h.controller) ==>
      d == Raise(InvalidArgumentException(MissingController))
    ensures h.Action? && classExists(h.controller) && !methodExists(h.controller, h.action) ==>
      d == Raise(BaseException(h.action + " does not exist on " + h.controller))
  {
    match h
    case Closure(t) => CallClosure(t)
    case Action(c, m) =>
      if !classExists(c) then Raise(InvalidArgumentException(MissingController))
      else if !methodExists(c, m) then Raise(BaseException(m + " does not exist on " + c))
      else CallAction(c, m)
  }

  /** The scan of `run`: the first selected route decides the outcome and no
      later route is looked at; with no selected route the `notFound` view
      is rendered. */
  function Dispatch(routes: seq<Route>, url: string, requestMethod: string,
                    classExists: string -> bool, methodExists: (string, string) -> bool,
                    notFound: string): (d: Dispatched)
    ensures d.RenderView? <==> forall i :: 0 <= i < |routes| ==> !Selects(routes[i], url, requestMethod)
    ensures d.RenderView? ==> d.path == notFound
    ensures !d.RenderView? ==> exists i :: FirstSelected(routes, url, requestMethod, i)
                                        && d == Invoke(routes[i].handler, classExists, methodExists)
    decreases |routes|
  {
    if |routes| == 0 then RenderView(notFound)
    else if Selects(routes[0], url, requestMethod) then Invoke(routes[0].handler, classExists, methodExists)
    else
      var d := Dispatch(routes[1..], url, requestMethod, classExists, methodExists, notFound);
      assert forall i :: 1 <= i < |routes| ==> routes[i] == routes[1..][i - 1];
      if !d.RenderView? then
        var i :| FirstSelected(routes[1..], url, requestMethod, i)
                 && d == Invoke(routes[1..][i].handler, classExists, methodExists);
        assert FirstSelected(routes, url, requestMethod, i + 1);
        d
      else d
  }

  /** `run($url)` of the namespaced router: the first route whose uri and
      method match and whose handler can be called decides; a miss renders
      `errors.404`. */
  function Run(r: Router, url: string, requestMethod: string,
               classExists: string -> bool, methodExists: (string, string) -> bool): (d: Dispatched)
    ensures d.RenderView? <==> forall i :: 0 <= i < |r.routes| ==> !Selects(r.routes[i], url, requestMethod)
    ensures d.RenderView? ==> d.path == "errors.404"
    ensures !d.RenderView? ==> exists i :: FirstSelected(r.routes, url, requestMethod, i)
                                        && d == Invoke(r.routes[i].handler, classExists, methodExists)
  {
    Dispatch(r.routes, url, requestMethod, classExists, methodExists, "errors.404")
  }

  /** The first selected route is the only one that matters: whatever follows
      it, the outcome is its handler's. */
  lemma {:induction false} FirstSelectedDecides(routes: seq<Route>, url: string, requestMethod: string,
                                                classExists: string -> bool,
                                                methodExists: (string, string) -> bool,
                                                notFound: string, i: int)
    requires FirstSelected(routes, url, requestMethod, i)
    ensures Dispatch(routes, url, requestMethod, classExists, methodExists, notFound)
         == Invoke(routes[i].handler, classExists, methodExists)
    decreases |routes|
  {
    if i > 0 {
      assert !Selects(routes[0], url, requestMethod);
      assert FirstSelected(routes[1..], url, requestMethod, i - 1) by {
        forall j | 0 <= j < i - 1 ensures !Selects(routes[1..][j], url, requestMethod) {
          assert routes[1..][j] == routes[j + 1];
        }
      }
      FirstSelectedDecides(routes[1..], url, requestMethod, classExists, methodExists, notFound, i - 1);
    }
  }

  /** Registering a route and then requesting exactly its uri with a method
      that lower-cases to its verb runs its handler, provided no earlier
      route claims that request. */
  lemma RegisterThenRun(r: Router, v: Verb, uri: string, h: Handler, requestMethod: string,
                        classExists: string -> bool, methodExists: (string, string) -> bool)
    requires Dispatchable(h)
    requires Lower(requestMethod) == MethodName(v)
    requires forall i :: 0 <= i < |r.routes| ==> !Selects(r.routes[i], r.prefix + uri, requestMethod)
    ensures Run(RegisterVerb(r, v, uri, h), r.prefix + uri, requestMethod, classExists, methodExists)
         == Invoke(h, classExists, methodExists)
  {
    var routes := RegisterVerb(r, v, uri, h).routes;
    assert routes == r.routes + [Route(r.prefix + uri, h, MethodName(v))];
    assert FirstSelected(routes, r.prefix + uri, requestMethod, |r.routes|);
    FirstSelectedDecides(routes, r.prefix + uri, requestMethod, classExists, methodExists, "errors.404", |r.routes|);
  }

  /** A route that does not match the request changes nothing when appended. */
  lemma {:induction false} NonMatchingRouteIsInert(routes: seq<Route>, extra: Route, url: string,
                                                   requestMethod: string,
                                                   classExists: string -> bool,
                                                   methodExists: (string, string) -> bool,
                                                   notFound: string)
    requires !Matches(extra, url, requestMethod)
    ensures Dispatch(routes + [extra], url, requestMethod, classExists, methodExists, notFound)
         == Dispatch(routes, url, requestMethod, classExists, methodExists, notFound)
    decreases |routes|
  {
    if |routes| == 0 {
      assert [] + [extra] == [extra];
      assert [extra][1..] == [];
    } else {
      assert (routes + [extra])[1..] == routes[1..] + [extra];
      NonMatchingRouteIsInert(routes[1..], extra, url, requestMethod, classExists, methodExists, notFound);
    }
  }

  /** Upper- or lower-case request methods dispatch alike. */
  lemma {:induction false} MethodCaseIgnored(routes: seq<Route>, url: string, m1: string, m2: string,
                                             classExists: string -> bool,
                                             methodExists: (string, string) -> bool,
                                             notFound: string)
    requires Lower(m1) == Lower(m2)
    ensures Dispatch(routes, url, m1, classExists, methodExists, notFound)
         == Dispatch(routes, url, m2, classExists, methodExists, notFound)
    decreases |routes|
  {
    if |routes| > 0 {
      MethodCaseIgnored(routes[1..], url, m1, m2, classExists, methodExists, notFound);
    }
  }

  lemma GetRequestIsCaseInsensitive(r: Router, url: string,
                                    classExists: string -> bool, methodExists: (string, string) -> bool)
    ensures Run(r, url, "GET", classExists, methodExists) == Run(r, url, "get", classExists, methodExists)
  {
    assert Lower("GET") == "get";
    assert Lower("get") == "get";
    MethodCaseIgnored(r.routes, url, "GET", "get", classExists, methodExists, "errors.404");
  }
}
