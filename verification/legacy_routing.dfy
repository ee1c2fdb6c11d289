/** The older global `Router` class: the same route table and dispatch as
    the namespaced router, without group prefixes, and with the 404 view
    named in slash form. */
module LegacyRouting {
  import opened Php
  import opened Text
  import opened Routing

  datatype LegacyRouter = LegacyRouter(routes: seq<Route>)

  /** `register($uri, $handle, $method)`: one route appended with the uri
      stored verbatim; earlier routes unchanged. */
  function Register(r: LegacyRouter, uri: string, handler: Handler, httpMethod: string): (r': LegacyRouter)
    ensures |r'.routes| == |r.routes| + 1
    ensures r'.routes[..|r.routes|] == r.routes
    ensures r'.routes[|r.routes|] == Route(uri, handler, httpMethod)
  {
    LegacyRouter(r.routes + [Route(uri, handler, httpMethod)])
  }

  /** The verb helpers register under the lower-case method names. */
  function RegisterVerb(r: LegacyRouter, v: Verb, uri: string, handler: Handler): (r': LegacyRouter)
    ensures |r'.routes| == |r.routes| + 1 && r'.routes[..|r.routes|] == r.routes
    ensures r'.routes[|r.routes|] == Route(uri, handler, MethodName(v))
    ensures Lower(r'.routes[|r.routes|].httpMethod) == r'.routes[|r.routes|].httpMethod
  {
    Register(r, uri, handler, MethodName(v))
  }

  /** `run($url)`: first selected route wins; a miss renders `errors/404`. */
  function Run(r: LegacyRouter, url: string, requestMethod: string,
               classExists: string -> bool, methodExists: (string, string) -> bool): (d: Dispatched)
    ensures d.RenderView? <==> forall i :: 0 <= i < |r.routes| ==> !Selects(r.routes[i], url, requestMethod)
    ensures d.RenderView? ==> d.path == "errors/404"
    ensures !d.RenderView? ==> exists i :: FirstSelected(r.routes, url, requestMethod, i)
                                        && d == Invoke(r.routes[i].handler, classExists, methodExists)
  {
    Dispatch(r.routes, url, requestMethod, classExists, methodExists, "errors/404")
  }

  /** Registering on the legacy router is registering on the namespaced one
      outside any group. */
  lemma RegisterIsUnprefixed(r: LegacyRouter, uri: string, handler: Handler, httpMethod: string)
    ensures Register(r, uri, handler, httpMethod).routes
         == Routing.Register(Router(r.routes, ""), uri, handler, httpMethod).routes
  {
    assert "" + uri == uri;
  }

  /** Both routers decide a request the same way; only the name of the 404
      view differs. */
  lemma RunsAgreeButFor404(r: LegacyRouter, url: string, requestMethod: string,
                           classExists: string -> bool, methodExists: (string, string) -> bool)
    ensures var legacy := Run(r, url, requestMethod, classExists, methodExists);
      var namespaced := Routing.Run(Router(r.routes, ""), url, requestMethod, classExists, methodExists);
      && (legacy.RenderView? <==> namespaced.RenderView?)
      && (!legacy.RenderView? ==> legacy == namespaced)
      && (legacy.RenderView? ==> legacy.path == "errors/404" && namespaced.path == "errors.404")
  {
    var legacy := Run(r, url, requestMethod, classExists, methodExists);
    if !legacy.RenderView? {
      var i :| FirstSelected(r.routes, url, requestMethod, i)
               && legacy == Invoke(r.routes[i].handler, classExists, methodExists);
      FirstSelectedDecides(r.routes, url, requestMethod, classExists, methodExists, "errors.404", i);
    }
  }
}
