/** The URL map: a dispatcher that sends each request to one routed kernel or
    to its default kernel. The matching rule is a modelling assumption: an
    entry matches when its key is a literal prefix of the request path, and the
    first matching entry in table order is taken. */
module UrlMapping {
  import opened Http
  import opened LazyKernel

  /** A kernel that a URL map can hold: a leaf kernel or a lazy one. */
  datatype Handler = Callable(kernel: CallableHttpKernel) | Deferred(lazy: LazyHttpKernel)

  /** The response a handler gives to a request once it is built. This does not
      depend on whether a lazy kernel has already built its kernel. */
  function Respond(handler: Handler, request: Request): Response {
    match handler
    case Callable(kernel) => kernel.Handle(request)
    case Deferred(lazy) => lazy.factory().Handle(request)
  }

  /** An entry's key matches a path when it is a literal prefix of it. */
  predicate IsPrefix(prefix: string, path: string) {
    prefix <= path
  }

  predicate Matches(routes: seq<(string, Handler)>, path: string, i: int) {
    0 <= i < |routes| && IsPrefix(routes[i].0, path)
  }

  /** The index of the entry a path is routed to, if any. */
  function Select(routes: seq<(string, Handler)>, path: string): (r: Option<nat>)
    ensures r.Some? ==> Matches(routes, path, r.value)
    ensures r.None? <==> forall i :: 0 <= i < |routes| ==> !Matches(routes, path, i)
  {
    if routes == [] then None
    else if IsPrefix(routes[0].0, path) then assert Matches(routes, path, 0); Some(0)
    else
      match Select(routes[1..], path)
      case None =>
        assert forall i :: 1 <= i < |routes| ==> Matches(routes[1..], path, i - 1) == Matches(routes, path, i);
        None
      case Some(j) => assert Matches(routes, path, j + 1); Some(j + 1)
  }

  /** Whatever the selection rule, a path matched by exactly one entry goes to
      that entry; it follows from the contract of `Select` alone. */
  lemma SelectUniqueMatch(routes: seq<(string, Handler)>, path: string, i: nat)
    requires Matches(routes, path, i)
    requires forall j :: 0 <= j < |routes| && j != i ==> !Matches(routes, path, j)
    ensures Select(routes, path) == Some(i)
  {
  }

  class UrlMap {
    /** The kernel that handles requests no entry matches. */
    const app: Handler
    /** The routing table, in table order. */
    const routes: seq<(string, Handler)>

    constructor (app: Handler, routes: seq<(string, Handler)>)
      ensures this.app == app && this.routes == routes
    {
      this.app := app;
      this.routes := routes;
    }

    /** The lazy kernels reachable from this map. */
    function Lazies(): (s: set<LazyHttpKernel>)
      ensures forall i :: 0 <= i < |routes| && routes[i].1.Deferred? ==> routes[i].1.lazy in s
      ensures app.Deferred? ==> app.lazy in s
      ensures forall lazy :: lazy in s ==>
        (app == Deferred(lazy)) || exists i :: 0 <= i < |routes| && routes[i].1 == Deferred(lazy)
    {
      (if app.Deferred? then {app.lazy} else {})
        + set i | 0 <= i < |routes| && routes[i].1.Deferred? :: routes[i].1.lazy
    }

    ghost predicate Valid()
      reads Lazies()
    {
      forall lazy :: lazy in Lazies() ==> lazy.Valid()
    }

    /** The handler a request is dispatched to: one routed handler whose key
        matches the path, or the default when no key matches. */
    function Target(request: Request): (h: Handler)
      ensures h.Deferred? ==> h.lazy in Lazies()
      ensures (exists i :: Matches(routes, request.pathInfo, i)) ==>
        exists i :: Matches(routes, request.pathInfo, i) && h == routes[i].1
      ensures (forall i :: 0 <= i < |routes| ==> !Matches(routes, request.pathInfo, i)) ==> h == app
    {
      match Select(routes, request.pathInfo)
      case Some(i) => routes[i].1
      case None => app
    }

    /** Forwards the request, unchanged, to the target handler and returns its
        response; only the target's lazy kernel (if any) changes. */
    method Handle(request: Request) returns (response: Response)
      requires Valid()
      modifies Lazies()
      ensures Valid()
      ensures response == Respond(Target(request), request)
      ensures Target(request).Deferred? ==>
        var lazy := Target(request).lazy;
        && lazy.app == Some(lazy.factory())
        && lazy.factoryCalls == 1
        && lazy.handleCalls == old(lazy.handleCalls) + 1
      ensures forall lazy :: lazy in Lazies() && Target(request) != Deferred(lazy) ==>
        && lazy.app == old(lazy.app)
        && lazy.factoryCalls == old(lazy.factoryCalls)
        && lazy.handleCalls == old(lazy.handleCalls)
    {
      var target := Target(request);
      match target
      case Callable(kernel) =>
        response := kernel.Handle(request);
      case Deferred(lazy) =>
        response := lazy.Handle(request);
    }
  }
}
