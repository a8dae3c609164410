/** The scenarios of the lazy kernel's test case, as verified client code. */
module LazyHttpKernelTest {
  import opened Http
  import opened LazyKernel
  import opened UrlMapping

  function HelloFactory(): () -> CallableHttpKernel {
    () => CreateHelloKernel()
  }

  /** The first request is answered by the kernel the factory builds. */
  method HandleShouldInvokeFactory() returns (response: Response)
    ensures response == Response("Hello World!")
  {
    var kernel := new LazyHttpKernel(HelloFactory());
    response := kernel.Handle(Request("/"));
  }

  /** One request calls the factory exactly once; construction alone does not. */
  method HandleShouldInvokeFactoryJustOnce() returns (response: Response, ghost factoryCalled: nat)
    ensures factoryCalled == 1
    ensures response == Response("Hello World!")
  {
    var kernel := new LazyHttpKernel(HelloFactory());
    assert kernel.factoryCalls == 0;
    response := kernel.Handle(Request("/"));
    factoryCalled := kernel.factoryCalls;
  }

  /** Two requests still call the factory once, and get the same answer. */
  method HandleShouldReuseCreatedApp() returns (first: Response, second: Response, ghost factoryCalled: nat)
    ensures factoryCalled == 1
    ensures first == second == Response("Hello World!")
  {
    var kernel := new LazyHttpKernel(HelloFactory());
    var request := Request("/");
    first := kernel.Handle(request);
    second := kernel.Handle(request);
    factoryCalled := kernel.factoryCalls;
  }

  /** Under a URL map, a request to /foo builds only the /foo lazy kernel. */
  method WithUrlMap() returns (response: Response, ghost fooFactoryCalled: nat, ghost barFactoryCalled: nat)
    ensures fooFactoryCalled == 1 && barFactoryCalled == 0
    ensures response == Response("foo")
  {
    var foo := new LazyHttpKernel(() => CreateKernel("foo"));
    var bar := new LazyHttpKernel(() => CreateKernel("bar"));
    var app := CreateHelloKernel();
    var routes := [("/foo", Deferred(foo)), ("/bar", Deferred(bar))];
    var kernel := new UrlMap(Callable(app), routes);
    var request := Request("/foo");
    // "/bar" is not a prefix of "/foo": they differ in their second character
    assert !IsPrefix("/bar", request.pathInfo) by {
      assert request.pathInfo[..4][1] != "/bar"[1];
    }
    SelectUniqueMatch(routes, request.pathInfo, 0);
    response := kernel.Handle(request);
    fooFactoryCalled := foo.factoryCalls;
    barFactoryCalled := bar.factoryCalls;
  }

  /** The lazy() shortcut yields a lazy kernel whose body is the built kernel's. */
  method ShortcutFunction() returns (content: string)
    ensures content == "Hello World!"
  {
    var kernel := Lazy(HelloFactory());
    var response := kernel.Handle(Request("/"));
    content := response.content;
  }
}
