/** The lazy kernel: a kernel built from a zero-argument factory on first use. */
module LazyKernel {
  import opened Http

  class LazyHttpKernel {
    /** The factory that builds the wrapped kernel. */
    const factory: () -> CallableHttpKernel
    /** The kernel built by the factory, once it has been built. */
    var app: Option<CallableHttpKernel>
    /** How many times the factory has been called. */
    ghost var factoryCalls: nat
    /** How many times `Handle` has been called. */
    ghost var handleCalls: nat

    /** The factory has run exactly once if some request was handled and never
        otherwise, and the cached kernel is the one it built. */
    ghost predicate Valid()
      reads this
    {
      && factoryCalls == (if handleCalls == 0 then 0 else 1)
      && (app.None? <==> handleCalls == 0)
      && (app.Some? ==> app.value == factory())
    }

    /** Construction stores the factory and does not call it. */
    constructor (factory: () -> CallableHttpKernel)
      ensures Valid()
      ensures this.factory == factory
      ensures app == None && factoryCalls == 0 && handleCalls == 0
    {
      this.factory := factory;
      app := None;
      factoryCalls := 0;
      handleCalls := 0;
    }

    /** Builds the kernel on the first call, reuses it on every later call, and
        returns the built kernel's response unchanged. */
    method Handle(request: Request) returns (response: Response)
      requires Valid()
      modifies this
      ensures Valid()
      ensures handleCalls == old(handleCalls) + 1
      ensures factoryCalls == old(factoryCalls) + (if old(app).None? then 1 else 0)
      ensures factoryCalls == 1
      ensures app == Some(factory())
      ensures old(app).Some? ==> app == old(app)
      ensures response == factory().Handle(request)
    {
      if app.None? {
        var kernel := factory();
        factoryCalls := factoryCalls + 1;
        app := Some(kernel);
      }
      handleCalls := handleCalls + 1;
      response := app.value.Handle(request);
    }
  }

  /** The `lazy()` shortcut: the same as constructing a lazy kernel directly. */
  method Lazy(factory: () -> CallableHttpKernel) returns (kernel: LazyHttpKernel)
    ensures fresh(kernel)
    ensures kernel.Valid()
    ensures kernel.factory == factory
    ensures kernel.app == None && kernel.factoryCalls == 0 && kernel.handleCalls == 0
  {
    kernel := new LazyHttpKernel(factory);
  }
}
