/** The request and response values that kernels exchange, reduced to what the
    lazy kernel and the URL map depend on. */
module Http {

  /** A request; the only attribute routing looks at is its path. */
  datatype Request = Request(pathInfo: string)

  /** A response; the only attribute the tests look at is its body. */
  datatype Response = Response(content: string)

  datatype Option<T> = None | Some(value: T)

  /** A kernel that answers every request by calling a fixed callable. */
  datatype CallableHttpKernel = CallableHttpKernel(callable: Request -> Response) {
    function Handle(request: Request): Response {
      callable(request)
    }
  }

  /** The leaf kernel the tests build: whatever the request, it answers with `body`. */
  function CreateKernel(body: string): (kernel: CallableHttpKernel)
    ensures forall request :: kernel.Handle(request) == Response(body)
  {
    CallableHttpKernel(request => Response(body))
  }

  /** The "Hello World!" kernel the tests use as the default application. */
  function CreateHelloKernel(): (kernel: CallableHttpKernel)
    ensures forall request :: kernel.Handle(request) == Response("Hello World!")
  {
    CreateKernel("Hello World!")
  }
}
