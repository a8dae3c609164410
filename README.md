# Lazy HTTP kernel, modelled in Dafny

This project models the lazy kernel of the Stack HTTP middleware tools.
`LazyHttpKernel` wraps a zero-argument factory that builds the real kernel:
- Constructing it does not call the factory.
- The first `handle` call calls the factory, caches the kernel it returns, and passes the request to that kernel.
- Every later `handle` call reuses the cached kernel.

The model also covers:
- the `lazy()` shortcut;
- the constant-body leaf kernels (`CallableHttpKernel`) that the test case builds;
- composing lazy kernels under a `UrlMap` dispatcher. A request to `/foo` builds only the `/foo` lazy kernel.

Files:

- `http.dfy` (module `Http`): requests (path only), responses (body only), the
  callable leaf kernel and `CreateKernel`.
- `lazy_kernel.dfy` (module `LazyKernel`): the class `LazyHttpKernel` and the `Lazy` shortcut.
  - `app` is the cached kernel, an `Option` field.
  - The ghost counter `factoryCalls` counts factory calls.
  - The ghost counter `handleCalls` counts `Handle` calls.
  - `Valid()` states that `factoryCalls` is 1 if `handleCalls` is at least 1, and 0 otherwise. It also states that the cached kernel is the one the factory builds. Every method keeps `Valid()`.
- `url_map.dfy` (module `UrlMapping`): the `UrlMap` dispatcher over a default handler and an ordered routing table. Its handlers are leaf kernels or lazy kernels.
- `lazy_kernel_test.dfy` (module `LazyHttpKernelTest`): one method per scenario of the test case. Each method is verified client code whose `ensures` states what the test asserts.

The source of `UrlMap` is not part of this model. Its selection rule here is a MODELLING ASSUMPTION:
- An entry matches when its key is a literal prefix of the request path.
- The first matching entry in table order is taken.

The proved facts about selection hold under any rule that picks a matching entry:
- The entry taken matches the path.
- No entry is taken if and only if none matches.
- A path that exactly one entry matches goes to that entry.

The last fact is the only routing behaviour the test case depends on.

## Model

| member | source | states |
|---|---|---|
| Http.CreateKernel | tests/unit/Stack/LazyHttpKernelTest.php:109-114 | the leaf kernel ignores the request and answers every request with a response carrying `body` |
| Http.CreateHelloKernel | tests/unit/Stack/LazyHttpKernelTest.php:104-107 | the default kernel answers every request with the response "Hello World!" |
| LazyKernel.LazyHttpKernel.constructor | tests/unit/Stack/LazyHttpKernelTest.php:71-79 | construction stores the factory, caches nothing and calls the factory zero times |
| LazyKernel.LazyHttpKernel.Handle | tests/unit/Stack/LazyHttpKernelTest.php:16-64 | the first call calls the factory once and caches its kernel. A later call reuses the cached kernel and does not call the factory. There has been exactly one factory call after any call. The response is the built kernel's response to the request, unchanged |
| LazyKernel.Lazy | tests/unit/Stack/LazyHttpKernelTest.php:94-100 | the shortcut returns a new lazy kernel in the same state as `new LazyHttpKernel(f)`: it holds `f` and has called it zero times |
| UrlMapping.Select | tests/unit/Stack/LazyHttpKernelTest.php:82-88 | the entry selected for a path matches that path; no entry is selected exactly when no entry matches |
| UrlMapping.SelectUniqueMatch | tests/unit/Stack/LazyHttpKernelTest.php:82-88 | a path that exactly one entry matches is routed to that entry |
| UrlMapping.UrlMap.constructor | tests/unit/Stack/LazyHttpKernelTest.php:82-85 | the map holds the given default kernel and routing table |
| UrlMapping.UrlMap.Target | tests/unit/Stack/LazyHttpKernelTest.php:87-88 | when some routed key matches the request path, the request goes to one routed handler whose key matches; when no key matches, it goes to the default kernel |
| UrlMapping.UrlMap.Handle | tests/unit/Stack/LazyHttpKernelTest.php:87-91 | the response is the target kernel's response to the unchanged request. A lazy target has built its kernel once. Every other lazy kernel in the map is left untouched |
| LazyHttpKernelTest.HandleShouldInvokeFactory | tests/unit/Stack/LazyHttpKernelTest.php:16-27 | a lazy kernel over the hello factory answers "/" with "Hello World!" |
| LazyHttpKernelTest.HandleShouldInvokeFactoryJustOnce | tests/unit/Stack/LazyHttpKernelTest.php:30-45 | one request leads to exactly one factory call |
| LazyHttpKernelTest.HandleShouldReuseCreatedApp | tests/unit/Stack/LazyHttpKernelTest.php:48-64 | two requests still lead to exactly one factory call, and both get the same response |
| LazyHttpKernelTest.WithUrlMap | tests/unit/Stack/LazyHttpKernelTest.php:66-92 | under a URL map, a request to /foo calls foo's factory once and bar's zero times, and is answered by foo's kernel |
| LazyHttpKernelTest.ShortcutFunction | tests/unit/Stack/LazyHttpKernelTest.php:94-102 | the body of the shortcut kernel's response to "/" is the built kernel's body, "Hello World!" |

## Left out

- Requests and responses are opaque Symfony types. A request is reduced to its path, and a response to its body. Request parsing, status codes, headers, the request type and the `catch` flag are not modelled.
- UrlMapping.Select: the actual `UrlMap` matching rules are not modelled, because `UrlMap` belongs to an external package whose code this model does not cover. These include the order in which entries are tried, segment boundaries, URL decoding and the rewriting of the request's script name and path for the routed kernel. The request is forwarded unchanged.
- Factories are total functions that build leaf kernels, as every factory in the test case does. A factory that builds a `UrlMap` or another lazy kernel is not modelled, because a Dafny function cannot allocate objects.
- What happens when a factory fails is not modelled, and neither is retrying after a failure. The test case does not exercise either.
- UrlMapping.UrlMap.constructor: a routing table with an empty key or a duplicate key is accepted, and the model raises no configuration error for it. An empty key `""` matches every path, so it makes every later entry and the default unreachable.
- Failures of the kernel that handles the request are not modelled. When the handling kernel fails, the failure passes through to the caller unchanged. The model cannot express this, because `CallableHttpKernel.callable` is total.
- Concurrent first calls are not modelled. The handling path is single-threaded.
- The PHP closures in the test count factory calls by incrementing variables they capture by reference. The model keeps these counts in the lazy kernel's ghost counter `factoryCalls` instead.
- The PHPUnit class aliasing and the test harness are not modelled.
