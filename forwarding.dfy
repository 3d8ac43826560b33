/**
 * `AddForwarding`: a route whose handler proxies every matching request to
 * a target URL with a GET, optionally removing the route's URL template
 * from the front of the request path, and returns the target's response
 * as is.
 */
module Forwarding {

  import opened Wrappers
  import opened Strings
  import opened Http

  /** A target URL: `server` stands for scheme, host and port, `path` for its path. */
  datatype URL = URL(server: string, path: string)

  /** What a forwarding handler captures when it is registered. */
  datatype ForwardRule = ForwardRule(urlTemplate: string, target: URL, removePath: bool)

  /** The request the handler sends to the target. */
  datatype OutboundRequest = OutboundRequest(httpMethod: HTTPMethod, server: string, path: string)

  /**
   * The request path after the optional strip: with `removePath` set and
   * the path starting (ordinal) with the URL template, what follows the
   * template; otherwise the path unchanged.
   */
  function RequestPath(rule: ForwardRule, requestPath: string): (p: string)
    ensures EndsWith(requestPath, p)
    ensures rule.removePath && StartsWith(requestPath, rule.urlTemplate) ==> rule.urlTemplate + p == requestPath
    ensures !(rule.removePath && StartsWith(requestPath, rule.urlTemplate)) ==> p == requestPath
  {
    if rule.removePath && StartsWith(requestPath, rule.urlTemplate) then
      var p := requestPath[|rule.urlTemplate|..];
      assert rule.urlTemplate + p == requestPath;
      p
    else
      assert requestPath[|requestPath| - |requestPath|..] == requestPath;
      requestPath
  }

  /** The outbound GET: target server, and the target's path followed by the (stripped) request path. */
  function Outbound(rule: ForwardRule, request: HTTPRequest): (o: OutboundRequest)
    ensures o.httpMethod == GET && o.server == rule.target.server
    ensures o.path == rule.target.path + RequestPath(rule, request.path)
    ensures StartsWith(o.path, rule.target.path)
    ensures EndsWith(o.path, RequestPath(rule, request.path))
  {
    var p := RequestPath(rule, request.path);
    StartsWithAppend(rule.target.path, p);
    EndsWithAppend(rule.target.path, p);
    OutboundRequest(GET, rule.target.server, rule.target.path + p)
  }

  /**
   * The forwarding handler: issue the outbound request through `get` (the
   * HTTP client) and hand back whatever comes back, unchanged.
   */
  function Forward<R>(rule: ForwardRule, request: HTTPRequest, get: OutboundRequest -> R): (r: R)
    ensures r == get(OutboundRequest(GET, rule.target.server, rule.target.path + RequestPath(rule, request.path)))
  {
    get(Outbound(rule, request))
  }

  /** Stripping: a request for `<template><suffix>` goes to `<target path><suffix>`. */
  lemma StripTemplate(rule: ForwardRule, request: HTTPRequest, suffix: string)
    requires rule.removePath && request.path == rule.urlTemplate + suffix
    ensures Outbound(rule, request).path == rule.target.path + suffix
  {
  }

  /** A request for exactly the template goes to the target's own path. */
  lemma ExactTemplateGoesToTargetPath(rule: ForwardRule, request: HTTPRequest)
    requires rule.removePath && request.path == rule.urlTemplate
    ensures Outbound(rule, request).path == rule.target.path
  {
  }

  /** Without stripping, or when the path does not start with the template, the path is appended whole. */
  lemma KeepPath(rule: ForwardRule, request: HTTPRequest)
    requires !rule.removePath || !StartsWith(request.path, rule.urlTemplate)
    ensures Outbound(rule, request).path == rule.target.path + request.path
  {
  }

  /** Only the request's path matters: method, host and URL parameters never reach the target. */
  lemma OnlyThePathIsForwarded<R>(rule: ForwardRule, a: HTTPRequest, b: HTTPRequest, get: OutboundRequest -> R)
    requires a.path == b.path
    ensures Outbound(rule, a) == Outbound(rule, b)
    ensures Forward(rule, a, get) == Forward(rule, b, get)
  {
  }

  /** Every forwarded request is a GET, whatever method the inbound request used. */
  lemma ForwardedAsGet(rule: ForwardRule, request: HTTPRequest)
    ensures Outbound(rule, request).httpMethod == GET
  {
  }

  /**
   * The arguments `AddForwarding` accepts but never passes on: the content
   * type, the three authentication settings, the request and response
   * loggers, the default error handler, a caller-supplied handler and
   * the replacement policy.
   */
  datatype IgnoredArguments<A, D> = IgnoredArguments(
    httpContentType: Option<ContentType>,
    urlAuthentication: Option<A>,
    httpMethodAuthentication: Option<A>,
    contentTypeAuthentication: Option<A>,
    httpRequestLogger: Option<D>,
    httpResponseLogger: Option<D>,
    defaultErrorHandler: Option<D>,
    httpDelegate: Option<D>,
    allowReplacement: URLReplacement)

  /**
   * What `AddForwarding` registers: one route for hostname, method and URL
   * template, handled by a forwarding rule, with the library's default
   * replacement policy.
   */
  function AddForwarding<A, D>(hostname: HTTPHostname, httpMethod: HTTPMethod, urlTemplate: string,
                               target: URL, removePath: bool, ignored: IgnoredArguments<A, D>)
    : (r: RouteRegistration<ForwardRule>)
    ensures r.hostname == hostname && r.httpMethod == httpMethod && r.urlTemplates == [urlTemplate]
    ensures r.handler == ForwardRule(urlTemplate, target, removePath)
    ensures r.allowReplacement == None
  {
    RouteRegistration(hostname, httpMethod, [urlTemplate], ForwardRule(urlTemplate, target, removePath), None)
  }

  /** None of the ignored arguments, the replacement policy included, changes the registration. */
  lemma IgnoredArgumentsHaveNoEffect<A, D>(hostname: HTTPHostname, httpMethod: HTTPMethod, urlTemplate: string,
                                           target: URL, removePath: bool,
                                           x: IgnoredArguments<A, D>, y: IgnoredArguments<A, D>)
    ensures AddForwarding(hostname, httpMethod, urlTemplate, target, removePath, x)
              == AddForwarding(hostname, httpMethod, urlTemplate, target, removePath, y)
  {
  }

  /**
   * The gateway scenario: `/api1` registered with the default `RemovePath`
   * and a request for `/api1` sends a GET for the target's own path, and
   * the client gets the target's response unchanged.
   */
  lemma Api1Scenario<R>(target: URL, request: HTTPRequest, ignored: IgnoredArguments<string, string>,
                        get: OutboundRequest -> R)
    requires request.path == "/api1"
    ensures var route := AddForwarding(AnyHost, GET, "/api1", target, true, ignored);
            Outbound(route.handler, request) == OutboundRequest(GET, target.server, target.path)
            && Forward(route.handler, request, get) == get(OutboundRequest(GET, target.server, target.path))
  {
  }

}
