/**
 * The two request filters the Heimdall API installs on its HTTP server in
 * `RegisterURLTemplates`: the auth gate and the URL rewriter.
 */
module Gateway {

  import opened Wrappers
  import opened Strings
  import opened Http

  /**
   * The auth gate: a request whose path starts with the API's URL path
   * prefix may be served anonymously; every other request gets no
   * decision from this gate (`null`), which leaves it to the server's
   * default handling.
   */
  function AuthDecision(urlPathPrefix: string, request: HTTPRequest): (d: Option<HTTPAuthentication>)
    ensures d == Some(Anonymous) <==> StartsWith(request.path, urlPathPrefix)
    ensures d == None <==> !StartsWith(request.path, urlPathPrefix)
  {
    if StartsWith(request.path, urlPathPrefix) then Some(Anonymous) else None
  }

  /** Every request below the prefix is anonymous, whatever else it carries. */
  lemma AnonymousBelowPrefix(urlPathPrefix: string, suffix: string, request: HTTPRequest)
    requires request.path == urlPathPrefix + suffix
    ensures AuthDecision(urlPathPrefix, request) == Some(Anonymous)
  {
  }

  /** A path shorter than the prefix never passes the gate. */
  lemma ShortPathNoDecision(urlPathPrefix: string, request: HTTPRequest)
    requires |request.path| < |urlPathPrefix|
    ensures AuthDecision(urlPathPrefix, request) == None
  {
  }

  /**
   * The URL rewriter. All of its rules are commented out in HeimdallAPI.cs, so
   * it hands back the request it was given.
   */
  function Rewrite(request: HTTPRequest): (r: HTTPRequest)
    ensures r == request
  {
    request
  }

  /** Applying the rewriter twice is the same as applying it once. */
  lemma RewriteIdempotent(request: HTTPRequest)
    ensures Rewrite(Rewrite(request)) == Rewrite(request)
  {
  }

  /** The rewriter never changes what the auth gate decides. */
  lemma RewriteKeepsAuthDecision(urlPathPrefix: string, request: HTTPRequest)
    ensures AuthDecision(urlPathPrefix, Rewrite(request)) == AuthDecision(urlPathPrefix, request)
  {
  }

}
