/**
 * The slice of the HTTP data model (Hermod's HTTPRequest, HTTPResponse and
 * HTTPContentType) that the gateway's own code reads or writes.
 */
module Http {

  import opened Wrappers
  import opened Utf8

  datatype HTTPMethod = GET | HEAD | POST | PUT | DELETE | MIRROR | OtherMethod(name: string)

  /** `HTTPHostname.Any` or one concrete host name. */
  datatype HTTPHostname = AnyHost | Host(name: string)

  /**
   * An inbound request as the handlers see it: `Path` is the request path
   * as text, `ParsedURLParameters` the values the route template's
   * placeholders captured (None for a null array).
   */
  datatype HTTPRequest = HTTPRequest(
    httpMethod: HTTPMethod,
    host: string,
    path: string,
    parsedURLParameters: Option<seq<string>>)

  /** The authentication decision the auth gate may return. */
  datatype HTTPAuthentication = Anonymous

  datatype ContentType =
    | HTML_UTF8 | CSS_UTF8 | GIF | JPEG | SVG | PNG | ICO | SWF
    | JAVASCRIPT_UTF8 | TEXT_UTF8 | XMLTEXT_UTF8 | OCTETSTREAM

  datatype HTTPStatusCode = OK | NotFound

  /** A clock reading, supplied by the caller rather than read from `Timestamp.Now`. */
  type Timestamp = nat

  /** No body, a byte array (`Content`), or an embedded resource stream (`ContentStream`). */
  datatype Body = NoContent | Content(bytes: seq<byte>) | ContentStream(stream: seq<byte>)

  datatype HTTPResponse = HTTPResponse(
    status: HTTPStatusCode,
    server: Option<string>,
    date: Option<Timestamp>,
    contentType: Option<ContentType>,
    body: Body,
    cacheControl: string,
    connection: string)

  /** Hermod's policy for a route that is registered a second time. */
  datatype URLReplacement = Fail | Allow

  /**
   * What one `AddMethodCallback` call registers: hostname, method, the URL
   * templates, the handler, and the replacement policy (None when the call
   * leaves it to the library's default).
   */
  datatype RouteRegistration<H> = RouteRegistration(
    hostname: HTTPHostname,
    httpMethod: HTTPMethod,
    urlTemplates: seq<string>,
    handler: H,
    allowReplacement: Option<URLReplacement>)

}
