/**
 * The handler of the root route (`/index.html`, `/` and `/{FileName}` below
 * the URL path prefix), which serves the API's embedded resources: it
 * derives a dotted resource name from the URL, sends `.shtml` documents
 * through the HTML template mixer and every other resource as an opaque
 * stream with a content type chosen by its extension.
 */
module RootResources {

  import opened Wrappers
  import opened Strings
  import opened Utf8
  import opened Http
  import Gateway

  const DefaultFileName: string := "index.html"
  const IndexTemplate: string := "index.shtml"
  const TemplateExtension: string := ".shtml"
  const ShellResourceName: string := "template.html"

  const CacheControl: string := "public, max-age=300"
  const ConnectionClose: string := "close"

  // ---------------------------------------------------------------------
  // Resource name
  // ---------------------------------------------------------------------

  /**
   * The resource name before the index rule: the last parsed URL parameter
   * with every "/" turned into ".", or "index.html" when there is none.
   */
  function ResourceName(parameters: Option<seq<string>>): (r: string)
    ensures '/' !in r
    ensures parameters.None? || parameters.value == [] ==> r == DefaultFileName
    ensures parameters.Some? && parameters.value != [] ==>
              var last := parameters.value[|parameters.value| - 1];
              |r| == |last| &&
              forall i :: 0 <= i < |last| ==> r[i] == (if last[i] == '/' then '.' else last[i])
  {
    if parameters.Some? && |parameters.value| > 0 then
      var last := parameters.value[|parameters.value| - 1];
      ReplaceCharRemoves(last, '/', '.');
      ReplaceChar(last, '/', '.')
    else
      DefaultFileName
  }

  /** A name ending in "." names a directory: its index template is meant. */
  function FilePath(parameters: Option<seq<string>>): (r: string)
    ensures '/' !in r
    ensures !EndsWith(r, ".")
    ensures StartsWith(r, ResourceName(parameters))
    ensures EndsWith(ResourceName(parameters), ".") ==> r == ResourceName(parameters) + IndexTemplate
    ensures !EndsWith(ResourceName(parameters), ".") ==> r == ResourceName(parameters)
  {
    var name := ResourceName(parameters);
    if EndsWith(name, ".") then
      StartsWithAppend(name, IndexTemplate);
      assert (name + IndexTemplate)[|name + IndexTemplate| - 1] == 'l';
      name + IndexTemplate
    else
      assert name[..|name|] == name;
      name
  }

  /** `.shtml` documents are mixed into the HTML shell; everything else is served as is. */
  predicate IsTemplate(filePath: string)
  {
    EndsWith(filePath, TemplateExtension)
  }

  /** The template test compares the last six characters with ".shtml", one by one. */
  lemma TemplateByChars(filePath: string)
    ensures IsTemplate(filePath) <==>
              |filePath| >= 6 && forall i :: 0 <= i < 6 ==> filePath[|filePath| - 6 + i] == ".shtml"[i]
  {
    EndsWithByChars(filePath, TemplateExtension);
  }

  /** With no parameters (`/` and `/index.html`) the resource is the plain document "index.html". */
  lemma DefaultResource(parameters: Option<seq<string>>)
    requires parameters.None? || parameters.value == []
    ensures FilePath(parameters) == "index.html"
    ensures !IsTemplate(FilePath(parameters))
  {
  }

  /** Only the last parsed parameter decides the resource. */
  lemma LastParameterDecides(a: seq<string>, b: seq<string>)
    requires |a| > 0 && |b| > 0 && a[|a| - 1] == b[|b| - 1]
    ensures FilePath(Some(a)) == FilePath(Some(b))
  {
  }

  /** A parameter ending in "/" or "." always takes the template branch, on the index document. */
  lemma DirectoryIsIndexTemplate(parameters: seq<string>)
    requires |parameters| > 0
    requires var last := parameters[|parameters| - 1]; |last| > 0 && IsSeparator(last[|last| - 1])
    ensures EndsWith(FilePath(Some(parameters)), IndexTemplate)
    ensures IsTemplate(FilePath(Some(parameters)))
  {
    var name := ResourceName(Some(parameters));
    var last := parameters[|parameters| - 1];
    assert name[|name| - 1] == '.';
    assert name[|name| - 1..] == ".";
    var r := FilePath(Some(parameters));
    assert r == name + IndexTemplate;
    assert r[|name|..] == IndexTemplate;
    assert r[|r| - 6..] == IndexTemplate[5..] == TemplateExtension;
  }

  /** The characters that become "." in a resource name. */
  predicate IsSeparator(c: char)
  {
    c == '/' || c == '.'
  }

  /**
   * Which URLs reach the template mixer: exactly those whose last parameter
   * ends in "/" or "." (a directory), or in "shtml" right after a "/" or a
   * "." (so "a/shtml" is treated as the document "a.shtml").
   */
  lemma TemplateBranchIff(parameters: seq<string>)
    requires |parameters| > 0
    ensures var last := parameters[|parameters| - 1];
            IsTemplate(FilePath(Some(parameters))) <==>
              (|last| > 0 && IsSeparator(last[|last| - 1])) ||
              (|last| >= 6 && IsSeparator(last[|last| - 6]) && last[|last| - 5..] == "shtml")
  {
    var last := parameters[|parameters| - 1];
    if |last| > 0 && IsSeparator(last[|last| - 1]) {
      DirectoryIsIndexTemplate(parameters);
    } else {
      var name := ResourceName(Some(parameters));
      DocumentTemplateIff(last, name);
    }
  }

  /** For a name that does not end in a separator, the template test reads off the original text. */
  lemma DocumentTemplateIff(original: string, name: string)
    requires |name| == |original|
    requires forall i :: 0 <= i < |original| ==>
               name[i] == (if original[i] == '/' then '.' else original[i])
    requires !(|original| > 0 && IsSeparator(original[|original| - 1]))
    ensures !EndsWith(name, ".")
    ensures IsTemplate(name) <==>
              |original| >= 6 && IsSeparator(original[|original| - 6]) && original[|original| - 5..] == "shtml"
  {
    if |name| > 0 {
      assert name[|name| - 1] != '.';
      assert name[|name| - 1..] != ".";
    }
    if |name| >= 6 {
      assert name[|name| - 6..] == [name[|name| - 6]] + name[|name| - 5..];
      assert name[|name| - 6] == '.' <==> IsSeparator(original[|original| - 6]);
      ReplacedSuffix(original, name, "shtml");
    }
  }

  /** A suffix free of "/" and "." reads the same before and after the replacement. */
  lemma ReplacedSuffix(original: string, replaced: string, suffix: string)
    requires |replaced| == |original|
    requires forall i :: 0 <= i < |original| ==>
               replaced[i] == (if original[i] == '/' then '.' else original[i])
    requires '/' !in suffix && '.' !in suffix && |suffix| <= |original|
    ensures replaced[|replaced| - |suffix|..] == suffix <==> original[|original| - |suffix|..] == suffix
  {
    var k := |original| - |suffix|;
    if replaced[k..] == suffix {
      forall i | 0 <= i < |suffix| ensures original[k + i] == suffix[i] {
        assert replaced[k + i] == suffix[i];
      }
    }
    if original[k..] == suffix {
      forall i | 0 <= i < |suffix| ensures replaced[k + i] == suffix[i] {
        assert original[k + i] == suffix[i];
      }
    }
  }

  // ---------------------------------------------------------------------
  // Content type
  // ---------------------------------------------------------------------

  /** The file name part of a resource path: the text after the last "/". */
  function FileName(filePath: string): (r: string)
    ensures '/' !in r && EndsWith(filePath, r)
    ensures '/' !in filePath ==> r == filePath
    ensures '/' in filePath ==> |r| < |filePath| && filePath[|filePath| - |r| - 1] == '/'
  {
    AfterLast(filePath, '/')
  }

  /** The extension of a file name: the text after the last ".", or the whole name when it has none. */
  function Extension(fileName: string): (r: string)
    ensures '.' !in r && EndsWith(fileName, r)
    ensures '.' !in fileName ==> r == fileName
    ensures '.' in fileName ==> |r| < |fileName| && fileName[|fileName| - |r| - 1] == '.'
  {
    AfterLast(fileName, '.')
  }

  /**
   * The content type of a static resource, by its (case-sensitive)
   * extension: thirteen extensions have a type of their own, every other
   * one is an octet stream.
   */
  function ContentTypeFor(extension: string): (t: ContentType)
    ensures t == HTML_UTF8 <==> extension == "htm" || extension == "html"
    ensures t == JPEG <==> extension == "jpg" || extension == "jpeg"
    ensures t == CSS_UTF8 <==> extension == "css"
    ensures t == GIF <==> extension == "gif"
    ensures t == SVG <==> extension == "svg"
    ensures t == PNG <==> extension == "png"
    ensures t == ICO <==> extension == "ico"
    ensures t == SWF <==> extension == "swf"
    ensures t == JAVASCRIPT_UTF8 <==> extension == "js"
    ensures t == TEXT_UTF8 <==> extension == "txt"
    ensures t == XMLTEXT_UTF8 <==> extension == "xml"
    ensures t == OCTETSTREAM <==>
              extension !in {"htm", "html", "css", "gif", "jpg", "jpeg", "svg", "png", "ico",
                             "swf", "js", "txt", "xml"}
  {
    match extension
    case "htm" => HTML_UTF8
    case "html" => HTML_UTF8
    case "css" => CSS_UTF8
    case "gif" => GIF
    case "jpg" => JPEG
    case "jpeg" => JPEG
    case "svg" => SVG
    case "png" => PNG
    case "ico" => ICO
    case "swf" => SWF
    case "js" => JAVASCRIPT_UTF8
    case "txt" => TEXT_UTF8
    case "xml" => XMLTEXT_UTF8
    case _ => OCTETSTREAM
  }

  /** The default document "index.html" has the extension "html". */
  lemma LowerCaseHtml()
    ensures Extension(FileName("index.html")) == "html"
  {
    assert FileName("index.html") == "index.html";
    AfterLastAt("index.html", '.', 5);
  }

  // ---------------------------------------------------------------------
  // The handler
  // ---------------------------------------------------------------------

  /**
   * The base-class services the handler calls, as parameters:
   * `mix(name)` is `MixWithHTMLTemplate(name)` (None for null) and
   * `resource(name)` is `GetResourceStream(name)` (None for null).
   */
  datatype Resources = Resources(
    mix: string -> Option<string>,
    resource: string -> Option<seq<byte>>)

  /** The 404 both branches build: server name and date, the fixed headers, and nothing else. */
  function NotFoundResponse(serverName: string, now: Timestamp): (r: HTTPResponse)
    ensures r.status == NotFound && r.body == NoContent && r.contentType == None
    ensures r.server == Some(serverName) && r.date == Some(now)
    ensures r.cacheControl == CacheControl && r.connection == ConnectionClose
  {
    HTTPResponse(NotFound, Some(serverName), Some(now), None, NoContent, CacheControl, ConnectionClose)
  }

  /** The root route's handler, for one request's parsed URL parameters. */
  function HandleRoot(parameters: Option<seq<string>>, services: Resources,
                      serverName: string, now: Timestamp): (r: HTTPResponse)
    ensures r.cacheControl == "public, max-age=300" && r.connection == "close"
    ensures var name := FilePath(parameters);
            r.status == NotFound <==>
              if IsTemplate(name) then services.mix(name) == None || services.mix(name) == Some("")
              else services.resource(name) == None
    ensures r.status == NotFound ==>
              r.body == NoContent && r.contentType == None && r.server == Some(serverName) && r.date == Some(now)
    ensures var name := FilePath(parameters);
            r.status == OK && IsTemplate(name) ==>
              services.mix(name).Some? && services.mix(name).value != [] &&
              r.contentType == Some(HTML_UTF8) && r.body.Content? &&
              Decode(r.body.bytes) == services.mix(name) &&
              r.server == None && r.date == None
    ensures var name := FilePath(parameters);
            r.status == OK && !IsTemplate(name) ==>
              services.resource(name).Some? &&
              r.contentType == Some(ContentTypeFor(Extension(FileName(name)))) &&
              r.body == ContentStream(services.resource(name).value) &&
              r.server == Some(serverName) && r.date == Some(now)
  {
    var name := FilePath(parameters);
    if IsTemplate(name) then
      var file := services.mix(name);
      if file == None || file == Some("") then NotFoundResponse(serverName, now)
      else
        DecodeEncode(file.value);
        HTTPResponse(OK, None, None, Some(HTML_UTF8), Content(Encode(file.value)), CacheControl, ConnectionClose)
    else
      var stream := services.resource(name);
      if stream == None then NotFoundResponse(serverName, now)
      else
        HTTPResponse(OK, Some(serverName), Some(now), Some(ContentTypeFor(Extension(FileName(name)))),
                     ContentStream(stream.value), CacheControl, ConnectionClose)
  }

  /**
   * `/` and `/index.html` (no parameters) and `/{FileName}` with FileName
   * "index.html" are one and the same resource: the HTML document
   * "index.html" from the resource streams, never the template mixer.
   */
  lemma IndexEquivalence(services: Resources, serverName: string, now: Timestamp)
    ensures HandleRoot(None, services, serverName, now) == HandleRoot(Some([]), services, serverName, now)
    ensures HandleRoot(Some(["index.html"]), services, serverName, now) == HandleRoot(None, services, serverName, now)
    ensures var r := HandleRoot(None, services, serverName, now);
            r.status == OK <==> services.resource("index.html").Some?
    ensures var r := HandleRoot(None, services, serverName, now);
            r.status == OK ==> r.contentType == Some(HTML_UTF8)
  {
    DefaultResource(None);
    DefaultResource(Some([]));
    PlainParameter(["index.html"]);
    LowerCaseHtml();
  }

  /** A last parameter without "/" or a trailing "." names its resource verbatim. */
  lemma PlainParameter(parameters: seq<string>)
    requires |parameters| > 0
    requires var last := parameters[|parameters| - 1];
             '/' !in last && !EndsWith(last, ".")
    ensures FilePath(Some(parameters)) == parameters[|parameters| - 1]
  {
    var last := parameters[|parameters| - 1];
    var name := ResourceName(Some(parameters));
    assert |name| == |last|;
    forall i | 0 <= i < |name| ensures name[i] == last[i] {
      assert last[i] != '/';
    }
    assert name == last;
  }

  /** A template never touches the resource streams, a static resource never the mixer. */
  lemma BranchesAreIndependent(parameters: Option<seq<string>>, a: Resources, b: Resources,
                               serverName: string, now: Timestamp)
    ensures IsTemplate(FilePath(parameters)) && a.mix == b.mix ==>
              HandleRoot(parameters, a, serverName, now) == HandleRoot(parameters, b, serverName, now)
    ensures !IsTemplate(FilePath(parameters)) && a.resource == b.resource ==>
              HandleRoot(parameters, a, serverName, now) == HandleRoot(parameters, b, serverName, now)
  {
  }

  /** The template body is the UTF-8 encoding of the mixed text, so a text with content has bytes. */
  lemma TemplateBodyNonEmpty(parameters: Option<seq<string>>, services: Resources,
                             serverName: string, now: Timestamp)
    requires IsTemplate(FilePath(parameters))
    requires var r := HandleRoot(parameters, services, serverName, now); r.status == OK
    ensures var r := HandleRoot(parameters, services, serverName, now);
            r.body == Content(Encode(services.mix(FilePath(parameters)).value)) && |r.body.bytes| > 0
  {
  }

  // ---------------------------------------------------------------------
  // Registration and the HTML shell
  // ---------------------------------------------------------------------

  /** A request handler of the root route, with the services and values it draws on. */
  type RootHandler = (HTTPRequest, Resources, string, Timestamp) -> HTTPResponse

  /** The root route's handler: `HandleRoot` on the request's parsed URL parameters. */
  function HandleRequest(request: HTTPRequest, services: Resources, serverName: string,
                         now: Timestamp): HTTPResponse
  {
    HandleRoot(request.parsedURLParameters, services, serverName, now)
  }

  /** The registration of the root route under the URL path prefix; a later one may replace it. */
  function RootRoute(urlPathPrefix: string): (r: RouteRegistration<RootHandler>)
    ensures r.hostname == AnyHost && r.httpMethod == GET && r.allowReplacement == Some(Allow)
    ensures r.urlTemplates == [urlPathPrefix + "/index.html", urlPathPrefix + "/", urlPathPrefix + "/{FileName}"]
    ensures forall t :: t in r.urlTemplates ==> StartsWith(t, urlPathPrefix + "/")
    ensures forall request, services, serverName, now ::
              r.handler(request, services, serverName, now)
                == HandleRoot(request.parsedURLParameters, services, serverName, now)
  {
    var r := RouteRegistration(AnyHost, GET,
                               [urlPathPrefix + "/index.html", urlPathPrefix + "/", urlPathPrefix + "/{FileName}"],
                               HandleRequest, Some(Allow));
    StartsWithAppend(urlPathPrefix + "/", "index.html");
    StartsWithAppend(urlPathPrefix + "/", "{FileName}");
    assert urlPathPrefix + "/" + "" == urlPathPrefix + "/";
    StartsWithAppend(urlPathPrefix + "/", "");
    r
  }

  /** The auth gate lets every request below the root route's `prefix + "/"` through anonymously. */
  lemma RootRouteIsAnonymous(urlPathPrefix: string, request: HTTPRequest, rest: string)
    requires request.path == urlPathPrefix + "/" + rest
    ensures Gateway.AuthDecision(urlPathPrefix, request) == Some(Anonymous)
  {
    assert request.path == urlPathPrefix + ("/" + rest);
    StartsWithAppend(urlPathPrefix, "/" + rest);
  }

  /**
   * The HTML shell templates are mixed into: the constructor's argument
   * when one was given, otherwise the resource "template.html".
   */
  function HTMLTemplate(htmlTemplate: Option<string>, resourceString: string -> string): (shell: string)
    ensures htmlTemplate.Some? ==> shell == htmlTemplate.value
    ensures htmlTemplate.None? ==> shell == resourceString(ShellResourceName)
  {
    match htmlTemplate
    case Some(t) => t
    case None => resourceString(ShellResourceName)
  }

}
