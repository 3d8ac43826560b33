# Heimdall API gateway: request resolution, modelled in Dafny

Heimdall is an HTTP gateway built on the Hermod HTTP library. The part of
`HeimdallAPI` modelled here decides what happens to a request before and
after routing:

- **Auth gate** (module `Gateway`). A request whose path starts with the
  API's URL path prefix is marked `Anonymous`. Any other request gets no
  decision (`null`) from this gate.
- **Rewriter** (module `Gateway`). Every rewrite rule in HeimdallAPI.cs is
  commented out, so the rewriter returns the request it is given.
- **Root route** (module `RootResources`). The routes `/index.html`, `/`
  and `/{FileName}` under the prefix serve embedded resources:
  - The resource name is the last parsed URL parameter with `/` replaced
    by `.`. With no parameters it is `index.html`.
  - A name ending in `.` gets `index.shtml` appended.
  - A name ending in `.shtml` is mixed into the HTML shell. The response
    is 404 when the mixed text is null or empty. Otherwise it is 200 with
    HTML content and the UTF-8 bytes of the text.
  - Any other name is looked up as a resource stream. The response is 404
    when the stream is missing. Otherwise it is 200 with the stream and a
    content type chosen from the file extension.
  - Every response carries `Cache-Control: public, max-age=300` and
    `Connection: close`.
  - The 200 response of the template branch sets neither `Server` nor
    `Date`. The other three responses set both.
- **Resource chain** (module `Providers`). Resources are looked up in a
  fixed order: the Heimdall assembly, then UsersAPI, then HTTPAPI. The
  first provider that holds the name is assumed to win.
- **Forwarding** (module `Forwarding`). `AddForwarding` registers a route
  whose handler sends a GET to `Target.Path + path`.
  - When `RemovePath` is set and the path starts (ordinal comparison)
    with the URL template, that prefix is removed from the path first.
  - The target's response is returned unchanged.
  - Only hostname, method and URL template reach the route registration.
    `Target` and `RemovePath` are captured by the handler; every other
    argument is dropped, including `AllowReplacement` and a caller's own
    `HTTPDelegate`.

Helper modules:

- `Strings`: the ordinal .NET string operations used by the core
  (`StartsWith`, `EndsWith`, one-character `Replace`, `LastIndexOf`).
- `Utf8`: the RFC 3629 encoder behind `ToUTF8Bytes`, proved against a
  strict decoder.
- `Http`: the request, response, content-type and route-registration
  values.
- `Wrappers`: `Option`, which stands for a nullable value.

Calls into code that is not part of this model are parameters:

- `MixWithHTMLTemplate` is the function `Resources.mix`.
- `GetResourceStream` is `Resources.resource`, or the provider chain over
  a `Manifest` of the embedded resources.
- `GetResourceString` is a function parameter.
- The outbound HTTP client is the function `get` in `Forwarding.Forward`.
- The clock (`Timestamp.Now`) and the server name are plain parameters.

Three consequences of the code worth stating:

- The rewriter is the identity. `/` and `/index.html` reach the same
  resource because neither has a URL parameter.
- The auth gate returns no decision for paths outside the prefix.
- The forwarding handler uses only `Request.Path`.

## Model

| member | source | states |
|---|---|---|
| Strings.StartsWithByChars | HeimdallAPI/HeimdallAPI.cs:1332 | ordinal prefix test: the prefix is no longer than the text and agrees with it character by character from the start |
| Strings.EndsWithByChars | HeimdallAPI/HeimdallAPI.cs:1177 | ordinal suffix test: the suffix is no longer than the text and agrees with its last characters one by one |
| Strings.ReplaceChar | HeimdallAPI/HeimdallAPI.cs:1174 | `Replace("/", ".")` keeps the length and changes exactly the characters equal to `from`, position by position |
| Strings.ReplaceCharRemoves | HeimdallAPI/HeimdallAPI.cs:1174 | after the replacement no `/` is left in the name |
| Strings.LastIndexOf | HeimdallAPI/HeimdallAPI.cs:1234-1236 | `LastIndexOf` is -1 exactly when the character is absent; otherwise it is the index of the last occurrence |
| Strings.AfterLast | HeimdallAPI/HeimdallAPI.cs:1234-1236 | the text after the last separator is a suffix without the separator; it is the whole text when there is no separator, and a separator stands right before it otherwise |
| Utf8.EncodeChar | HeimdallAPI/HeimdallAPI.cs:1204 | one character encodes to 1 to 4 bytes; the encoding is one byte exactly for ASCII; all bytes after the first are continuation bytes |
| Utf8.Encode | HeimdallAPI/HeimdallAPI.cs:1204 | `ToUTF8Bytes` gives between 1 and 4 bytes per character, and no bytes exactly for empty text |
| Utf8.EncodeAscii | HeimdallAPI/HeimdallAPI.cs:1204 | ASCII text encodes to its own code points, one byte each |
| Utf8.EncodeAppend | HeimdallAPI/HeimdallAPI.cs:1204 | encoding a concatenation is the concatenation of the encodings |
| Utf8.DecodeChar | HeimdallAPI/HeimdallAPI.cs:1204 | a decoded character uses between 1 and 4 of the available bytes |
| Utf8.DecodeEncode | HeimdallAPI/HeimdallAPI.cs:1204 | decoding the UTF-8 body gives back exactly the mixed text |
| Gateway.AuthDecision | HeimdallAPI/HeimdallAPI.cs:1092-1101 | the gate answers `Anonymous` exactly when the path starts with the URL path prefix, and no decision exactly when it does not |
| Gateway.AnonymousBelowPrefix | HeimdallAPI/HeimdallAPI.cs:1094-1095 | any path made of the prefix plus any suffix is anonymous |
| Gateway.ShortPathNoDecision | HeimdallAPI/HeimdallAPI.cs:1094-1099 | a path shorter than the prefix gets no decision |
| Gateway.Rewrite | HeimdallAPI/HeimdallAPI.cs:1107-1156 | the rewriter returns its input unchanged |
| Gateway.RewriteIdempotent | HeimdallAPI/HeimdallAPI.cs:1107-1156 | rewriting twice equals rewriting once |
| Gateway.RewriteKeepsAuthDecision | HeimdallAPI/HeimdallAPI.cs:1092-1156 | rewriting never changes the auth gate's decision |
| RootResources.ResourceName | HeimdallAPI/HeimdallAPI.cs:1173-1175 | the name never contains `/`; with no (or null) parameters it is `index.html`; otherwise it is the last parameter, character by character, with `/` read as `.` |
| RootResources.FilePath | HeimdallAPI/HeimdallAPI.cs:1173-1178 | the final name has no `/`, never ends in `.`, and extends the resource name, by `index.shtml` exactly when that name ends in `.` |
| RootResources.TemplateByChars | HeimdallAPI/HeimdallAPI.cs:1184 | a file path is a template exactly when its last six characters are `.shtml`, compared ordinally |
| RootResources.DefaultResource | HeimdallAPI/HeimdallAPI.cs:1173-1184 | without parameters the resource is `index.html`, which is not a template |
| RootResources.LastParameterDecides | HeimdallAPI/HeimdallAPI.cs:1173-1174 | two parameter lists with the same last element name the same resource |
| RootResources.PlainParameter | HeimdallAPI/HeimdallAPI.cs:1173-1178 | a last parameter without `/` and not ending in `.` is used verbatim as the name |
| RootResources.DirectoryIsIndexTemplate | HeimdallAPI/HeimdallAPI.cs:1173-1184 | a last parameter ending in `/` or `.` always leads to the index template and takes the template branch |
| RootResources.TemplateBranchIff | HeimdallAPI/HeimdallAPI.cs:1173-1184 | the template branch is taken exactly when the last parameter ends in `/` or `.`, or in `shtml` right after a `/` or `.` |
| RootResources.FileName | HeimdallAPI/HeimdallAPI.cs:1234 | the file name is a `/`-free suffix of the path; it is the whole path when it has no `/`, and a `/` stands right before it otherwise |
| RootResources.Extension | HeimdallAPI/HeimdallAPI.cs:1236 | the extension is the `.`-free suffix after the last dot, or the whole name when there is no dot |
| RootResources.ContentTypeFor | HeimdallAPI/HeimdallAPI.cs:1236-1254 | each type belongs to exactly its extensions: `htm`/`html` are HTML, `jpg`/`jpeg` JPEG, `css` CSS, `gif` GIF, `svg` SVG, `png` PNG, `ico` ICO, `swf` SWF, `js` JavaScript, `txt` text, `xml` XML, and exactly the extensions outside these thirteen are octet streams; the comparison is case-sensitive |
| RootResources.NotFoundResponse | HeimdallAPI/HeimdallAPI.cs:1189-1228 | the 404 carries the server name and date, the fixed cache and connection headers, no content type and no body |
| RootResources.LowerCaseHtml | HeimdallAPI/HeimdallAPI.cs:1234-1238 | the default document's extension is `html` |
| RootResources.HandleRoot | HeimdallAPI/HeimdallAPI.cs:1169-1276 | 404 exactly when the mixed text is null or empty (template) or the stream is null (static); 404 has no body and no content type but has server and date; a template 200 has HTML type, a body that decodes to the mixed text, and no server or date; a static 200 has the stream and the type `ContentTypeFor` gives the extension of its file name; every response has the fixed cache and connection headers |
| RootResources.IndexEquivalence | HeimdallAPI/HeimdallAPI.cs:1162-1239 | `/`, `/index.html` and `/{FileName}` with `index.html` give the same response; it is 200 exactly when `index.html` exists as a stream, and then it is HTML |
| RootResources.BranchesAreIndependent | HeimdallAPI/HeimdallAPI.cs:1184-1216 | a template response does not depend on the resource streams, and a static one does not depend on the mixer |
| RootResources.TemplateBodyNonEmpty | HeimdallAPI/HeimdallAPI.cs:1187-1206 | a template 200 carries the UTF-8 bytes of the mixed text, and they are not empty |
| RootResources.RootRoute | HeimdallAPI/HeimdallAPI.cs:1162-1278 | the root route is a GET on any host with exactly the templates `prefix/index.html`, `prefix/` and `prefix/{FileName}`, all starting with the prefix and `/`; its handler is `HandleRoot` on the request's URL parameters; it allows replacement |
| RootResources.RootRouteIsAnonymous | HeimdallAPI/HeimdallAPI.cs:1094-1167 | every request path of the form `prefix/<rest>`, which covers all three root-route templates, passes the auth gate anonymously |
| RootResources.HTMLTemplate | HeimdallAPI/HeimdallAPI.cs:1000 | the shell is the constructor argument when one is given, and otherwise the resource `template.html` |
| Providers.ProviderChain | HeimdallAPI/HeimdallAPI.cs:1015-1020 | the providers come in the order Heimdall, UsersAPI, HTTPAPI, and Heimdall's root is its `HTTPRoot` constant |
| Providers.GetResourceStream | HeimdallAPI/HeimdallAPI.cs:1015-1020 | no stream exactly when none of the three assemblies holds the name under its root; a stream is always one of theirs |
| Providers.FirstMatch | HeimdallAPI/HeimdallAPI.cs:1015-1020 | a hit comes from some provider of the chain; no hit exactly when no provider holds the name |
| Providers.FirstMatchWins | HeimdallAPI/HeimdallAPI.cs:1015-1020 | the content is that of the first provider holding the name |
| Providers.HeimdallResourcesShadowBase | HeimdallAPI/HeimdallAPI.cs:1015-1018 | a resource in the Heimdall assembly shadows same-named resources of the base libraries |
| Providers.HTTPAPIResourcesLast | HeimdallAPI/HeimdallAPI.cs:1015-1020 | when neither Heimdall nor UsersAPI holds the name, the result is HTTPAPI's (possibly nothing) |
| Providers.ChainServices | HeimdallAPI/HeimdallAPI.cs:1015-1020 | the handler's resource streams are the provider chain's lookups |
| Providers.MissingStaticResourceIsNotFound | HeimdallAPI/HeimdallAPI.cs:1216-1230 | a static resource that no assembly holds is answered with 404 |
| Providers.OwnStaticResourceIsServed | HeimdallAPI/HeimdallAPI.cs:1216-1272 | a static resource held by the Heimdall assembly is served as 200 with that stream |
| Forwarding.RequestPath | HeimdallAPI/HeimdallAPI.cs:1327-1334 | the path sent on is always a suffix of the request path; when stripping applies, the template followed by it is the request path; otherwise it is the request path |
| Forwarding.Outbound | HeimdallAPI/HeimdallAPI.cs:1327-1340 | the outbound request is a GET to the target server whose path starts with the target path and ends with the (stripped) request path |
| Forwarding.Forward | HeimdallAPI/HeimdallAPI.cs:1338-1342 | the handler's response is the target's response to a GET at the target server for the target path followed by the (stripped) request path |
| Forwarding.StripTemplate | HeimdallAPI/HeimdallAPI.cs:1329-1339 | with stripping, `<template><suffix>` goes to `<target path><suffix>` |
| Forwarding.ExactTemplateGoesToTargetPath | HeimdallAPI/HeimdallAPI.cs:1329-1339 | with stripping, a request for exactly the template goes to the target path |
| Forwarding.KeepPath | HeimdallAPI/HeimdallAPI.cs:1327-1339 | without stripping, or when the prefix does not match, the whole request path is appended to the target path |
| Forwarding.OnlyThePathIsForwarded | HeimdallAPI/HeimdallAPI.cs:1327-1342 | two requests with the same path produce the same outbound request and the same response |
| Forwarding.ForwardedAsGet | HeimdallAPI/HeimdallAPI.cs:1339 | every forwarded request is a GET, whatever the inbound method |
| Forwarding.AddForwarding | HeimdallAPI/HeimdallAPI.cs:1304-1346 | the registration carries the given hostname, method and single template, a rule holding template, target and `RemovePath`, and the library's default replacement policy |
| Forwarding.IgnoredArgumentsHaveNoEffect | HeimdallAPI/HeimdallAPI.cs:1304-1324 | content type, authentication settings, loggers, error handler, a caller's delegate and `AllowReplacement` do not change the registration |
| Forwarding.Api1Scenario | HeimdallAPITests/AGatewayTests.cs:108-111 | `/api1` forwarded with the default `RemovePath` sends a GET for the target's own path and returns the target's response unchanged |

## Left out

- Route matching, dispatch and the replacement policy (`AddMethodCallback`, `URLReplacement`) belong to the Hermod library, which is not part of this model. The model records only the arguments the core passes.
- The implementations of `MixWithHTMLTemplate` and `GetResourceString` are base-class code, so they are parameters. How the mixer embeds a fragment into the shell is therefore not modelled.
- Providers.FirstMatch: the first-match-wins walk over the providers is an assumption about the base-class `GetResourceStream`. Only the provider order is visible in the Heimdall code. The model assumes that each provider looks up `HTTPRoot + name` in its assembly's manifest. The `HTTPRoot` values of UsersAPI and HTTPAPI are parameters, because those libraries are not part of this model.
- `IsNullOrEmpty` and `ToUTF8Bytes` (HeimdallAPI.cs lines 1189 and 1204) are extension methods of a library that is not part of this model. The model reads the first as "null or the empty string" and the second as the RFC 3629 UTF-8 encoding of the text.
- HTTPPath operations (`+`, `Parse`, `StartsWith`, `ToString`) are modelled as plain string concatenation, identity and ordinal prefix test. Any slash normalisation the library does is not captured. The same applies to the `prefix + "/index.html"` templates in `RootResources.RootRoute`.
- Strings.LastIndexOf: .NET's `LastIndexOf(string)` compares culture-sensitively. The model compares ordinally, so characters that a culture treats as ignorable are not captured.
- Utf8.Encode: .NET strings are UTF-16 and may hold unpaired surrogates, which `ToUTF8Bytes` encodes as U+FFFD. Dafny characters are Unicode scalar values, so unpaired surrogates are not captured.
- The outbound `HTTPClient.GET` is network I/O. It is the function parameter `get`, and its failures (unreachable target, timeouts) are not modelled.
- The query string is not part of the model's request path.
- The `Date` header's value comes from the clock and is a parameter. The `Server` header's value is the server's configured name, also a parameter.
- The request/response event pairs (`HeimdallAPI.cs` lines 114-769) and `HeimdallAPILogger.cs` are asynchronous logging fan-out, with no decision logic to model.
- The constructor's configuration forwarding is left out, as are its side effects: log directory creation and the `DebugLog` event source. Only the choice of the HTML shell (`HTMLTemplate`) is modelled.
- The commented-out rewrite rules and filter are dead code, and the model treats them that way.
- The integration tests (`AGatewayTests.cs`, `HTTPClientTests.cs`) run live servers on TCP ports. Only the `/api1` forwarding they exercise is modelled, as `Forwarding.Api1Scenario`.
