/** The frontend's fetch helpers (frontend/src/lib/api.ts): how the request
    URL and headers are built, and how a reply becomes a value, `undefined`
    or an `ApiError`. The network is a parameter `server` from a request to
    a reply, JSON parsing a parameter `parse`; the browser's stored token
    and its location are the fields of a `Session`. */
module ApiClient {
  import opened Common

  const DefaultBase := "http://localhost:3001"
  const LoginPage := "/admin/login"

  type Headers = map<string, string>

  /** `process.env.NEXT_PUBLIC_API_URL || "http://localhost:3001"`. */
  function ApiBase(env: Option<string>): (base: string)
    ensures base != ""
    ensures env.Some? && env.value != "" ==> base == env.value
    ensures env.None? || env.value == "" ==> base == DefaultBase
  {
    if env.Some? && env.value != "" then env.value else DefaultBase
  }

  /** `path.replace(/^\//, "")`: at most one leading slash goes. */
  function StripSlash(path: string): (r: string)
    ensures path == r || path == "/" + r
    ensures |path| > 0 && path[0] == '/' ==> path == "/" + r
  {
    if |path| > 0 && path[0] == '/' then path[1..] else path
  }

  /** The URL every helper requests: the base, one slash, and the path
      without its leading slash. */
  function RequestUrl(base: string, path: string): (url: string)
    ensures |url| > |base| && url[..|base| + 1] == base + "/"
    ensures url[|base| + 1..] == path || "/" + url[|base| + 1..] == path
    ensures |path| > 0 && path[0] == '/' ==> "/" + url[|base| + 1..] == path
  {
    var url := base + "/" + StripSlash(path);
    assert url[..|base| + 1] == base + "/";
    assert url[|base| + 1..] == StripSlash(path);
    url
  }

  /** Writing a path with or without its leading slash requests the same
      URL. */
  lemma SlashOptional(base: string, x: string)
    requires x == "" || x[0] != '/'
    ensures RequestUrl(base, "/" + x) == RequestUrl(base, x) == base + "/" + x
  {
    assert ("/" + x)[1..] == x;
  }

  /** Only one slash is removed: a path starting with two keeps the second. */
  lemma OnlyOneSlashRemoved(base: string, x: string)
    ensures RequestUrl(base, "//" + x) == base + "/" + "/" + x
  {
    assert ("//" + x)[1..] == "/" + x;
  }

  datatype File = File(name: string, mimeType: string, size: int)

  datatype Body = NoBody | Text(text: string) | Form(field: string, file: File)

  /** The `RequestInit` a caller passes: `method`, `headers` and `body`. */
  datatype Options = Options(verb: Option<string>, headers: Headers, body: Body)

  /** What is handed to `fetch`; a missing verb is fetch's GET. */
  datatype Request = Request(verb: Option<string>, url: string, headers: Headers, body: Body)

  /** What `fetch` settles with: a rejection (network failure), or a
      response whose body text may fail to be read. */
  datatype Reply = Unreachable | Response(status: int, statusText: string, body: Option<string>)

  /** How the helper's promise settles. */
  datatype Outcome =
    | Data(value: Json)                     // `res.json()`
    | Undefined                             // `undefined as T`
    | ApiError(status: int, message: string)
    | InvalidBody                           // `res.json()` rejected
    | NetworkError                          // `fetch` rejected

  predicate IsOk(status: int) {
    200 <= status <= 299
  }

  const JsonContentType: Headers := map["Content-Type" := "application/json"]

  /** `token ? { Authorization: \`Bearer ${token}\` } : {}`: an empty
      token is falsy. */
  function BearerHeader(token: Option<string>): (h: Headers)
    ensures h.Keys <= {"Authorization"}
    ensures "Authorization" in h <==> token.Some? && token.value != ""
    ensures "Authorization" in h ==> h["Authorization"] == "Bearer " + token.value
  {
    if token.Some? && token.value != "" then map["Authorization" := "Bearer " + token.value] else map[]
  }

  /** The headers of `fetchApi`: JSON content type, then the caller's. */
  function PublicHeaders(caller: Headers): (h: Headers)
    ensures h.Keys == caller.Keys + {"Content-Type"}
    ensures forall k :: k in caller ==> h[k] == caller[k]
    ensures "Content-Type" !in caller ==> h["Content-Type"] == "application/json"
  {
    JsonContentType + caller
  }

  /** The headers of `fetchApiAuth`: JSON content type, the bearer token
      when one is stored, then the caller's, which win. */
  function AuthHeaders(token: Option<string>, caller: Headers): (h: Headers)
    ensures forall k :: k in h <==> k in caller || k == "Content-Type" || (k == "Authorization" && token.Some? && token.value != "")
    ensures forall k :: k in caller ==> h[k] == caller[k]
    ensures "Content-Type" !in caller ==> h["Content-Type"] == "application/json"
    ensures "Authorization" !in caller && token.Some? && token.value != "" ==> h["Authorization"] == "Bearer " + token.value
  {
    JsonContentType + BearerHeader(token) + caller
  }

  function PublicRequest(base: string, path: string, options: Options): (req: Request)
    ensures req.url == RequestUrl(base, path) && req.headers == PublicHeaders(options.headers)
    ensures req.verb == options.verb && req.body == options.body
  {
    Request(options.verb, RequestUrl(base, path), PublicHeaders(options.headers), options.body)
  }

  function AuthRequest(base: string, path: string, options: Options, token: Option<string>): (req: Request)
    ensures req.url == RequestUrl(base, path) && req.headers == AuthHeaders(token, options.headers)
    ensures req.verb == options.verb && req.body == options.body
  {
    Request(options.verb, RequestUrl(base, path), AuthHeaders(token, options.headers), options.body)
  }

  /** `uploadFile`: a POST of the file as the form field `file`, with only
      the bearer header (the browser supplies the multipart content type). */
  function UploadRequest(base: string, path: string, file: File, token: Option<string>): (req: Request)
    ensures req.verb == Some("POST") && req.body == Form("file", file)
    ensures req.url == RequestUrl(base, path)
    ensures "Content-Type" !in req.headers
    ensures "Authorization" in req.headers <==> token.Some? && token.value != ""
  {
    Request(Some("POST"), RequestUrl(base, path), BearerHeader(token), Form("file", file))
  }

  /** `body || res.statusText`, the body text being `""` when it cannot be
      read. */
  function ErrorMessage(statusText: string, body: Option<string>): (m: string)
    ensures m == statusText || (body.Some? && m == body.value)
    ensures m == "" ==> statusText == ""
    ensures body.Some? && body.value != "" ==> m == body.value
  {
    if body.Some? && body.value != "" then body.value else statusText
  }

  /** `res.json()`. */
  function JsonBody(body: Option<string>, parse: string -> Option<Json>): (o: Outcome)
    ensures o.Data? || o == InvalidBody
    ensures body.Some? && parse(body.value).Some? ==> o == Data(parse(body.value).value)
    ensures body.None? || parse(body.value).None? ==> o == InvalidBody
  {
    if body.None? then InvalidBody
    else match parse(body.value)
      case None => InvalidBody
      case Some(v) => Data(v)
  }

  /** How `fetchApi` settles: any non-ok status is an `ApiError` carrying
      that status; an ok reply is parsed, a 204 included. */
  function PublicOutcome(reply: Reply, parse: string -> Option<Json>): (o: Outcome)
    ensures o == NetworkError <==> reply.Unreachable?
    ensures o.ApiError? <==> reply.Response? && !IsOk(reply.status)
    ensures o.ApiError? ==> o.status == reply.status && o.message == ErrorMessage(reply.statusText, reply.body)
    ensures reply.Response? && IsOk(reply.status) ==> o == JsonBody(reply.body, parse)
    ensures o != Undefined
  {
    match reply
    case Unreachable => NetworkError
    case Response(status, statusText, body) =>
      if !IsOk(status) then ApiError(status, ErrorMessage(statusText, body))
      else JsonBody(body, parse)
  }

  /** How `fetchApiAuth` settles: a 401 is always `ApiError(401,
      "Unauthorized")`, whatever the body; other non-ok statuses as in
      `fetchApi`; a 204 is `undefined` without reading the body. */
  function AuthOutcome(reply: Reply, parse: string -> Option<Json>): (o: Outcome)
    ensures o == NetworkError <==> reply.Unreachable?
    ensures o.ApiError? <==> reply.Response? && !IsOk(reply.status)
    ensures reply.Response? && reply.status == 401 ==> o == ApiError(401, "Unauthorized")
    ensures reply.Response? && reply.status != 401 && o.ApiError? ==>
      o.status == reply.status && o.message == ErrorMessage(reply.statusText, reply.body)
    ensures o == Undefined <==> reply.Response? && reply.status == 204
    ensures reply.Response? && IsOk(reply.status) && reply.status != 204 ==> o == JsonBody(reply.body, parse)
  {
    match reply
    case Unreachable => NetworkError
    case Response(status, statusText, body) =>
      if status == 401 then ApiError(401, "Unauthorized")
      else if !IsOk(status) then ApiError(status, ErrorMessage(statusText, body))
      else if status == 204 then Undefined
      else JsonBody(body, parse)
  }

  /** How `uploadFile` settles: as `fetchApiAuth`, but with no 204 case. */
  function UploadOutcome(reply: Reply, parse: string -> Option<Json>): (o: Outcome)
    ensures o == NetworkError <==> reply.Unreachable?
    ensures o.ApiError? <==> reply.Response? && !IsOk(reply.status)
    ensures reply.Response? && reply.status == 401 ==> o == ApiError(401, "Unauthorized")
    ensures reply.Response? && reply.status != 401 && o.ApiError? ==>
      o.status == reply.status && o.message == ErrorMessage(reply.statusText, reply.body)
    ensures reply.Response? && IsOk(reply.status) ==> o == JsonBody(reply.body, parse)
    ensures o != Undefined
  {
    match reply
    case Unreachable => NetworkError
    case Response(status, statusText, body) =>
      if status == 401 then ApiError(401, "Unauthorized")
      else if !IsOk(status) then ApiError(status, ErrorMessage(statusText, body))
      else JsonBody(body, parse)
  }

  /** Apart from 401 and 204 the public and authenticated helpers classify
      a reply alike. */
  lemma AuthAgreesWithPublic(reply: Reply, parse: string -> Option<Json>)
    requires reply.Response? ==> reply.status != 401 && reply.status != 204
    ensures AuthOutcome(reply, parse) == PublicOutcome(reply, parse)
  {
  }

  /** Apart from 204 the upload and authenticated helpers classify a reply
      alike. */
  lemma UploadAgreesWithAuth(reply: Reply, parse: string -> Option<Json>)
    requires reply.Response? ==> reply.status != 204
    ensures UploadOutcome(reply, parse) == AuthOutcome(reply, parse)
  {
  }

  /** The public helper has no 401 case: its message is the reply's, so it
      differs from the authenticated helper's whenever the body says
      anything else. */
  lemma PublicUnauthorizedKeepsBody(statusText: string, body: string, parse: string -> Option<Json>)
    requires body != "" && body != "Unauthorized"
    ensures PublicOutcome(Response(401, statusText, Some(body)), parse) == ApiError(401, body)
    ensures PublicOutcome(Response(401, statusText, Some(body)), parse)
      != AuthOutcome(Response(401, statusText, Some(body)), parse)
  {
  }

  /** A 204 the authenticated helper turns into `undefined` is parsed by
      the other two, and an empty body does not parse as JSON. */
  lemma NoContentOnlyAuth(statusText: string, parse: string -> Option<Json>)
    requires parse("").None?
    ensures AuthOutcome(Response(204, statusText, Some("")), parse) == Undefined
    ensures PublicOutcome(Response(204, statusText, Some("")), parse) == InvalidBody
    ensures UploadOutcome(Response(204, statusText, Some("")), parse) == InvalidBody
  {
  }

  /** Once the token is gone, a request carries a bearer header only if the
      caller supplied one. */
  lemma NoTokenNoBearer(base: string, path: string, options: Options)
    ensures "Authorization" in AuthRequest(base, path, options, None).headers <==> "Authorization" in options.headers
    ensures "Authorization" !in UploadRequest(base, path, File("", "", 0), None).headers
  {
  }

  /** The browser side: `localStorage`'s `defnix_token` and
      `window.location.href`. Off the browser (`typeof window ===
      "undefined"`) no token is read and nothing is touched. */
  class Session {
    const inBrowser: bool
    var storedToken: Option<string>
    var location: string

    constructor(inBrowser: bool, storedToken: Option<string>, location: string)
      ensures this.inBrowser == inBrowser && this.storedToken == storedToken && this.location == location
    {
      this.inBrowser := inBrowser;
      this.storedToken := storedToken;
      this.location := location;
    }

    /** The token the helpers read. */
    function Token(): Option<string>
      reads this
    {
      if inBrowser then storedToken else None
    }

    /** `fetchApi(path, options)`: reads no token and changes nothing. */
    method FetchApi(base: string, path: string, options: Options,
                    server: Request -> Reply, parse: string -> Option<Json>) returns (o: Outcome)
      ensures o == PublicOutcome(server(PublicRequest(base, path, options)), parse)
    {
      var reply := server(PublicRequest(base, path, options));
      o := PublicOutcome(reply, parse);
    }

    /** `fetchApiAuth(path, options)`: a 401 in the browser removes the
        token and sends the browser to the login page; nothing else
        changes. */
    method FetchApiAuth(base: string, path: string, options: Options,
                        server: Request -> Reply, parse: string -> Option<Json>) returns (o: Outcome)
      modifies this
      ensures var reply := server(AuthRequest(base, path, options, old(Token())));
        o == AuthOutcome(reply, parse) &&
        if inBrowser && reply.Response? && reply.status == 401
        then storedToken == None && location == LoginPage
        else storedToken == old(storedToken) && location == old(location)
    {
      var reply := server(AuthRequest(base, path, options, Token()));
      if reply.Response? && reply.status == 401 && inBrowser {
        storedToken := None;
        location := LoginPage;
      }
      o := AuthOutcome(reply, parse);
    }

    /** `uploadFile(path, file)`: the same 401 handling as `fetchApiAuth`. */
    method UploadFile(base: string, path: string, file: File,
                      server: Request -> Reply, parse: string -> Option<Json>) returns (o: Outcome)
      modifies this
      ensures var reply := server(UploadRequest(base, path, file, old(Token())));
        o == UploadOutcome(reply, parse) &&
        if inBrowser && reply.Response? && reply.status == 401
        then storedToken == None && location == LoginPage
        else storedToken == old(storedToken) && location == old(location)
    {
      var reply := server(UploadRequest(base, path, file, Token()));
      if reply.Response? && reply.status == 401 && inBrowser {
        storedToken := None;
        location := LoginPage;
      }
      o := UploadOutcome(reply, parse);
    }
  }
}
