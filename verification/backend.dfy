/** `execute_request` up to the point where the request is sent: the back
    end's own request records (the serde structs, where every value is a
    plain string), and the rules that turn one into a method, query pairs,
    outgoing headers and a body. URL parsing is a host function. */
module Backend {
  import opened Wrappers
  import Api
  import Sequences

  datatype RequestHeader = RequestHeader(key: string, value: string, enabled: bool)
  /** The serde struct has exactly the front end's `{key, value, enabled}`
      fields, so a parameter reaches the back end as the editor holds it. */
  type QueryParam = Api.QueryParam
  datatype RequestBody = RequestBody(bodyType: string, content: string)
  datatype BasicAuth = BasicAuth(username: string, password: string)
  datatype ApiKey = ApiKey(key: string, value: string, location: string)
  datatype Auth = Auth(authType: string, bearerToken: Option<string>, basicAuth: Option<BasicAuth>, apiKey: Option<ApiKey>)

  datatype ApiRequest = ApiRequest(
    id: string,
    name: string,
    httpMethod: string,
    url: string,
    headers: seq<RequestHeader>,
    queryParams: seq<QueryParam>,
    body: Option<RequestBody>,
    auth: Option<Auth>,
    createdAt: string,
    updatedAt: string)

  datatype Collection = Collection(
    id: string,
    name: string,
    description: Option<string>,
    requests: seq<ApiRequest>,
    variables: Option<map<string, string>>,
    createdAt: string,
    updatedAt: string)

  datatype Method = GET | POST | PUT | DELETE | PATCH | HEAD | OPTIONS

  /** A header as the HTTP client receives it; basic credentials are kept
      as a pair, since their Base64 encoding belongs to the client. */
  datatype Outgoing =
    | HeaderEntry(name: string, value: string)
    | BasicCredentials(username: string, password: string)

  /** Everything `send` would be given: the parsed URL, the pairs appended
      to its query, the headers in the order they were added, and the
      body. */
  datatype Prepared = Prepared(
    httpMethod: Method,
    url: string,
    query: seq<(string, string)>,
    headers: seq<Outgoing>,
    body: Option<string>)

  const UnsupportedMethod := "Unsupported HTTP method"

  /** The method whitelist: exactly seven upper-case names. */
  function ParseMethod(name: string): (r: Option<Method>)
    ensures r.Some? <==> name in ["GET", "POST", "PUT", "DELETE", "PATCH", "HEAD", "OPTIONS"]
    ensures r.Some? ==> MethodName(r.value) == name
  {
    match name
    case "GET" => Some(GET)
    case "POST" => Some(POST)
    case "PUT" => Some(PUT)
    case "DELETE" => Some(DELETE)
    case "PATCH" => Some(PATCH)
    case "HEAD" => Some(HEAD)
    case "OPTIONS" => Some(OPTIONS)
    case _ => None
  }

  function MethodName(m: Method): string {
    match m
    case GET => "GET"
    case POST => "POST"
    case PUT => "PUT"
    case DELETE => "DELETE"
    case PATCH => "PATCH"
    case HEAD => "HEAD"
    case OPTIONS => "OPTIONS"
  }

  /** Every method the whitelist accepts parses back from its name. */
  lemma MethodNameRoundTrip(m: Method)
    ensures ParseMethod(MethodName(m)) == Some(m)
  {
  }

  predicate ParamSent(p: QueryParam) {
    p.enabled && p.key != ""
  }

  predicate HeaderSent(h: RequestHeader) {
    h.enabled && h.key != ""
  }

  function Pairs(ps: seq<QueryParam>): (r: seq<(string, string)>)
    ensures |r| == |ps| && forall i :: 0 <= i < |ps| ==> r[i] == (ps[i].key, ps[i].value)
  {
    seq(|ps|, i requires 0 <= i < |ps| => (ps[i].key, ps[i].value))
  }

  function Entries(hs: seq<RequestHeader>): (r: seq<Outgoing>)
    ensures |r| == |hs| && forall i :: 0 <= i < |hs| ==> r[i] == HeaderEntry(hs[i].key, hs[i].value)
  {
    seq(|hs|, i requires 0 <= i < |hs| => HeaderEntry(hs[i].key, hs[i].value))
  }

  /** The credential the type names is present (and, for an API key, is
      to go in a header). */
  predicate AuthApplies(a: Auth) {
    || (a.authType == "bearer" && a.bearerToken.Some?)
    || (a.authType == "basic" && a.basicAuth.Some?)
    || (a.authType == "api-key" && a.apiKey.Some? && a.apiKey.value.location == "header")
  }

  /** The auth dispatch: at most one entry, chosen by the type. A bearer
      without a token, a query-located API key and an unknown type add
      nothing. */
  function AuthEntries(auth: Option<Auth>): (r: seq<Outgoing>)
    ensures |r| <= 1
    ensures |r| == 1 <==> auth.Some? && AuthApplies(auth.value)
    ensures |r| == 1 && auth.value.authType == "bearer" ==> r[0] == HeaderEntry("Authorization", "Bearer " + auth.value.bearerToken.value)
    ensures |r| == 1 && auth.value.authType == "basic" ==> r[0] == BasicCredentials(auth.value.basicAuth.value.username, auth.value.basicAuth.value.password)
    ensures |r| == 1 && auth.value.authType == "api-key" ==> r[0] == HeaderEntry(auth.value.apiKey.value.key, auth.value.apiKey.value.value)
  {
    match auth
    case None => []
    case Some(a) =>
      match a.authType
      case "bearer" => if a.bearerToken.Some? then [HeaderEntry("Authorization", "Bearer " + a.bearerToken.value)] else []
      case "basic" => if a.basicAuth.Some? then [BasicCredentials(a.basicAuth.value.username, a.basicAuth.value.password)] else []
      case "api-key" =>
        if a.apiKey.Some? && a.apiKey.value.location == "header" then [HeaderEntry(a.apiKey.value.key, a.apiKey.value.value)] else []
      case _ => []
  }

  /** A body type whose content type the back end sets. */
  predicate TypedBody(bodyType: string) {
    bodyType == "json" || bodyType == "x-www-form-urlencoded"
  }

  /** The body dispatch: the extra header it adds and the body it sets.
      json and x-www-form-urlencoded add their content type, raw adds
      none, and every other type sends no body. */
  function BodyPart(body: Option<RequestBody>): (r: (seq<Outgoing>, Option<string>))
    ensures r.1.Some? <==> body.Some? && (TypedBody(body.value.bodyType) || body.value.bodyType == "raw")
    ensures r.1.Some? ==> r.1.value == body.value.content
    ensures r.0 != [] <==> body.Some? && TypedBody(body.value.bodyType)
    ensures r.0 != [] ==> r.0 == [HeaderEntry("Content-Type", "application/" + body.value.bodyType)]
  {
    match body
    case None => ([], None)
    case Some(b) =>
      if TypedBody(b.bodyType) then ([HeaderEntry("Content-Type", "application/" + b.bodyType)], Some(b.content))
      else if b.bodyType == "raw" then ([], Some(b.content))
      else ([], None)
  }

  /** The request as `execute_request` builds it: the URL must parse (its
      error comes first), then the method must be one of the seven; query
      pairs and user headers go out in order when enabled and named, then
      the auth entry, then the body's content type. */
  function Assemble(req: ApiRequest, parseUrl: string -> Result<string, string>): (r: Result<Prepared, string>)
    ensures parseUrl(req.url).Failure? ==> r == Failure("Invalid URL: " + parseUrl(req.url).error)
    ensures parseUrl(req.url).Success? ==> (r.Failure? <==> ParseMethod(req.httpMethod).None?)
    ensures parseUrl(req.url).Success? && r.Failure? ==> r.error == UnsupportedMethod
    ensures r.Success? ==>
      var p := r.value;
      && MethodName(p.httpMethod) == req.httpMethod
      && p.url == parseUrl(req.url).value
      && p.query == Pairs(Sequences.Filter(req.queryParams, ParamSent))
      && p.headers == Entries(Sequences.Filter(req.headers, HeaderSent)) + AuthEntries(req.auth) + BodyPart(req.body).0
      && p.body == BodyPart(req.body).1
  {
    var url :- match parseUrl(req.url)
      case Failure(e) => Failure("Invalid URL: " + e)
      case Success(u) => Success(u);
    var m :- match ParseMethod(req.httpMethod)
      case None => Failure(UnsupportedMethod)
      case Some(m) => Success(m);
    var (contentType, body) := BodyPart(req.body);
    Success(Prepared(
      m, url,
      Pairs(Sequences.Filter(req.queryParams, ParamSent)),
      Entries(Sequences.Filter(req.headers, HeaderSent)) + AuthEntries(req.auth) + contentType,
      body))
  }
}
