/** The records the user interface exchanges (`src/types/api.ts`), widened
    where the secret-handling code adds or deletes fields at run time: a
    header or credential can lose its value and gain a `*Ref` sibling. */
module Api {
  import opened Wrappers
  import opened Json

  /** `{key, value, enabled}`; `value` is absent after an export replaced it
      by a reference, `valueRef` present only in that case. */
  datatype Header = Header(key: string, value: Option<string>, enabled: bool, valueRef: Option<string>)

  datatype QueryParam = QueryParam(key: string, value: string, enabled: bool)

  /** `type` is one of none, json, form-data, x-www-form-urlencoded, raw. */
  datatype Body = Body(bodyType: string, content: string)

  datatype BasicAuth = BasicAuth(username: string, password: Option<string>, passwordRef: Option<string>)

  /** `location` is the `in` field: "header" or "query". */
  datatype ApiKey = ApiKey(key: string, value: Option<string>, location: string, valueRef: Option<string>)

  /** `authType` is one of none, bearer, basic, api-key. */
  datatype Auth = Auth(
    authType: string,
    bearerToken: Option<string>,
    bearerTokenRef: Option<string>,
    basicAuth: Option<BasicAuth>,
    apiKey: Option<ApiKey>)

  datatype ApiRequest = ApiRequest(
    id: string,
    name: string,
    httpMethod: string,
    url: string,
    headers: seq<Header>,
    queryParams: seq<QueryParam>,
    body: Option<Body>,
    auth: Option<Auth>,
    createdAt: string,
    updatedAt: string)

  datatype ApiResponse = ApiResponse(
    status: int,
    statusText: string,
    headers: map<string, string>,
    data: Json,
    responseTime: int,
    size: int,
    timestamp: string)

  datatype Collection = Collection(
    id: string,
    name: string,
    description: Option<string>,
    requests: seq<ApiRequest>,
    variables: Option<map<string, string>>,
    createdAt: string,
    updatedAt: string)

  /** JavaScript truthiness of an optional string field. */
  predicate Truthy(o: Option<string>) {
    o.Some? && o.value != ""
  }

  /** `o || ''`. */
  function OrEmpty(o: Option<string>): (r: string)
    ensures Truthy(o) ==> r == o.value
    ensures !Truthy(o) ==> r == ""
  {
    if Truthy(o) then o.value else ""
  }
}
