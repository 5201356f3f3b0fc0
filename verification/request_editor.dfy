/** `RequestBuilder`: every edit is a partial update of the request that
    also re-stamps `updatedAt`; list rows are added at the end, replaced at
    an index or removed by index; auth edits rebuild the auth record. */
module RequestEditor {
  import opened Wrappers
  import opened Api
  import Sequences
  import Backend

  /** `Partial<ApiRequest>` as the editor uses it: a present field
      overwrites, an absent one keeps the request's value. */
  datatype Patch = Patch(
    name: Option<string>,
    httpMethod: Option<string>,
    url: Option<string>,
    headers: Option<seq<Header>>,
    queryParams: Option<seq<QueryParam>>,
    body: Option<Body>,
    auth: Option<Auth>)

  const NoChange := Patch(None, None, None, None, None, None, None)

  /** `{...request, ...updates, updatedAt}`. */
  function Apply(r: ApiRequest, p: Patch, stamp: string): (out: ApiRequest)
    ensures out.id == r.id && out.createdAt == r.createdAt && out.updatedAt == stamp
    ensures out.name == p.name.GetOr(r.name) && out.httpMethod == p.httpMethod.GetOr(r.httpMethod)
    ensures out.url == p.url.GetOr(r.url)
    ensures out.headers == p.headers.GetOr(r.headers) && out.queryParams == p.queryParams.GetOr(r.queryParams)
    ensures out.body == (if p.body.Some? then p.body else r.body)
    ensures out.auth == (if p.auth.Some? then p.auth else r.auth)
  {
    r.(name := p.name.GetOr(r.name),
       httpMethod := p.httpMethod.GetOr(r.httpMethod),
       url := p.url.GetOr(r.url),
       headers := p.headers.GetOr(r.headers),
       queryParams := p.queryParams.GetOr(r.queryParams),
       body := if p.body.Some? then p.body else r.body,
       auth := if p.auth.Some? then p.auth else r.auth,
       updatedAt := stamp)
  }

  function Later<T>(a: Option<T>, b: Option<T>): Option<T> {
    if b.Some? then b else a
  }

  /** `q` laid over `p`. */
  function Then(p: Patch, q: Patch): Patch {
    Patch(Later(p.name, q.name), Later(p.httpMethod, q.httpMethod), Later(p.url, q.url),
          Later(p.headers, q.headers), Later(p.queryParams, q.queryParams),
          Later(p.body, q.body), Later(p.auth, q.auth))
  }

  /** Two successive updates are one update with the later fields winning
      and the later stamp. */
  lemma ApplyThen(r: ApiRequest, p: Patch, q: Patch, s1: string, s2: string)
    ensures Apply(Apply(r, p, s1), q, s2) == Apply(r, Then(p, q), s2)
  {
  }

  /** An update without fields only re-stamps the request. */
  lemma ApplyNothing(r: ApiRequest, stamp: string)
    ensures Apply(r, NoChange, stamp) == r.(updatedAt := stamp)
  {
  }

  const BlankParam := QueryParam("", "", true)
  const BlankHeader := Header("", Some(""), true, None)

  function AddQueryParam(r: ApiRequest, stamp: string): (out: ApiRequest)
    ensures out == r.(queryParams := out.queryParams, updatedAt := stamp)
    ensures |out.queryParams| == |r.queryParams| + 1
    ensures out.queryParams[..|r.queryParams|] == r.queryParams && out.queryParams[|r.queryParams|] == BlankParam
  {
    var ps := r.queryParams + [BlankParam];
    assert ps[..|r.queryParams|] == r.queryParams;
    Apply(r, NoChange.(queryParams := Some(ps)), stamp)
  }

  /** The editor only offers indices of existing rows. */
  function UpdateQueryParam(r: ApiRequest, i: nat, p: QueryParam, stamp: string): (out: ApiRequest)
    requires i < |r.queryParams|
    ensures out == r.(queryParams := out.queryParams, updatedAt := stamp)
    ensures |out.queryParams| == |r.queryParams| && out.queryParams[i] == p
    ensures forall j :: 0 <= j < |r.queryParams| && j != i ==> out.queryParams[j] == r.queryParams[j]
  {
    Apply(r, NoChange.(queryParams := Some(Sequences.SetAt(r.queryParams, i, p))), stamp)
  }

  function RemoveQueryParam(r: ApiRequest, i: nat, stamp: string): (out: ApiRequest)
    ensures out == r.(queryParams := out.queryParams, updatedAt := stamp)
    ensures i < |r.queryParams| ==> out.queryParams == r.queryParams[..i] + r.queryParams[i + 1..]
    ensures i >= |r.queryParams| ==> out.queryParams == r.queryParams
  {
    var ps := Sequences.RemoveAt(r.queryParams, i);
    assert i < |r.queryParams| ==> ps == r.queryParams[..i] + r.queryParams[i + 1..];
    Apply(r, NoChange.(queryParams := Some(ps)), stamp)
  }

  function AddHeader(r: ApiRequest, stamp: string): (out: ApiRequest)
    ensures out == r.(headers := out.headers, updatedAt := stamp)
    ensures |out.headers| == |r.headers| + 1
    ensures out.headers[..|r.headers|] == r.headers && out.headers[|r.headers|] == BlankHeader
  {
    var hs := r.headers + [BlankHeader];
    assert hs[..|r.headers|] == r.headers;
    Apply(r, NoChange.(headers := Some(hs)), stamp)
  }

  function UpdateHeader(r: ApiRequest, i: nat, h: Header, stamp: string): (out: ApiRequest)
    requires i < |r.headers|
    ensures out == r.(headers := out.headers, updatedAt := stamp)
    ensures |out.headers| == |r.headers| && out.headers[i] == h
    ensures forall j :: 0 <= j < |r.headers| && j != i ==> out.headers[j] == r.headers[j]
  {
    Apply(r, NoChange.(headers := Some(Sequences.SetAt(r.headers, i, h))), stamp)
  }

  function RemoveHeader(r: ApiRequest, i: nat, stamp: string): (out: ApiRequest)
    ensures out == r.(headers := out.headers, updatedAt := stamp)
    ensures i < |r.headers| ==> out.headers == r.headers[..i] + r.headers[i + 1..]
    ensures i >= |r.headers| ==> out.headers == r.headers
  {
    var hs := Sequences.RemoveAt(r.headers, i);
    assert i < |r.headers| ==> hs == r.headers[..i] + r.headers[i + 1..];
    Apply(r, NoChange.(headers := Some(hs)), stamp)
  }

  /** Removing the row just added gives back the rows as they were. */
  lemma RemoveUndoesAdd(r: ApiRequest, s1: string, s2: string)
    ensures RemoveHeader(AddHeader(r, s1), |r.headers|, s2) == r.(updatedAt := s2)
    ensures RemoveQueryParam(AddQueryParam(r, s1), |r.queryParams|, s2) == r.(updatedAt := s2)
  {
    var a := AddHeader(r, s1);
    assert a.headers[..|r.headers|] + a.headers[|r.headers| + 1..] == r.headers;
    var b := AddQueryParam(r, s1);
    assert b.queryParams[..|r.queryParams|] + b.queryParams[|r.queryParams| + 1..] == r.queryParams;
  }

  /** Choosing an auth type replaces the auth record by one holding only
      the type: every credential is discarded. */
  function SetAuthType(r: ApiRequest, t: string, stamp: string): (out: ApiRequest)
    ensures out == r.(auth := out.auth, updatedAt := stamp)
    ensures out.auth.Some? && out.auth.value.authType == t
    ensures out.auth.value.bearerToken.None? && out.auth.value.basicAuth.None? && out.auth.value.apiKey.None?
    ensures out.auth.value.bearerTokenRef.None?
  {
    Apply(r, NoChange.(auth := Some(Auth(t, None, None, None, None))), stamp)
  }

  /** A bearer edit yields `{type: 'bearer', bearerToken}` and nothing else. */
  function EditBearerToken(r: ApiRequest, token: string, stamp: string): (out: ApiRequest)
    ensures out == r.(auth := Some(Auth("bearer", Some(token), None, None, None)), updatedAt := stamp)
  {
    Apply(r, NoChange.(auth := Some(Auth("bearer", Some(token), None, None, None))), stamp)
  }

  /** The current basic credentials as the form shows them. */
  function ShownUsername(r: ApiRequest): string {
    if r.auth.Some? && r.auth.value.basicAuth.Some? then r.auth.value.basicAuth.value.username else ""
  }

  function ShownPassword(r: ApiRequest): string {
    if r.auth.Some? && r.auth.value.basicAuth.Some? then OrEmpty(r.auth.value.basicAuth.value.password) else ""
  }

  /** A username edit rebuilds `{type: 'basic', basicAuth}` carrying the
      shown password along; every reference field is dropped. */
  function EditUsername(r: ApiRequest, username: string, stamp: string): (out: ApiRequest)
    ensures out == r.(auth := out.auth, updatedAt := stamp)
    ensures ShownUsername(out) == username && ShownPassword(out) == ShownPassword(r)
    ensures out.auth.Some? && out.auth.value.authType == "basic" && out.auth.value.bearerToken.None? && out.auth.value.apiKey.None?
    ensures out.auth == Some(Auth("basic", None, None, Some(BasicAuth(username, Some(ShownPassword(r)), None)), None))
  {
    var a := Auth("basic", None, None, Some(BasicAuth(username, Some(ShownPassword(r)), None)), None);
    Apply(r, NoChange.(auth := Some(a)), stamp)
  }

  function EditPassword(r: ApiRequest, password: string, stamp: string): (out: ApiRequest)
    ensures out == r.(auth := out.auth, updatedAt := stamp)
    ensures ShownPassword(out) == password && ShownUsername(out) == ShownUsername(r)
    ensures out.auth.Some? && out.auth.value.authType == "basic" && out.auth.value.bearerToken.None? && out.auth.value.apiKey.None?
    ensures out.auth == Some(Auth("basic", None, None, Some(BasicAuth(ShownUsername(r), Some(password), None)), None))
  {
    var a := Auth("basic", None, None, Some(BasicAuth(ShownUsername(r), Some(password), None)), None);
    Apply(r, NoChange.(auth := Some(a)), stamp)
  }

  /** The two basic fields are independent: editing them in either order
      gives the same credentials. */
  lemma BasicEditsCommute(r: ApiRequest, u: string, p: string, s1: string, s2: string)
    ensures EditPassword(EditUsername(r, u, s1), p, s2) == EditUsername(EditPassword(r, p, s1), u, s2)
  {
  }

  /** Choosing a body type keeps the content typed so far. */
  function SetBodyType(r: ApiRequest, t: string, stamp: string): (out: ApiRequest)
    ensures out == r.(body := out.body, updatedAt := stamp)
    ensures out.body == Some(Body(t, if r.body.Some? then r.body.value.content else ""))
  {
    Apply(r, NoChange.(body := Some(Body(t, if r.body.Some? then r.body.value.content else ""))), stamp)
  }

  /** The content editor is shown only for a body with a type. */
  function EditBodyContent(r: ApiRequest, content: string, stamp: string): (out: ApiRequest)
    requires r.body.Some?
    ensures out == r.(body := Some(Body(r.body.value.bodyType, content)), updatedAt := stamp)
  {
    Apply(r, NoChange.(body := Some(Body(r.body.value.bodyType, content))), stamp)
  }

  /** A body type chosen after some content was typed keeps that content,
      and the content edit keeps the type. */
  lemma BodyEditsKeepEachOther(r: ApiRequest, t: string, content: string, s1: string, s2: string)
    ensures EditBodyContent(SetBodyType(r, t, s1), content, s2).body == Some(Body(t, content))
    ensures r.body.Some? ==> SetBodyType(EditBodyContent(r, content, s1), t, s2).body == Some(Body(t, content))
  {
  }

  predicate ParamOn(p: QueryParam) { p.enabled }

  predicate HeaderOn(h: Header) { h.enabled }

  /** The tab badge: the number of enabled rows. It shows the full count
      exactly when every row is enabled, and zero exactly when none is. */
  function EnabledParams(ps: seq<QueryParam>): (n: nat)
    ensures n <= |ps|
    ensures n == |ps| <==> forall i :: 0 <= i < |ps| ==> ps[i].enabled
    ensures n == 0 <==> forall i :: 0 <= i < |ps| ==> !ps[i].enabled
  {
    Sequences.FilterLength(ps, ParamOn);
    |Sequences.Filter(ps, ParamOn)|
  }

  function EnabledHeaders(hs: seq<Header>): (n: nat)
    ensures n <= |hs|
    ensures n == |hs| <==> forall i :: 0 <= i < |hs| ==> hs[i].enabled
    ensures n == 0 <==> forall i :: 0 <= i < |hs| ==> !hs[i].enabled
  {
    Sequences.FilterLength(hs, HeaderOn);
    |Sequences.Filter(hs, HeaderOn)|
  }

  /** The badge of two lists laid end to end is the sum of their badges. */
  lemma BadgeAppend(a: seq<QueryParam>, b: seq<QueryParam>, c: seq<Header>, d: seq<Header>)
    ensures EnabledParams(a + b) == EnabledParams(a) + EnabledParams(b)
    ensures EnabledHeaders(c + d) == EnabledHeaders(c) + EnabledHeaders(d)
  {
    Sequences.FilterAppend(a, b, ParamOn);
    Sequences.FilterAppend(c, d, HeaderOn);
  }

  /** A new row is enabled, so adding one raises the badge by one. */
  lemma AddRaisesBadge(r: ApiRequest, stamp: string)
    ensures EnabledParams(AddQueryParam(r, stamp).queryParams) == EnabledParams(r.queryParams) + 1
    ensures EnabledHeaders(AddHeader(r, stamp).headers) == EnabledHeaders(r.headers) + 1
  {
    BadgeAppend(r.queryParams, [BlankParam], r.headers, [BlankHeader]);
  }

  /** `disabled={!request.url || loading}`. */
  predicate SendDisabled(r: ApiRequest, loading: bool) {
    r.url == "" || loading
  }

  /** Send is offered exactly when the request has a URL and nothing is in
      flight; typing a URL into an idle editor turns it on. */
  lemma SendAfterUrlEdit(r: ApiRequest, url: string, stamp: string, loading: bool)
    ensures !SendDisabled(Apply(r, NoChange.(url := Some(url)), stamp), loading) <==> url != "" && !loading
  {
  }

  /** The back end sends the enabled parameters that have a name: never more
      than the badge shows, and exactly as many when no enabled parameter has
      an empty name. */
  lemma {:induction false} SentParamsAgainstBadge(ps: seq<QueryParam>)
    ensures |Sequences.Filter(ps, Backend.ParamSent)| <= EnabledParams(ps)
    ensures |Sequences.Filter(ps, Backend.ParamSent)| == EnabledParams(ps) <==> forall i :: 0 <= i < |ps| && ps[i].enabled ==> ps[i].key != ""
  {
    if |ps| > 0 {
      SentParamsAgainstBadge(ps[1..]);
      assert Sequences.Filter(ps, Backend.ParamSent) == (if Backend.ParamSent(ps[0]) then [ps[0]] else []) + Sequences.Filter(ps[1..], Backend.ParamSent);
      assert Sequences.Filter(ps, ParamOn) == (if ParamOn(ps[0]) then [ps[0]] else []) + Sequences.Filter(ps[1..], ParamOn);
      if forall i :: 0 <= i < |ps| && ps[i].enabled ==> ps[i].key != "" {
        forall i | 0 <= i < |ps[1..]| && ps[1..][i].enabled ensures ps[1..][i].key != "" {
          assert ps[1..][i] == ps[i + 1];
        }
      } else {
        var k :| 0 <= k < |ps| && ps[k].enabled && ps[k].key == "";
        if k > 0 {
          assert ps[1..][k - 1] == ps[k];
        }
      }
    }
  }
}
