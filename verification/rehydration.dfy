/** `processRequestForImport` and its callers in `importCollectionsSecurely`:
    every non-empty `*Ref` field is looked up through the cache and the
    keychain and removed; a resolved value fills the slot. The `Restore*`
    functions are the reference definition: the same rewrite as a pure
    function of the keychain. */
module Rehydration {
  import opened Wrappers
  import Sequences
  import opened Api
  import opened SecretVault

  /** No non-empty reference is left in an auth record. */
  predicate AuthRefsCleared(a: Auth) {
    && !Truthy(a.bearerTokenRef)
    && (a.basicAuth.Some? ==> !Truthy(a.basicAuth.value.passwordRef))
    && (a.apiKey.Some? ==> !Truthy(a.apiKey.value.valueRef))
  }

  predicate RequestRefsCleared(r: ApiRequest) {
    && (r.auth.Some? ==> AuthRefsCleared(r.auth.value))
    && forall i :: 0 <= i < |r.headers| ==> !Truthy(r.headers[i].valueRef)
  }

  /** The auth rewrite against a keychain. A resolved reference restores
      its value; an unresolved bearer token or API key keeps whatever value
      the slot had; an unresolved basic password is deleted; every non-empty
      reference is removed either way, and a slot without one is left as it
      was. */
  function RestoreAuth(keychain: map<string, string>, a: Auth): (r: Auth)
    ensures r.authType == a.authType
    ensures AuthRefsCleared(r)
    ensures Truthy(a.bearerTokenRef) ==>
      r.bearerToken == (if Resolved(keychain, a.bearerTokenRef.value).Some? then Resolved(keychain, a.bearerTokenRef.value) else a.bearerToken)
    ensures a.basicAuth.Some? && Truthy(a.basicAuth.value.passwordRef) ==>
      r.basicAuth == Some(a.basicAuth.value.(password := Resolved(keychain, a.basicAuth.value.passwordRef.value), passwordRef := None))
    ensures a.apiKey.Some? && Truthy(a.apiKey.value.valueRef) && Resolved(keychain, a.apiKey.value.valueRef.value).None? ==>
      r.apiKey == Some(a.apiKey.value.(valueRef := None))
    ensures a.apiKey.Some? && Truthy(a.apiKey.value.valueRef) && Resolved(keychain, a.apiKey.value.valueRef.value).Some? ==>
      r.apiKey == Some(a.apiKey.value.(value := Resolved(keychain, a.apiKey.value.valueRef.value), valueRef := None))
    ensures !Truthy(a.bearerTokenRef) ==> r.bearerToken == a.bearerToken && r.bearerTokenRef == a.bearerTokenRef
    ensures !(a.basicAuth.Some? && Truthy(a.basicAuth.value.passwordRef)) ==> r.basicAuth == a.basicAuth
    ensures !(a.apiKey.Some? && Truthy(a.apiKey.value.valueRef)) ==> r.apiKey == a.apiKey
  {
    var a1 :=
      if Truthy(a.bearerTokenRef) then
        var s := Resolved(keychain, a.bearerTokenRef.value);
        a.(bearerToken := if s.Some? then s else a.bearerToken, bearerTokenRef := None)
      else a;
    var a2 :=
      if a1.basicAuth.Some? && Truthy(a1.basicAuth.value.passwordRef) then
        var b := a1.basicAuth.value;
        a1.(basicAuth := Some(b.(password := Resolved(keychain, b.passwordRef.value), passwordRef := None)))
      else a1;
    if a2.apiKey.Some? && Truthy(a2.apiKey.value.valueRef) then
      var k := a2.apiKey.value;
      var s := Resolved(keychain, k.valueRef.value);
      a2.(apiKey := Some(k.(value := if s.Some? then s else k.value, valueRef := None)))
    else a2
  }

  /** The header rewrite against a keychain: an unresolved reference leaves
      an empty value. */
  function RestoreHeader(keychain: map<string, string>, h: Header): (r: Header)
    ensures r.key == h.key && r.enabled == h.enabled && !Truthy(r.valueRef)
    ensures Truthy(h.valueRef) ==> r.value == Some(Resolved(keychain, h.valueRef.value).GetOr(""))
    ensures !Truthy(h.valueRef) ==> r == h
  {
    if Truthy(h.valueRef) then
      h.(value := Some(Resolved(keychain, h.valueRef.value).GetOr("")), valueRef := None)
    else h
  }

  function RestoreHeaders(keychain: map<string, string>, hs: seq<Header>): seq<Header> {
    seq(|hs|, i requires 0 <= i < |hs| => RestoreHeader(keychain, hs[i]))
  }

  function RestoreRequest(keychain: map<string, string>, r: ApiRequest): ApiRequest {
    r.(auth := if r.auth.Some? then Some(RestoreAuth(keychain, r.auth.value)) else None,
       headers := RestoreHeaders(keychain, r.headers))
  }

  function RestoreRequests(keychain: map<string, string>, rs: seq<ApiRequest>): seq<ApiRequest> {
    seq(|rs|, i requires 0 <= i < |rs| => RestoreRequest(keychain, rs[i]))
  }

  function RestoreCollections(keychain: map<string, string>, cs: seq<Collection>): seq<Collection> {
    seq(|cs|, i requires 0 <= i < |cs| => cs[i].(requests := RestoreRequests(keychain, cs[i].requests)))
  }

  lemma RestoreHeadersCons(keychain: map<string, string>, h: Header, t: seq<Header>)
    ensures RestoreHeaders(keychain, [h] + t) == [RestoreHeader(keychain, h)] + RestoreHeaders(keychain, t)
  {
  }

  lemma RestoreRequestsCons(keychain: map<string, string>, r: ApiRequest, t: seq<ApiRequest>)
    ensures RestoreRequests(keychain, [r] + t) == [RestoreRequest(keychain, r)] + RestoreRequests(keychain, t)
  {
  }

  lemma RestoreCollectionsCons(keychain: map<string, string>, c: Collection, t: seq<Collection>)
    ensures RestoreCollections(keychain, [c] + t) == [c.(requests := RestoreRequests(keychain, c.requests))] + RestoreCollections(keychain, t)
  {
  }

  /** `resolveSecretReference` followed by the truthiness test every caller
      applies. */
  function Resolve(env: Env, host: Host, id: string): (r: (Option<string>, Env))
    ensures r.1.keychain == env.keychain && r.1.nextId == env.nextId
    ensures Coherent(env) ==> r.0 == Resolved(env.keychain, id) && Coherent(r.1)
  {
    var (s, e) := GetSecret(env, host, id);
    (if Truthy(s) then s else None, e)
  }

  /** The auth part of `processRequestForImport`: bearer, basic, API key, in
      that order, each whatever `auth.type` says. */
  function RehydrateAuth(env: Env, host: Host, a: Auth): (r: (Auth, Env))
    ensures r.1.keychain == env.keychain && r.1.nextId == env.nextId
    ensures AuthRefsCleared(r.0)
    ensures Coherent(env) ==> r.0 == RestoreAuth(env.keychain, a) && Coherent(r.1)
  {
    var (a1, e1) :=
      if Truthy(a.bearerTokenRef) then
        var (s, e) := Resolve(env, host, a.bearerTokenRef.value);
        (a.(bearerToken := if s.Some? then s else a.bearerToken, bearerTokenRef := None), e)
      else (a, env);
    var (a2, e2) :=
      if a1.basicAuth.Some? && Truthy(a1.basicAuth.value.passwordRef) then
        var b := a1.basicAuth.value;
        var (s, e) := Resolve(e1, host, b.passwordRef.value);
        (a1.(basicAuth := Some(b.(password := s, passwordRef := None))), e)
      else (a1, e1);
    if a2.apiKey.Some? && Truthy(a2.apiKey.value.valueRef) then
      var k := a2.apiKey.value;
      var (s, e) := Resolve(e2, host, k.valueRef.value);
      (a2.(apiKey := Some(k.(value := if s.Some? then s else k.value, valueRef := None))), e)
    else (a2, e2)
  }

  /** The header part: `{...header, value: secret || '', valueRef: undefined}`
      for a header with a reference, the header itself otherwise. */
  function RehydrateHeaders(env: Env, host: Host, hs: seq<Header>): (r: (seq<Header>, Env))
    ensures r.1.keychain == env.keychain && r.1.nextId == env.nextId
    ensures |r.0| == |hs|
    ensures forall i :: 0 <= i < |hs| ==> !Truthy(r.0[i].valueRef)
    ensures Coherent(env) ==> Coherent(r.1) && forall i :: 0 <= i < |hs| ==> r.0[i] == RestoreHeader(env.keychain, hs[i])
    decreases |hs|
  {
    if |hs| == 0 then ([], env)
    else
      var h := hs[0];
      var (h', e1) :=
        if Truthy(h.valueRef) then
          var (s, e) := Resolve(env, host, h.valueRef.value);
          (h.(value := Some(s.GetOr("")), valueRef := None), e)
        else (h, env);
      var (t', e2) := RehydrateHeaders(e1, host, hs[1..]);
      assert forall i :: 1 <= i < |hs| ==> hs[i] == hs[1..][i - 1] && ([h'] + t')[i] == t'[i - 1];
      ([h'] + t', e2)
  }

  /** `processRequestForImport`: auth first, then headers; every other field
      is copied. */
  function RehydrateRequest(env: Env, host: Host, r: ApiRequest): (res: (ApiRequest, Env))
    ensures res.1.keychain == env.keychain && res.1.nextId == env.nextId
    ensures res.0 == r.(auth := res.0.auth, headers := res.0.headers)
    ensures RequestRefsCleared(res.0)
    ensures Coherent(env) ==> res.0 == RestoreRequest(env.keychain, r) && Coherent(res.1)
  {
    var (auth', e1) :=
      match r.auth
      case None => (None, env)
      case Some(a) => var (a', e) := RehydrateAuth(env, host, a); (Some(a'), e);
    var (hs', e2) := RehydrateHeaders(e1, host, r.headers);
    (r.(auth := auth', headers := hs'), e2)
  }

  function RehydrateRequests(env: Env, host: Host, rs: seq<ApiRequest>): (res: (seq<ApiRequest>, Env))
    ensures res.1.keychain == env.keychain && res.1.nextId == env.nextId
    ensures |res.0| == |rs|
    ensures forall i :: 0 <= i < |res.0| ==> RequestRefsCleared(res.0[i])
    ensures Coherent(env) ==> res.0 == RestoreRequests(env.keychain, rs) && Coherent(res.1)
    decreases |rs|
  {
    if |rs| == 0 then ([], env)
    else
      var (r', e1) := RehydrateRequest(env, host, rs[0]);
      var (t', e2) := RehydrateRequests(e1, host, rs[1..]);
      RestoreRequestsCons(env.keychain, rs[0], rs[1..]);
      Sequences.HeadTail(rs);
      ([r'] + t', e2)
  }

  /** `{...collection, requests: processedRequests}` for every collection. */
  function RehydrateCollections(env: Env, host: Host, cs: seq<Collection>): (res: (seq<Collection>, Env))
    ensures res.1.keychain == env.keychain && res.1.nextId == env.nextId
    ensures |res.0| == |cs|
    ensures Coherent(env) ==> res.0 == RestoreCollections(env.keychain, cs) && Coherent(res.1)
    decreases |cs|
  {
    if |cs| == 0 then ([], env)
    else
      var (rs', e1) := RehydrateRequests(env, host, cs[0].requests);
      var (t', e2) := RehydrateCollections(e1, host, cs[1..]);
      RestoreCollectionsCons(env.keychain, cs[0], cs[1..]);
      Sequences.HeadTail(cs);
      ([cs[0].(requests := rs')] + t', e2)
  }
}
