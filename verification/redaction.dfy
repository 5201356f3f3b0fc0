/** `processRequestForExport` and its callers in `exportCollectionsSecurely`:
    the redaction policy chosen from the export options, applied to the one
    credential slot the auth type selects and to every secret header. */
module Redaction {
  import opened Wrappers
  import Sequences
  import opened Api
  import opened SecretVault
  import Text

  /** Keep the values (the export is meant to be encrypted), replace them by
      references into the local store, or drop them. */
  datatype Policy = Keep | Reference | Drop

  /** The option precedence of every branch in `processRequestForExport`. */
  function ChoosePolicy(includeSecrets: bool, secretReferences: bool): (p: Policy)
    ensures p == Keep <==> includeSecrets
    ensures p == Reference <==> !includeSecrets && secretReferences
    ensures p == Drop <==> !includeSecrets && !secretReferences
  {
    if includeSecrets then Keep else if secretReferences then Reference else Drop
  }

  /** `isSecretHeader`'s list, lower case. */
  const SecretHeaderNames: seq<string> :=
    ["authorization", "api-key", "x-api-key", "x-auth-token", "x-access-token", "authentication"]

  /** A header is secret when its lower-cased name is one of the six. */
  predicate IsSecretHeader(key: string) {
    Text.Lower(key) in SecretHeaderNames
  }

  /** Header-name matching is exact up to letter case: a name is secret iff
      it spells one of the six names in some mix of cases. */
  lemma SecretHeaderIff(key: string)
    ensures IsSecretHeader(key) <==> exists n :: n in SecretHeaderNames && Text.SameIgnoringCase(key, n)
  {
    forall n | n in SecretHeaderNames
      ensures Text.Lower(key) == n <==> Text.SameIgnoringCase(key, n)
    {
      Text.LowerEqualsIff(key, n);
    }
  }

  /** The auth slot an export processes: the one named by `auth.type`, and
      only when its value is non-empty. */
  predicate BearerSlot(a: Auth) {
    a.authType == "bearer" && Truthy(a.bearerToken)
  }

  predicate BasicSlot(a: Auth) {
    a.authType == "basic" && a.basicAuth.Some? && Truthy(a.basicAuth.value.password)
  }

  predicate ApiKeySlot(a: Auth) {
    a.authType == "api-key" && a.apiKey.Some? && Truthy(a.apiKey.value.value)
  }

  /** No non-empty credential is left in the slot `auth.type` names. */
  predicate SelectedSlotClear(a: Auth) {
    && (a.authType == "bearer" ==> !Truthy(a.bearerToken))
    && (a.authType == "basic" && a.basicAuth.Some? ==> !Truthy(a.basicAuth.value.password))
    && (a.authType == "api-key" && a.apiKey.Some? ==> !Truthy(a.apiKey.value.value))
  }

  /** The auth part of `processRequestForExport`. Keep leaves the slot; Drop
      deletes the value; Reference stores it under a fresh id, records the
      id in the `*Ref` sibling and deletes the value. Other fields, and the
      slots the type does not name, are untouched. */
  function RedactAuth(env: Env, host: Host, a: Auth, p: Policy): (r: (Auth, Env))
    ensures p == Keep || !(BearerSlot(a) || BasicSlot(a) || ApiKeySlot(a)) ==> r == (a, env)
    ensures p != Keep ==> SelectedSlotClear(r.0)
    ensures p == Drop ==> r.1 == env
    ensures p == Drop && BearerSlot(a) ==> r.0 == a.(bearerToken := None)
    ensures p == Drop && BasicSlot(a) ==> r.0 == a.(basicAuth := Some(a.basicAuth.value.(password := None)))
    ensures p == Drop && ApiKeySlot(a) ==> r.0 == a.(apiKey := Some(a.apiKey.value.(value := None)))
    ensures p == Reference && BearerSlot(a) ==>
      r.0 == a.(bearerToken := None, bearerTokenRef := Some(host.uuid(env.nextId)))
      && r.1.keychain == env.keychain[host.uuid(env.nextId) := a.bearerToken.value]
    ensures p == Reference && BasicSlot(a) ==>
      r.0 == a.(basicAuth := Some(a.basicAuth.value.(password := None, passwordRef := Some(host.uuid(env.nextId)))))
      && r.1.keychain == env.keychain[host.uuid(env.nextId) := a.basicAuth.value.password.value]
    ensures p == Reference && ApiKeySlot(a) ==>
      r.0 == a.(apiKey := Some(a.apiKey.value.(value := None, valueRef := Some(host.uuid(env.nextId)))))
      && r.1.keychain == env.keychain[host.uuid(env.nextId) := a.apiKey.value.value.value]
    ensures r.1.nextId == env.nextId + (if p == Reference && (BearerSlot(a) || BasicSlot(a) || ApiKeySlot(a)) then 1 else 0)
    ensures KeychainFrame(host, env, r.1)
    ensures Coherent(env) ==> Coherent(r.1)
  {
    if BearerSlot(a) then
      match p
      case Keep => (a, env)
      case Drop => (a.(bearerToken := None), env)
      case Reference =>
        var (id, e) := Mint(env, host, a.bearerToken.value, BearerTokenKind);
        (a.(bearerToken := None, bearerTokenRef := Some(id)), e)
    else if BasicSlot(a) then
      var b := a.basicAuth.value;
      match p
      case Keep => (a, env)
      case Drop => (a.(basicAuth := Some(b.(password := None))), env)
      case Reference =>
        var (id, e) := Mint(env, host, b.password.value, BasicAuthKind);
        (a.(basicAuth := Some(b.(password := None, passwordRef := Some(id)))), e)
    else if ApiKeySlot(a) then
      var k := a.apiKey.value;
      match p
      case Keep => (a, env)
      case Drop => (a.(apiKey := Some(k.(value := None))), env)
      case Reference =>
        var (id, e) := Mint(env, host, k.value.value, ApiKeyKind);
        (a.(apiKey := Some(k.(value := None, valueRef := Some(id)))), e)
    else (a, env)
  }

  /** The header part: Keep returns the header; Reference replaces the value
      by a reference (failing when there is no value to store); Drop blanks
      the value to `''` rather than deleting it. Non-secret headers pass. */
  function RedactHeader(env: Env, host: Host, h: Header, p: Policy): (r: Result<(Header, Env), string>)
    ensures r.Failure? <==> p == Reference && IsSecretHeader(h.key) && h.value.None?
    ensures r.Success? && (p == Keep || !IsSecretHeader(h.key)) ==> r.value == (h, env)
    ensures r.Success? && p == Drop && IsSecretHeader(h.key) ==> r.value == (h.(value := Some("")), env)
    ensures r.Success? && p == Reference && IsSecretHeader(h.key) ==>
      r.value.0 == h.(value := None, valueRef := Some(host.uuid(env.nextId)))
      && r.value.1.keychain == env.keychain[host.uuid(env.nextId) := h.value.value]
    ensures r.Success? ==> r.value.1.nextId == env.nextId + (if p == Reference && IsSecretHeader(h.key) then 1 else 0)
    ensures r.Success? ==> KeychainFrame(host, env, r.value.1)
    ensures r.Success? && Coherent(env) ==> Coherent(r.value.1)
  {
    if !IsSecretHeader(h.key) then Success((h, env))
    else
      match p
      case Keep => Success((h, env))
      case Drop => Success((h.(value := Some("")), env))
      case Reference =>
        if h.value.None? then Failure(StoreError)
        else
          var (id, e) := Mint(env, host, h.value.value, CustomKind);
          Success((h.(value := None, valueRef := Some(id)), e))
  }

  /** A secret header whose value is absent: under Reference there is
      nothing to store, and the store call fails. */
  predicate Unstorable(h: Header) {
    IsSecretHeader(h.key) && h.value.None?
  }

  /** A header that carries no secret value: not secret, or its value is
      absent or empty. */
  predicate HeaderClear(h: Header) {
    IsSecretHeader(h.key) ==> !Truthy(h.value)
  }

  /** What the header part promises of every header, whatever the policy:
      name and enabled flag stay, and a non-secret header is unchanged. */
  predicate HeaderShape(h: Header, h': Header) {
    h'.key == h.key && h'.enabled == h.enabled && (!IsSecretHeader(h.key) ==> h' == h)
  }

  predicate HeadersShape(hs: seq<Header>, out: seq<Header>) {
    |out| == |hs| && forall i :: 0 <= i < |hs| ==> HeaderShape(hs[i], out[i])
  }

  predicate HeadersClear(hs: seq<Header>) {
    forall i :: 0 <= i < |hs| ==> HeaderClear(hs[i])
  }

  predicate SomeUnstorable(hs: seq<Header>) {
    exists i :: 0 <= i < |hs| && Unstorable(hs[i])
  }

  lemma HeadersCons(h: Header, t: seq<Header>, h': Header, t': seq<Header>)
    ensures SomeUnstorable([h] + t) <==> Unstorable(h) || SomeUnstorable(t)
    ensures HeaderShape(h, h') && HeadersShape(t, t') ==> HeadersShape([h] + t, [h'] + t')
    ensures HeaderClear(h') && HeadersClear(t') ==> HeadersClear([h'] + t')
  {
    assert forall i :: 1 <= i < |[h] + t| ==> ([h] + t)[i] == t[i - 1];
    assert forall i :: 1 <= i < |[h'] + t'| ==> ([h'] + t')[i] == t'[i - 1];
    if Unstorable(h) {
      assert Unstorable(([h] + t)[0]);
    }
    if SomeUnstorable(t) {
      var i :| 0 <= i < |t| && Unstorable(t[i]);
      assert ([h] + t)[i + 1] == t[i];
    }
    if SomeUnstorable([h] + t) && !Unstorable(h) {
      var i :| 0 <= i < |[h] + t| && Unstorable(([h] + t)[i]);
      assert Unstorable(t[i - 1]);
    }
  }

  /** Every header in order, threading the store. */
  function RedactHeaders(env: Env, host: Host, hs: seq<Header>, p: Policy): (r: Result<(seq<Header>, Env), string>)
    ensures r.Failure? <==> p == Reference && SomeUnstorable(hs)
    ensures r.Success? ==> HeadersShape(hs, r.value.0)
    ensures r.Success? && p != Keep ==> HeadersClear(r.value.0)
    ensures p == Keep ==> r == Success((hs, env))
    ensures r.Success? && p == Drop ==> r.value.1 == env
    ensures r.Success? ==> KeychainFrame(host, env, r.value.1)
    ensures r.Success? && Coherent(env) ==> Coherent(r.value.1)
    decreases |hs|
  {
    if |hs| == 0 then Success(([], env))
    else
      Sequences.HeadTail(hs);
      match RedactHeader(env, host, hs[0], p)
      case Failure(e) =>
        HeadersCons(hs[0], hs[1..], hs[0], hs[1..]);
        Failure(e)
      case Success((h', e1)) =>
        match RedactHeaders(e1, host, hs[1..], p)
        case Failure(e) =>
          HeadersCons(hs[0], hs[1..], h', hs[1..]);
          Failure(e)
        case Success((t', e2)) =>
          FrameTransitive(host, env, e1, e2);
          HeadersCons(hs[0], hs[1..], h', t');
          Success(([h'] + t', e2))
  }

  /** `processRequestForExport`: auth first, then headers; every other field
      is copied. */
  function RedactRequest(env: Env, host: Host, r: ApiRequest, p: Policy): (res: Result<(ApiRequest, Env), string>)
    ensures res.Failure? <==> p == Reference && RequestUnstorable(r)
    ensures res.Success? ==> res.value.0 == r.(auth := res.value.0.auth, headers := res.value.0.headers)
    ensures res.Success? ==> |res.value.0.headers| == |r.headers| && res.value.0.auth.Some? == r.auth.Some?
    ensures res.Success? && p != Keep ==> RequestClear(res.value.0)
    ensures p == Keep ==> res == Success((r, env))
    ensures res.Success? && p == Drop ==> res.value.1 == env
    ensures res.Success? ==> KeychainFrame(host, env, res.value.1)
    ensures res.Success? && Coherent(env) ==> Coherent(res.value.1)
  {
    var (auth', e1) :=
      match r.auth
      case None => (None, env)
      case Some(a) => var (a', e) := RedactAuth(env, host, a, p); (Some(a'), e);
    match RedactHeaders(e1, host, r.headers, p)
    case Failure(e) => Failure(e)
    case Success((hs', e2)) =>
      FrameTransitive(host, env, e1, e2);
      Success((r.(auth := auth', headers := hs'), e2))
  }

  /** A request the Reference policy cannot export. */
  predicate RequestUnstorable(r: ApiRequest) {
    SomeUnstorable(r.headers)
  }

  /** What an export without kept values promises for one request: the
      selected auth slot and every secret header carry no value. */
  predicate RequestClear(r: ApiRequest) {
    && (r.auth.Some? ==> SelectedSlotClear(r.auth.value))
    && HeadersClear(r.headers)
  }

  /** What the request part promises of every request: only auth and
      headers change, and neither appears nor disappears. */
  predicate RequestShape(r: ApiRequest, r': ApiRequest) {
    r' == r.(auth := r'.auth, headers := r'.headers)
    && |r'.headers| == |r.headers| && r'.auth.Some? == r.auth.Some?
  }

  predicate RequestsShape(rs: seq<ApiRequest>, out: seq<ApiRequest>) {
    |out| == |rs| && forall i :: 0 <= i < |rs| ==> RequestShape(rs[i], out[i])
  }

  predicate RequestsClear(rs: seq<ApiRequest>) {
    forall i :: 0 <= i < |rs| ==> RequestClear(rs[i])
  }

  predicate SomeRequestUnstorable(rs: seq<ApiRequest>) {
    exists i :: 0 <= i < |rs| && RequestUnstorable(rs[i])
  }

  lemma RequestsCons(r: ApiRequest, t: seq<ApiRequest>, r': ApiRequest, t': seq<ApiRequest>)
    ensures SomeRequestUnstorable([r] + t) <==> RequestUnstorable(r) || SomeRequestUnstorable(t)
    ensures RequestShape(r, r') && RequestsShape(t, t') ==> RequestsShape([r] + t, [r'] + t')
    ensures RequestClear(r') && RequestsClear(t') ==> RequestsClear([r'] + t')
  {
    assert forall i :: 1 <= i < |[r] + t| ==> ([r] + t)[i] == t[i - 1];
    assert forall i :: 1 <= i < |[r'] + t'| ==> ([r'] + t')[i] == t'[i - 1];
    if RequestUnstorable(r) {
      assert RequestUnstorable(([r] + t)[0]);
    }
    if SomeRequestUnstorable(t) {
      var i :| 0 <= i < |t| && RequestUnstorable(t[i]);
      assert ([r] + t)[i + 1] == t[i];
    }
    if SomeRequestUnstorable([r] + t) && !RequestUnstorable(r) {
      var i :| 0 <= i < |[r] + t| && RequestUnstorable(([r] + t)[i]);
      assert RequestUnstorable(t[i - 1]);
    }
  }

  /** The request list of one collection. */
  function RedactRequests(env: Env, host: Host, rs: seq<ApiRequest>, p: Policy): (res: Result<(seq<ApiRequest>, Env), string>)
    ensures res.Failure? <==> p == Reference && SomeRequestUnstorable(rs)
    ensures res.Success? ==> RequestsShape(rs, res.value.0)
    ensures res.Success? && p != Keep ==> RequestsClear(res.value.0)
    ensures p == Keep ==> res == Success((rs, env))
    ensures res.Success? && p == Drop ==> res.value.1 == env
    ensures res.Success? ==> KeychainFrame(host, env, res.value.1)
    ensures res.Success? && Coherent(env) ==> Coherent(res.value.1)
    decreases |rs|
  {
    if |rs| == 0 then Success(([], env))
    else
      Sequences.HeadTail(rs);
      match RedactRequest(env, host, rs[0], p)
      case Failure(e) =>
        RequestsCons(rs[0], rs[1..], rs[0], rs[1..]);
        Failure(e)
      case Success((r', e1)) =>
        match RedactRequests(e1, host, rs[1..], p)
        case Failure(e) =>
          RequestsCons(rs[0], rs[1..], r', rs[1..]);
          Failure(e)
        case Success((t', e2)) =>
          FrameTransitive(host, env, e1, e2);
          RequestsCons(rs[0], rs[1..], r', t');
          Success(([r'] + t', e2))
  }

  predicate CollectionClear(c: Collection) {
    RequestsClear(c.requests)
  }

  /** What the collection part promises: only the request lists change,
      and each keeps its length. */
  predicate CollectionsShape(cs: seq<Collection>, out: seq<Collection>) {
    |out| == |cs| && forall i :: 0 <= i < |cs| ==>
      out[i] == cs[i].(requests := out[i].requests) && |out[i].requests| == |cs[i].requests|
  }

  predicate CollectionsClear(cs: seq<Collection>) {
    forall i :: 0 <= i < |cs| ==> CollectionClear(cs[i])
  }

  predicate SomeCollectionUnstorable(cs: seq<Collection>) {
    exists i :: 0 <= i < |cs| && SomeRequestUnstorable(cs[i].requests)
  }

  lemma CollectionsCons(c: Collection, t: seq<Collection>, rs': seq<ApiRequest>, t': seq<Collection>)
    ensures SomeCollectionUnstorable([c] + t) <==> SomeRequestUnstorable(c.requests) || SomeCollectionUnstorable(t)
    ensures |rs'| == |c.requests| && CollectionsShape(t, t') ==> CollectionsShape([c] + t, [c.(requests := rs')] + t')
    ensures RequestsClear(rs') && CollectionsClear(t') ==> CollectionsClear([c.(requests := rs')] + t')
  {
    var c' := c.(requests := rs');
    assert forall i :: 1 <= i < |[c] + t| ==> ([c] + t)[i] == t[i - 1];
    assert forall i :: 1 <= i < |[c'] + t'| ==> ([c'] + t')[i] == t'[i - 1];
    if SomeRequestUnstorable(c.requests) {
      assert SomeRequestUnstorable(([c] + t)[0].requests);
    }
    if SomeCollectionUnstorable(t) {
      var i :| 0 <= i < |t| && SomeRequestUnstorable(t[i].requests);
      assert ([c] + t)[i + 1] == t[i];
    }
    if SomeCollectionUnstorable([c] + t) && !SomeRequestUnstorable(c.requests) {
      var i :| 0 <= i < |[c] + t| && SomeRequestUnstorable(([c] + t)[i].requests);
      assert SomeRequestUnstorable(t[i - 1].requests);
    }
  }

  /** `{...collection, requests: processedRequests}` for every collection. */
  function RedactCollections(env: Env, host: Host, cs: seq<Collection>, p: Policy): (res: Result<(seq<Collection>, Env), string>)
    ensures res.Failure? <==> p == Reference && SomeCollectionUnstorable(cs)
    ensures res.Success? ==> CollectionsShape(cs, res.value.0)
    ensures res.Success? && p != Keep ==> CollectionsClear(res.value.0)
    ensures p == Keep ==> res == Success((cs, env))
    ensures res.Success? && p == Drop ==> res.value.1 == env
    ensures res.Success? ==> KeychainFrame(host, env, res.value.1)
    ensures res.Success? && Coherent(env) ==> Coherent(res.value.1)
    decreases |cs|
  {
    if |cs| == 0 then Success(([], env))
    else
      Sequences.HeadTail(cs);
      match RedactRequests(env, host, cs[0].requests, p)
      case Failure(e) =>
        CollectionsCons(cs[0], cs[1..], cs[0].requests, cs[1..]);
        Failure(e)
      case Success((rs', e1)) =>
        match RedactCollections(e1, host, cs[1..], p)
        case Failure(e) =>
          CollectionsCons(cs[0], cs[1..], rs', cs[1..]);
          Failure(e)
        case Success((t', e2)) =>
          FrameTransitive(host, env, e1, e2);
          CollectionsCons(cs[0], cs[1..], rs', t');
          assert p == Keep ==> cs[0].(requests := rs') == cs[0];
          Success(([cs[0].(requests := rs')] + t', e2))
  }
}
