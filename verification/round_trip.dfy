/** The promise of the reference-only exchange: exporting with references
    and importing on a machine whose keychain still holds the stored values
    gives back the collections that were exported. */
module RoundTrip {
  import opened Wrappers
  import Sequences
  import opened Api
  import opened SecretVault
  import opened Redaction
  import opened Rehydration
  import RequestEditor

  /** `keychain` holds what `after`'s keychain holds under every id drawn
      from position `lo` on. */
  ghost predicate AgreesFrom(keychain: map<string, string>, host: Host, lo: nat, after: Env) {
    forall k: nat :: lo <= k < after.nextId ==> Untouched(keychain, after.keychain, host.uuid(k))
  }

  /** An auth record as the editor produces it: no reference fields. */
  predicate AuthRefFree(a: Auth) {
    && a.bearerTokenRef.None?
    && (a.basicAuth.Some? ==> a.basicAuth.value.passwordRef.None?)
    && (a.apiKey.Some? ==> a.apiKey.value.valueRef.None?)
  }

  /** Every auth edit the editor offers yields a reference-free record. */
  lemma EditorAuthRefFree(r: ApiRequest, t: string, text: string, stamp: string)
    ensures AuthRefFree(RequestEditor.SetAuthType(r, t, stamp).auth.value)
    ensures AuthRefFree(RequestEditor.EditBearerToken(r, text, stamp).auth.value)
    ensures AuthRefFree(RequestEditor.EditUsername(r, text, stamp).auth.value)
    ensures AuthRefFree(RequestEditor.EditPassword(r, text, stamp).auth.value)
  {
  }

  predicate RequestRefFree(r: ApiRequest) {
    && (r.auth.Some? ==> AuthRefFree(r.auth.value))
    && forall i :: 0 <= i < |r.headers| ==> r.headers[i].valueRef.None?
  }

  predicate CollectionsRefFree(cs: seq<Collection>) {
    forall i, j :: 0 <= i < |cs| && 0 <= j < |cs[i].requests| ==> RequestRefFree(cs[i].requests[j])
  }

  /** With no references to resolve, rehydration changes nothing: the
      import of a plain or kept export is the identity. */
  lemma RestoreRefFree(keychain: map<string, string>, cs: seq<Collection>)
    requires CollectionsRefFree(cs)
    ensures RestoreCollections(keychain, cs) == cs
  {
    forall i | 0 <= i < |cs|
      ensures RestoreRequests(keychain, cs[i].requests) == cs[i].requests
    {
      forall j | 0 <= j < |cs[i].requests|
        ensures RestoreRequest(keychain, cs[i].requests[j]) == cs[i].requests[j]
      {
        var r := cs[i].requests[j];
        assert RestoreHeaders(keychain, r.headers) == r.headers;
      }
    }
  }

  /** Agreement with a later state carries back to an intermediate one:
      the ids drawn before `mid` are not drawn again after it. */
  lemma AgreesPrefix(keychain: map<string, string>, host: Host, lo: nat, mid: Env, after: Env)
    requires FreshIds(host)
    requires KeychainFrame(host, mid, after)
    requires AgreesFrom(keychain, host, lo, after)
    ensures AgreesFrom(keychain, host, lo, mid)
  {
    forall k: nat | lo <= k < mid.nextId
      ensures Untouched(keychain, mid.keychain, host.uuid(k))
    {
      EarlierNotMintedLater(host, k, mid.nextId, after.nextId);
    }
  }

  /** The minted id resolves, in an agreeing keychain, to the value the
      redaction stored under it. */
  lemma MintedResolves(env: Env, host: Host, keychain: map<string, string>, after: Env, value: string)
    requires after.nextId == env.nextId + 1
    requires after.keychain == env.keychain[host.uuid(env.nextId) := value]
    requires AgreesFrom(keychain, host, env.nextId, after)
    ensures Resolved(keychain, host.uuid(env.nextId)) == if value == "" then None else Some(value)
  {
    assert Untouched(keychain, after.keychain, host.uuid(env.nextId));
  }

  lemma AuthRoundTrip(env: Env, host: Host, a: Auth, keychain: map<string, string>, out: Auth, after: Env)
    requires FreshIds(host)
    requires AuthRefFree(a)
    requires RedactAuth(env, host, a, Reference) == (out, after)
    requires AgreesFrom(keychain, host, env.nextId, after)
    ensures RestoreAuth(keychain, out) == a
  {
    if BearerSlot(a) {
      BearerRoundTrip(env, host, a, keychain, out, after);
    } else if BasicSlot(a) {
      BasicRoundTrip(env, host, a, keychain, out, after);
    } else if ApiKeySlot(a) {
      ApiKeyRoundTrip(env, host, a, keychain, out, after);
    }
  }

  lemma BearerRoundTrip(env: Env, host: Host, a: Auth, keychain: map<string, string>, out: Auth, after: Env)
    requires FreshIds(host)
    requires AuthRefFree(a) && BearerSlot(a)
    requires RedactAuth(env, host, a, Reference) == (out, after)
    requires AgreesFrom(keychain, host, env.nextId, after)
    ensures RestoreAuth(keychain, out) == a
  {
    assert out == a.(bearerToken := None, bearerTokenRef := Some(host.uuid(env.nextId)));
    MintedResolves(env, host, keychain, after, a.bearerToken.value);
  }

  lemma BasicRoundTrip(env: Env, host: Host, a: Auth, keychain: map<string, string>, out: Auth, after: Env)
    requires FreshIds(host)
    requires AuthRefFree(a) && !BearerSlot(a) && BasicSlot(a)
    requires RedactAuth(env, host, a, Reference) == (out, after)
    requires AgreesFrom(keychain, host, env.nextId, after)
    ensures RestoreAuth(keychain, out) == a
  {
    var b := a.basicAuth.value;
    assert out == a.(basicAuth := Some(b.(password := None, passwordRef := Some(host.uuid(env.nextId)))));
    MintedResolves(env, host, keychain, after, b.password.value);
  }

  lemma ApiKeyRoundTrip(env: Env, host: Host, a: Auth, keychain: map<string, string>, out: Auth, after: Env)
    requires FreshIds(host)
    requires AuthRefFree(a) && !BearerSlot(a) && !BasicSlot(a) && ApiKeySlot(a)
    requires RedactAuth(env, host, a, Reference) == (out, after)
    requires AgreesFrom(keychain, host, env.nextId, after)
    ensures RestoreAuth(keychain, out) == a
  {
    var k := a.apiKey.value;
    assert out == a.(apiKey := Some(k.(value := None, valueRef := Some(host.uuid(env.nextId)))));
    MintedResolves(env, host, keychain, after, k.value.value);
  }

  /** A secret header with an empty value also comes back: the empty value
      is stored, does not resolve, and `secret || ''` restores it. */
  lemma HeaderRoundTrip(env: Env, host: Host, h: Header, keychain: map<string, string>, out: Header, after: Env)
    requires FreshIds(host)
    requires h.valueRef.None?
    requires RedactHeader(env, host, h, Reference) == Success((out, after))
    requires AgreesFrom(keychain, host, env.nextId, after)
    ensures RestoreHeader(keychain, out) == h
  {
    if IsSecretHeader(h.key) {
      assert out == h.(value := None, valueRef := Some(host.uuid(env.nextId)));
      MintedResolves(env, host, keychain, after, h.value.value);
      assert RestoreHeader(keychain, out) == out.(value := Some(h.value.value), valueRef := None);
    } else {
      assert out == h;
    }
  }

  lemma {:induction false} HeadersRoundTrip(env: Env, host: Host, hs: seq<Header>, keychain: map<string, string>, out: seq<Header>, after: Env)
    requires FreshIds(host)
    requires forall i :: 0 <= i < |hs| ==> hs[i].valueRef.None?
    requires RedactHeaders(env, host, hs, Reference) == Success((out, after))
    requires AgreesFrom(keychain, host, env.nextId, after)
    ensures RestoreHeaders(keychain, out) == hs
    decreases |hs|
  {
    if |hs| > 0 {
      var h', e1, t' := HeadersStep(env, host, hs, Reference, out, after);
      AgreesPrefix(keychain, host, env.nextId, e1, after);
      HeaderRoundTrip(env, host, hs[0], keychain, h', e1);
      HeadersRoundTrip(e1, host, hs[1..], keychain, t', after);
      RestoreHeadersCons(keychain, h', t');
      Sequences.HeadTail(hs);
    }
  }

  /** One step of the header list: the head's redaction, then the tail's
      from the state it left. */
  lemma HeadersStep(env: Env, host: Host, hs: seq<Header>, p: Policy, out: seq<Header>, after: Env)
    returns (h': Header, e1: Env, t': seq<Header>)
    requires |hs| > 0
    requires RedactHeaders(env, host, hs, p) == Success((out, after))
    ensures RedactHeader(env, host, hs[0], p) == Success((h', e1))
    ensures RedactHeaders(e1, host, hs[1..], p) == Success((t', after))
    ensures out == [h'] + t'
    ensures KeychainFrame(host, e1, after)
  {
    h' := RedactHeader(env, host, hs[0], p).value.0;
    e1 := RedactHeader(env, host, hs[0], p).value.1;
    t' := RedactHeaders(e1, host, hs[1..], p).value.0;
  }

  lemma RequestRoundTrip(env: Env, host: Host, r: ApiRequest, keychain: map<string, string>, out: ApiRequest, after: Env)
    requires FreshIds(host)
    requires RequestRefFree(r)
    requires RedactRequest(env, host, r, Reference) == Success((out, after))
    requires AgreesFrom(keychain, host, env.nextId, after)
    ensures RestoreRequest(keychain, out) == r
  {
    var authStep :=
      match r.auth
      case None => (None, env)
      case Some(a) => var (a', e) := RedactAuth(env, host, a, Reference); (Some(a'), e);
    var e1 := authStep.1;
    var headerStep := RedactHeaders(e1, host, r.headers, Reference);
    assert out == r.(auth := authStep.0, headers := headerStep.value.0) && after == headerStep.value.1;
    AgreesPrefix(keychain, host, env.nextId, e1, after);
    if r.auth.Some? {
      AuthRoundTrip(env, host, r.auth.value, keychain, authStep.0.value, e1);
    }
    HeadersRoundTrip(e1, host, r.headers, keychain, headerStep.value.0, after);
  }

  /** One step of the request list. */
  lemma RequestsStep(env: Env, host: Host, rs: seq<ApiRequest>, p: Policy, out: seq<ApiRequest>, after: Env)
    returns (r': ApiRequest, e1: Env, t': seq<ApiRequest>)
    requires |rs| > 0
    requires RedactRequests(env, host, rs, p) == Success((out, after))
    ensures RedactRequest(env, host, rs[0], p) == Success((r', e1))
    ensures RedactRequests(e1, host, rs[1..], p) == Success((t', after))
    ensures out == [r'] + t'
    ensures KeychainFrame(host, e1, after)
  {
    r' := RedactRequest(env, host, rs[0], p).value.0;
    e1 := RedactRequest(env, host, rs[0], p).value.1;
    t' := RedactRequests(e1, host, rs[1..], p).value.0;
  }

  lemma CollectionsStep(env: Env, host: Host, cs: seq<Collection>, p: Policy, out: seq<Collection>, after: Env)
    returns (rs': seq<ApiRequest>, e1: Env, t': seq<Collection>)
    requires |cs| > 0
    requires RedactCollections(env, host, cs, p) == Success((out, after))
    ensures RedactRequests(env, host, cs[0].requests, p) == Success((rs', e1))
    ensures RedactCollections(e1, host, cs[1..], p) == Success((t', after))
    ensures out == [cs[0].(requests := rs')] + t'
    ensures KeychainFrame(host, e1, after)
  {
    rs' := RedactRequests(env, host, cs[0].requests, p).value.0;
    e1 := RedactRequests(env, host, cs[0].requests, p).value.1;
    t' := RedactCollections(e1, host, cs[1..], p).value.0;
  }

  lemma {:induction false} RequestsRoundTrip(env: Env, host: Host, rs: seq<ApiRequest>, keychain: map<string, string>, out: seq<ApiRequest>, after: Env)
    requires FreshIds(host)
    requires forall i :: 0 <= i < |rs| ==> RequestRefFree(rs[i])
    requires RedactRequests(env, host, rs, Reference) == Success((out, after))
    requires AgreesFrom(keychain, host, env.nextId, after)
    ensures RestoreRequests(keychain, out) == rs
    decreases |rs|
  {
    if |rs| > 0 {
      var r', e1, t' := RequestsStep(env, host, rs, Reference, out, after);
      HeadRequestRoundTrip(env, host, rs[0], keychain, r', e1, after);
      RequestsRoundTrip(e1, host, rs[1..], keychain, t', after);
      RestoreRequestsCons(keychain, r', t');
      Sequences.HeadTail(rs);
    }
  }

  /** The head of a list, redacted before the rest of the list was. */
  lemma HeadRequestRoundTrip(env: Env, host: Host, r: ApiRequest, keychain: map<string, string>, r': ApiRequest, e1: Env, after: Env)
    requires FreshIds(host)
    requires RequestRefFree(r)
    requires RedactRequest(env, host, r, Reference) == Success((r', e1))
    requires KeychainFrame(host, e1, after)
    requires AgreesFrom(keychain, host, env.nextId, after)
    ensures RestoreRequest(keychain, r') == r
  {
    AgreesPrefix(keychain, host, env.nextId, e1, after);
    RequestRoundTrip(env, host, r, keychain, r', e1);
  }

  lemma HeadCollectionRoundTrip(env: Env, host: Host, c: Collection, keychain: map<string, string>, rs': seq<ApiRequest>, e1: Env, after: Env)
    requires FreshIds(host)
    requires forall j :: 0 <= j < |c.requests| ==> RequestRefFree(c.requests[j])
    requires RedactRequests(env, host, c.requests, Reference) == Success((rs', e1))
    requires KeychainFrame(host, e1, after)
    requires AgreesFrom(keychain, host, env.nextId, after)
    ensures c.(requests := rs').(requests := RestoreRequests(keychain, rs')) == c
  {
    AgreesPrefix(keychain, host, env.nextId, e1, after);
    RequestsRoundTrip(env, host, c.requests, keychain, rs', e1);
  }

  lemma RefFreeSplit(cs: seq<Collection>)
    requires |cs| > 0 && CollectionsRefFree(cs)
    ensures forall j :: 0 <= j < |cs[0].requests| ==> RequestRefFree(cs[0].requests[j])
    ensures CollectionsRefFree(cs[1..])
  {
    forall i, j | 0 <= i < |cs[1..]| && 0 <= j < |cs[1..][i].requests|
      ensures RequestRefFree(cs[1..][i].requests[j])
    {
      assert cs[1..][i] == cs[i + 1];
    }
  }

  lemma {:induction false} CollectionsRoundTrip(env: Env, host: Host, cs: seq<Collection>, keychain: map<string, string>, out: seq<Collection>, after: Env)
    requires FreshIds(host)
    requires CollectionsRefFree(cs)
    requires RedactCollections(env, host, cs, Reference) == Success((out, after))
    requires AgreesFrom(keychain, host, env.nextId, after)
    ensures RestoreCollections(keychain, out) == cs
    decreases |cs|
  {
    if |cs| > 0 {
      var rs', e1, t' := CollectionsStep(env, host, cs, Reference, out, after);
      RefFreeSplit(cs);
      HeadCollectionRoundTrip(env, host, cs[0], keychain, rs', e1, after);
      CollectionsRoundTrip(e1, host, cs[1..], keychain, t', after);
      RestoreCollectionsCons(keychain, cs[0].(requests := rs'), t');
      Sequences.HeadTail(cs);
    }
  }

  /** Export with references, then import into any state whose cache is
      coherent and whose keychain still holds the values stored by the
      export: the imported collections are the exported ones. */
  lemma ExportThenImport(env: Env, host: Host, cs: seq<Collection>, later: Env, importHost: Host)
    requires FreshIds(host)
    requires CollectionsRefFree(cs)
    requires RedactCollections(env, host, cs, Reference).Success?
    requires Coherent(later)
    requires AgreesFrom(later.keychain, host, env.nextId, RedactCollections(env, host, cs, Reference).value.1)
    ensures RehydrateCollections(later, importHost, RedactCollections(env, host, cs, Reference).value.0).0 == cs
  {
    var (exported, after) := RedactCollections(env, host, cs, Reference).value;
    CollectionsRoundTrip(env, host, cs, later.keychain, exported, after);
  }

  /** The same machine, straight after the export. */
  lemma ExportThenImportHere(env: Env, host: Host, cs: seq<Collection>, importHost: Host)
    requires FreshIds(host)
    requires Coherent(env)
    requires CollectionsRefFree(cs)
    requires RedactCollections(env, host, cs, Reference).Success?
    ensures
      var (exported, after) := RedactCollections(env, host, cs, Reference).value;
      RehydrateCollections(after, importHost, exported).0 == cs
  {
    ExportThenImport(env, host, cs, RedactCollections(env, host, cs, Reference).value.1, importHost);
  }
}
