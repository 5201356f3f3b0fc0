/** The storage side of `SecretManager`: storing a secret (keychain value
    plus reference record), minting a reference for a value, reading a
    secret through the cache, and deleting a secret. The keychain is a map
    from id to value, the reference index is the back end's list, and the
    host supplies `crypto.randomUUID` (as a numbered supply of ids) and the
    clock. */
module SecretVault {
  import opened Wrappers
  import opened Api
  import SecretCache
  import RI = ReferenceIndex

  /** `SecretReference['type']`. */
  datatype SecretKind = ApiKeyKind | BearerTokenKind | BasicAuthKind | OAuthKind | CustomKind

  function KindName(k: SecretKind): string {
    match k
    case ApiKeyKind => "api-key"
    case BearerTokenKind => "bearer-token"
    case BasicAuthKind => "basic-auth"
    case OAuthKind => "oauth"
    case CustomKind => "custom"
  }

  /** What the host provides: the `k`-th id `crypto.randomUUID` returns, the
      current time in epoch milliseconds, and the same instant as the front
      end (`toISOString`) and the back end (`to_rfc3339`) render it. */
  datatype Host = Host(uuid: nat -> string, now: int, iso: string, rfc3339: string)

  /** The state the secret manager works on. `nextId` counts the ids drawn
      so far. */
  datatype Env = Env(
    keychain: map<string, string>,
    refs: RI.Index,
    cache: SecretCache.Cache,
    nextId: nat)

  /** The id supply never repeats an id and never yields an empty one. */
  ghost predicate FreshIds(host: Host) {
    && (forall i: nat, j: nat :: host.uuid(i) == host.uuid(j) ==> i == j)
    && (forall k: nat :: host.uuid(k) != "")
  }

  /** Every cached value is the keychain's value for its id. */
  ghost predicate Coherent(env: Env) {
    forall id :: id in env.cache ==> id in env.keychain && env.cache[id].value == env.keychain[id]
  }

  /** The usable (non-empty) keychain value for `id`, if any. */
  function Resolved(keychain: map<string, string>, id: string): (r: Option<string>)
    ensures r.Some? ==> r.value != ""
  {
    if id in keychain && keychain[id] != "" then Some(keychain[id]) else None
  }

  /** `id` was drawn from the supply at a position in `[lo, hi)`. */
  ghost predicate MintedBetween(host: Host, lo: nat, hi: nat, id: string) {
    exists k: nat :: lo <= k < hi && host.uuid(k) == id
  }

  /** `a` and `b` agree on `id`. */
  ghost predicate Untouched(a: map<string, string>, b: map<string, string>, id: string) {
    (id in a <==> id in b) && (id in a ==> a[id] == b[id])
  }

  /** Between `before` and `after` ids were only drawn, never returned, and
      the keychain changed only under the ids drawn meanwhile. */
  ghost predicate KeychainFrame(host: Host, before: Env, after: Env) {
    && before.nextId <= after.nextId
    && forall id :: !MintedBetween(host, before.nextId, after.nextId, id) ==> Untouched(before.keychain, after.keychain, id)
  }

  lemma FrameTransitive(host: Host, a: Env, b: Env, c: Env)
    requires KeychainFrame(host, a, b) && KeychainFrame(host, b, c)
    ensures KeychainFrame(host, a, c)
  {
    forall id | !MintedBetween(host, a.nextId, c.nextId, id)
      ensures Untouched(a.keychain, c.keychain, id)
    {
      assert !MintedBetween(host, a.nextId, b.nextId, id);
      assert !MintedBetween(host, b.nextId, c.nextId, id);
    }
  }

  /** With a repetition-free supply, an id drawn before `lo` is not drawn
      again in `[lo, hi)`. */
  lemma EarlierNotMintedLater(host: Host, k: nat, lo: nat, hi: nat)
    requires FreshIds(host)
    requires k < lo
    ensures !MintedBetween(host, lo, hi, host.uuid(k))
  {
  }

  /** Writing the id just drawn is within the frame. */
  lemma DrawAndWrite(host: Host, before: Env, after: Env, value: string)
    requires after.nextId == before.nextId + 1
    requires after.keychain == before.keychain[host.uuid(before.nextId) := value]
    ensures KeychainFrame(host, before, after)
  {
    assert MintedBetween(host, before.nextId, after.nextId, host.uuid(before.nextId));
  }

  const StoreError := "Failed to store secret securely"
  const DeleteError := "Failed to delete secret"

  /** `storeSecret`: the value goes into the keychain, the back end records
      a reference (twice: once by `store_secret` with its own timestamp,
      then by `store_secret_reference` with the front end's), and any cached
      copy is cleared. A missing value is rejected by the back end's
      argument decoding, so the call fails. */
  function StoreSecret(env: Env, host: Host, id: string, name: string, value: Option<string>, kind: SecretKind): (r: Result<Env, string>)
    ensures r.Success? <==> value.Some?
    ensures r.Failure? ==> r.error == StoreError
    ensures r.Success? ==> r.value.keychain == env.keychain[id := value.value]
    ensures r.Success? ==> r.value.refs == RI.Upsert(env.refs, RI.SecretReference(id, name, KindName(kind), host.iso, None))
    ensures r.Success? ==> id !in r.value.cache && forall other :: other != id && other in env.cache ==> other in r.value.cache && r.value.cache[other] == env.cache[other]
    ensures r.Success? ==> r.value.nextId == env.nextId
    ensures r.Success? && Coherent(env) ==> Coherent(r.value)
  {
    if value.None? then Failure(StoreError)
    else
      var backEnd := RI.StoreSecret(env.refs, id, name, KindName(kind), host.rfc3339, true, true).refs;
      var frontEnd := RI.SecretReference(id, name, KindName(kind), host.iso, None);
      var refs' := RI.StoreSecretReference(backEnd, frontEnd, true).refs;
      RI.UpsertSameIdOverrides(env.refs, RI.SecretReference(id, name, KindName(kind), host.rfc3339, None), frontEnd);
      Success(Env(env.keychain[id := value.value], refs', SecretCache.Invalidate(env.cache, id), env.nextId))
  }

  /** `createSecretReference` for a value known to be present: draws the next
      id, stores the value under it as "Imported <kind>", and returns it. */
  function Mint(env: Env, host: Host, value: string, kind: SecretKind): (r: (string, Env))
    ensures r.0 == host.uuid(env.nextId) && r.1.nextId == env.nextId + 1
    ensures r.1.keychain == env.keychain[r.0 := value]
    ensures RI.CountId(r.1.refs, r.0) == 1
    ensures r.1.refs[|r.1.refs| - 1] == RI.SecretReference(r.0, "Imported " + KindName(kind), KindName(kind), host.iso, None)
    ensures r.0 !in r.1.cache
    ensures Coherent(env) ==> Coherent(r.1)
    ensures KeychainFrame(host, env, r.1)
  {
    var id := host.uuid(env.nextId);
    var stored := StoreSecret(env.(nextId := env.nextId + 1), host, id, "Imported " + KindName(kind), Some(value), kind).value;
    DrawAndWrite(host, env, stored, value);
    (id, stored)
  }

  /** `createSecretReference` for any header value: fails when the value is
      absent. */
  function CreateSecretReference(env: Env, host: Host, value: Option<string>, kind: SecretKind): (r: Result<(string, Env), string>)
    ensures r.Success? <==> value.Some?
    ensures r.Success? ==> r.value.0 == host.uuid(env.nextId) && r.value.1.keychain == env.keychain[r.value.0 := value.value]
  {
    if value.None? then Failure(StoreError) else Success(Mint(env, host, value.value, kind))
  }

  /** `updateSecretLastUsed`: the back end stamps the first record with the
      id; its errors are logged and dropped. */
  function MarkUsed(refs: RI.Index, id: string, host: Host): (r: RI.Index)
    ensures |r| == |refs|
    ensures forall i :: 0 <= i < |refs| ==> r[i].id == refs[i].id
    ensures (forall x :: x in refs ==> x.id != id) ==> r == refs
    ensures (exists x :: x in refs && x.id == id) ==>
      exists k :: RI.FirstWithId(refs, id, k) && r == refs[k := refs[k].(lastUsed := Some(host.iso))]
  {
    RI.UpdateSecretLastUsed(refs, id, host.iso, true).refs
  }

  /** `getSecret`: an entry still live at `now` is served from the cache;
      otherwise the keychain is asked, and a non-empty value is cached for
      five minutes and returned. A missing or empty value yields `None` and
      changes nothing. Served values mark the reference as used. */
  function GetSecret(env: Env, host: Host, id: string): (r: (Option<string>, Env))
    ensures r.1.keychain == env.keychain && r.1.nextId == env.nextId
    ensures SecretCache.Live(env.cache, id, host.now) ==> r.0 == Some(env.cache[id].value) && r.1.cache == env.cache
    ensures !SecretCache.Live(env.cache, id, host.now) && Resolved(env.keychain, id).Some? ==>
      r.0 == Resolved(env.keychain, id) && r.1.cache == SecretCache.Fill(env.cache, id, env.keychain[id], host.now)
    ensures !SecretCache.Live(env.cache, id, host.now) && Resolved(env.keychain, id).None? ==> r == (None, env)
    ensures Coherent(env) ==> Coherent(r.1)
    ensures Coherent(env) ==> (Truthy(r.0) <==> Resolved(env.keychain, id).Some?) && (Truthy(r.0) ==> r.0 == Resolved(env.keychain, id))
    ensures r.0.Some? ==> r.1.refs == MarkUsed(env.refs, id, host)
    ensures r.0.None? ==> r.1.refs == env.refs
  {
    match SecretCache.Lookup(env.cache, id, host.now)
    case Some(v) => (Some(v), env.(refs := MarkUsed(env.refs, id, host)))
    case None =>
      if id in env.keychain && env.keychain[id] != "" then
        var v := env.keychain[id];
        (Some(v), env.(cache := SecretCache.Fill(env.cache, id, v, host.now), refs := MarkUsed(env.refs, id, host)))
      else (None, env)
  }

  /** `deleteSecret`: the keychain entry, the reference record and the
      cached copy go, in that order; a keychain failure aborts before any
      of them changes, the cached copy included. */
  function DeleteSecret(env: Env, id: string, keychainOk: bool): (r: Result<Env, string>)
    ensures r.Success? <==> keychainOk
    ensures r.Failure? ==> r.error == DeleteError
    ensures r.Success? ==> id !in r.value.keychain && id !in r.value.cache && RI.CountId(r.value.refs, id) == 0
    ensures r.Success? ==> r.value.refs == RI.Remove(env.refs, id)
    ensures r.Success? ==> forall other :: other != id ==> (other in r.value.keychain <==> other in env.keychain)
    ensures r.Success? ==> r.value.keychain == env.keychain - {id} && r.value.cache == SecretCache.Invalidate(env.cache, id)
    ensures r.Success? ==> r.value.nextId == env.nextId
    ensures r.Success? && Coherent(env) ==> Coherent(r.value)
  {
    if !keychainOk then Failure(DeleteError)
    else
      var afterSecret := RI.DeleteSecret(env.refs, id, true, true).refs;
      var afterReference := RI.DeleteSecretReference(afterSecret, id, true).refs;
      RI.RemoveIdempotent(env.refs, id);
      Success(Env(env.keychain - {id}, afterReference, SecretCache.Invalidate(env.cache, id), env.nextId))
  }
}
