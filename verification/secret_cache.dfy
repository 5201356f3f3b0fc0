/** The process-local secret cache of `SecretManager` (`secretCache`): a map
    from secret id to the value and an absolute expiry time in milliseconds.
    Time is an explicit `now`; the one-minute sweep timer and the per-entry
    cleanup timer are not part of the model. */
module SecretCache {
  import opened Wrappers

  /** `SecretValue` with its expiry as epoch milliseconds. */
  datatype CacheEntry = CacheEntry(id: string, value: string, expiresAt: int)

  type Cache = map<string, CacheEntry>

  /** `cacheTimeout`: five minutes. */
  const CacheTimeout: int := 5 * 60 * 1000

  /** An entry is served while its expiry lies strictly in the future. */
  predicate Live(c: Cache, id: string, now: int) {
    id in c && c[id].expiresAt > now
  }

  /** The cache-hit test at the top of `getSecret`. */
  function Lookup(c: Cache, id: string, now: int): (r: Option<string>)
    ensures r.Some? <==> Live(c, id, now)
    ensures r.Some? ==> r.value == c[id].value
  {
    if Live(c, id, now) then Some(c[id].value) else None
  }

  /** Caching a freshly fetched value: it is served for exactly
      `CacheTimeout` milliseconds from `now`; other entries are unchanged. */
  function Fill(c: Cache, id: string, value: string, now: int): (r: Cache)
    ensures forall t :: Lookup(r, id, t) == (if t < now + CacheTimeout then Some(value) else None)
    ensures forall other, t :: other != id ==> Lookup(r, other, t) == Lookup(c, other, t)
    ensures r.Keys == c.Keys + {id}
  {
    c[id := CacheEntry(id, value, now + CacheTimeout)]
  }

  /** `clearSecretFromMemory`: the entry for `id` is gone (the overwrite with
      random text before deletion is not observable here); nothing else
      changes. */
  function Invalidate(c: Cache, id: string): (r: Cache)
    ensures id !in r
    ensures forall other :: other != id ==> (other in r <==> other in c)
    ensures forall other :: other in r ==> r[other] == c[other]
  {
    c - {id}
  }

  /** `clearAllSecrets`: every entry is cleared and the map emptied. */
  function ClearAll(c: Cache): (r: Cache)
    ensures forall id, t :: Lookup(r, id, t).None?
    ensures |r| == 0
  {
    map[]
  }

  /** `clearExpiredSecrets`: visits every entry and removes exactly those
      whose expiry is at or before `now`; the survivors are untouched. */
  method EvictExpired(c: Cache, now: int) returns (r: Cache)
    ensures forall id :: id in r <==> id in c && c[id].expiresAt > now
    ensures forall id :: id in r ==> r[id] == c[id]
  {
    r := c;
    var pending := c.Keys;
    while pending != {}
      invariant pending <= c.Keys
      invariant forall id :: id in r <==> id in c && (id in pending || c[id].expiresAt > now)
      invariant forall id :: id in r ==> r[id] == c[id]
      decreases pending
    {
      var id :| id in pending;
      if c[id].expiresAt <= now {
        r := Invalidate(r, id);
      }
      pending := pending - {id};
    }
  }

  /** Eviction is invisible to lookups made at the eviction time or later:
      it removes only entries that could no longer be served. */
  lemma EvictionUnobservable(c: Cache, r: Cache, now: int, later: int, id: string)
    requires forall k :: k in r <==> k in c && c[k].expiresAt > now
    requires forall k :: k in r ==> r[k] == c[k]
    requires now <= later
    ensures Lookup(r, id, later) == Lookup(c, id, later)
  {
  }
}
