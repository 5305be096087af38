/** The research-result cache of the market research panel
    (market-research-new.js, `getCachedResult` / `setCachedResult`).
    The browser's storage becomes an in-memory map and the clock an
    explicit `now` in milliseconds. The storage key is "market_research_"
    followed by the base-64 text of the query; since base-64 is injective,
    the map is keyed by the query itself. `btoa` throws on a character
    above U+00FF and both functions swallow that exception, so such a query
    is never found and never stored. */
module ResultCache {
  import opened Wrappers

  /** 24 hours in milliseconds (market-research-new.js:9) */
  const CacheTimeout: int := 24 * 60 * 60 * 1000

  datatype CacheEntry<R> = CacheEntry(timestamp: int, results: R)

  type Cache<R> = map<string, CacheEntry<R>>

  /** What `getCachedResult` returns, and the store after it ran */
  datatype Lookup<R> = Lookup(found: Option<R>, cache: Cache<R>)

  /** The query can be passed to `btoa` */
  predicate Encodable(q: string) {
    forall k :: 0 <= k < |q| ==> q[k] as int <= 0xFF
  }

  /** `getCachedResult` (market-research-new.js:719-739): a fresh entry is
      returned, a stale one is deleted, and nothing else is touched */
  function GetCachedResult<R>(cache: Cache<R>, q: string, now: int): (r: Lookup<R>)
    ensures r.found.Some? <==> Encodable(q) && q in cache && now - cache[q].timestamp < CacheTimeout
    ensures r.found.Some? ==> r.found.value == cache[q].results
    ensures r.cache.Keys == if Encodable(q) && r.found.None? then cache.Keys - {q} else cache.Keys
    ensures forall k :: k in r.cache ==> r.cache[k] == cache[k]
  {
    if !Encodable(q) then Lookup(None, cache)
    else if q in cache then
      if now - cache[q].timestamp < CacheTimeout then Lookup(Some(cache[q].results), cache)
      else Lookup(None, cache - {q})
    else Lookup(None, cache)
  }

  /** `setCachedResult` (market-research-new.js:741-753): stamps the results
      with the current time under the query's key */
  function SetCachedResult<R>(cache: Cache<R>, q: string, results: R, now: int): (r: Cache<R>)
    ensures Encodable(q) ==> q in r && r[q] == CacheEntry(now, results)
    ensures !Encodable(q) ==> r == cache
    ensures forall k :: k != q ==> (k in r <==> k in cache)
    ensures forall k :: k != q && k in r ==> r[k] == cache[k]
  {
    if Encodable(q) then cache[q := CacheEntry(now, results)] else cache
  }

  /** What was stored is found again for just under 24 hours, and not
      after that, when the entry is also removed */
  lemma StoreThenLookup<R>(cache: Cache<R>, q: string, results: R, stored: int, now: int)
    requires Encodable(q)
    ensures var l := GetCachedResult(SetCachedResult(cache, q, results, stored), q, now);
            && (now - stored < CacheTimeout ==> l.found == Some(results))
            && (now - stored >= CacheTimeout ==> l.found == None && q !in l.cache)
  {
  }

  /** A query `btoa` rejects is never cached */
  lemma UnencodableNeverCached<R>(cache: Cache<R>, q: string, results: R, stored: int, now: int)
    requires !Encodable(q)
    ensures GetCachedResult(SetCachedResult(cache, q, results, stored), q, now) == Lookup(None, cache)
  {
  }

  /** Storing one query does not change what another query finds */
  lemma StoreIsolated<R>(cache: Cache<R>, q: string, other: string, results: R, stored: int, now: int)
    requires other != q
    ensures GetCachedResult(SetCachedResult(cache, q, results, stored), other, now).found
            == GetCachedResult(cache, other, now).found
  {
  }

  /** Looking up again at the same moment changes nothing more */
  lemma LookupIdempotent<R>(cache: Cache<R>, q: string, now: int)
    ensures var l := GetCachedResult(cache, q, now);
            GetCachedResult(l.cache, q, now) == l
  {
  }
}
