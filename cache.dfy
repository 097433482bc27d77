/**
 * The cached merged mapping of a `Configs` instance as a two-field state
 * machine: `value` (absent until the first successful refresh) and
 * `valueSetTime`. A `get` refreshes when the value is absent or the clock has
 * passed `valueSetTime + cacheExpiryTime`.
 */
module CacheControl {
  import opened Results
  import opened Values

  datatype CacheState = CacheState(value: Option<Data>, valueSetTime: int)

  /** The state of a new instance. */
  const Initial: CacheState := CacheState(None, 0)

  /** `!this.value || now > this.valueSetTime + cacheExpiryTime`. */
  predicate IsStale(s: CacheState, cacheExpiryTime: int, now: int) {
    s.value.None? || now > s.valueSetTime + cacheExpiryTime
  }

  /** How a refresh ended: the data source failed, a file failed to read,
      render or parse, or the merged mapping was built. */
  datatype Refreshed = FetchFailed(error: string) | LoadFailed(error: string) | Loaded(data: Data)

  /** The state after a refresh that started at `now`. The timestamp is
      written once the data source has answered and before the files are
      read, so a failed file leaves the old value with the new timestamp. */
  function AfterRefresh(s: CacheState, now: int, outcome: Refreshed): CacheState {
    match outcome
    case FetchFailed(_) => s
    case LoadFailed(_) => s.(valueSetTime := now)
    case Loaded(m) => CacheState(Some(m), now)
  }

  /** The state after a `get` at time `now`, whose refresh (if one is due)
      ends with `outcome`. */
  function AfterGet(s: CacheState, cacheExpiryTime: int, now: int, outcome: Refreshed): CacheState {
    if IsStale(s, cacheExpiryTime, now) then AfterRefresh(s, now, outcome) else s
  }

  /** Without a refresh nothing changes; a successful refresh stores the new
      mapping stamped with the time read at the start of the call. */
  lemma GetChangesStateOnlyWhenStale(s: CacheState, ttl: int, now: int, outcome: Refreshed)
    ensures !IsStale(s, ttl, now) ==> AfterGet(s, ttl, now, outcome) == s
    ensures IsStale(s, ttl, now) && outcome.Loaded? ==>
              AfterGet(s, ttl, now, outcome) == CacheState(Some(outcome.data), now)
  {
  }

  /** After a successful refresh at `t1`, every `get` up to and including
      `t1 + ttl` reuses the cached mapping and changes nothing. */
  lemma ReusedUntilExpiry(s: CacheState, ttl: int, t1: int, m: Data, t2: int, later: Refreshed)
    requires IsStale(s, ttl, t1)
    requires t2 <= t1 + ttl
    ensures var s1 := AfterGet(s, ttl, t1, Loaded(m));
            !IsStale(s1, ttl, t2) && AfterGet(s1, ttl, t2, later) == s1
  {
  }

  /** After a successful refresh at `t1`, the first `get` after `t1 + ttl`
      refreshes again. */
  lemma RefreshedAfterExpiry(s: CacheState, ttl: int, t1: int, m: Data, t2: int, m2: Data)
    requires IsStale(s, ttl, t1)
    requires t2 > t1 + ttl
    ensures var s1 := AfterGet(s, ttl, t1, Loaded(m));
            IsStale(s1, ttl, t2) && AfterGet(s1, ttl, t2, Loaded(m2)) == CacheState(Some(m2), t2)
  {
  }

  /** Once a mapping is cached it is never dropped. */
  lemma CachedValueKept(s: CacheState, ttl: int, now: int, outcome: Refreshed)
    requires s.value.Some?
    ensures AfterGet(s, ttl, now, outcome).value.Some?
  {
  }

  /** A refresh whose files fail after the data source answered keeps serving
      the old mapping until the next expiry: the timestamp has moved on. A
      failed first refresh leaves nothing cached, so the next `get` retries. */
  lemma FailedLoadDefersRetry(s: CacheState, ttl: int, t1: int, e: string, t2: int)
    requires IsStale(s, ttl, t1)
    ensures var s1 := AfterGet(s, ttl, t1, LoadFailed(e));
            && s1.value == s.value && s1.valueSetTime == t1
            && (s.value.Some? && t2 <= t1 + ttl ==> !IsStale(s1, ttl, t2))
            && (s.value.None? ==> IsStale(s1, ttl, t2))
  {
  }
}
