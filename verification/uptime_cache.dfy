/**
 The uptime cache `USERS_UPTIME_CACHE`: per-user totals in seconds with a
 sliding expiry, read through on the `!uptime @user` command and bumped
 when one of the user's sessions closes.
 */
module UptimeCache {
  import opened Values
  import opened Events

  /** How long an entry is trusted, in milliseconds: six hours. */
  const CACHE_EXP_TIME: int := 6 * 60 * 60 * 1000

  /** `{totalUptime, exp}`: a total in seconds and an absolute expiry in
      milliseconds. */
  datatype Entry = Entry(totalUptime: Number, exp: int)

  type Cache = map<UserId, Entry>

  /** The stored total a read would recompute: the user's spans, in seconds. */
  function StoredSeconds(store: Store, u: UserId): Number
  {
    ToSeconds(TotalMillis(store, u))
  }

  /** A read is served from the cache exactly when the user has an entry that
      expires strictly after `now`. */
  predicate Fresh(cache: Cache, u: UserId, now: int)
  {
    u in cache && cache[u].exp > now
  }

  /** The outcome of the uptime query: the total and the cache afterwards, and
      whether the store was read; or a failed store read, which leaves the
      cache as it was. */
  datatype Answer =
    | Answer(total: Number, cache: Cache, storeRead: bool)
    | ReadFailed(cache: Cache)

  /** The read-through. A fresh entry answers without touching the store and
      has its expiry pushed to `now + CACHE_EXP_TIME`; otherwise the store is
      read (`readOk` says whether that succeeds) and the entry is overwritten
      with the recomputed total. */
  function Query(cache: Cache, u: UserId, now: int, store: Store, readOk: bool): (r: Answer)
    ensures r.ReadFailed? <==> !Fresh(cache, u, now) && !readOk
    ensures r.ReadFailed? ==> r.cache == cache
    ensures r.Answer? ==> (r.storeRead <==> !Fresh(cache, u, now))
    ensures Fresh(cache, u, now) ==> r.total == cache[u].totalUptime
    ensures r.Answer? && r.storeRead ==> r.total == StoredSeconds(store, u)
    ensures r.Answer? ==> r.cache == cache[u := Entry(r.total, now + CACHE_EXP_TIME)]
  {
    if Fresh(cache, u, now) then
      var entry := cache[u];
      Answer(entry.totalUptime, cache[u := entry.(exp := now + CACHE_EXP_TIME)], false)
    else if readOk then
      var total := StoredSeconds(store, u);
      Answer(total, cache[u := Entry(total, now + CACHE_EXP_TIME)], true)
    else
      ReadFailed(cache)
  }

  /** The bump on disconnect: an existing entry, expired or not, gains
      `span / 1000` and expires `CACHE_EXP_TIME` after `now`; a missing entry
      is not created. */
  function AddSpan(cache: Cache, u: UserId, span: Number, now: int): (c: Cache)
    ensures c.Keys == cache.Keys
    ensures u in cache ==> c[u] == Entry(Add(cache[u].totalUptime, ToSeconds(span)), now + CACHE_EXP_TIME)
    ensures forall v :: v in cache && v != u ==> c[v] == cache[v]
  {
    if u in cache then
      cache[u := Entry(Add(cache[u].totalUptime, ToSeconds(span)), now + CACHE_EXP_TIME)]
    else
      cache
  }

  /** Every entry holds its user's stored total as of now. */
  predicate Consistent(cache: Cache, store: Store)
  {
    forall u :: u in cache ==> cache[u].totalUptime == StoredSeconds(store, u)
  }

  /** Against a consistent cache, every answer is the stored total, whether it
      came from the cache or from the store, and the cache stays consistent. */
  lemma QueryAgreesWithStore(cache: Cache, u: UserId, now: int, store: Store, readOk: bool)
    requires Consistent(cache, store)
    ensures var r := Query(cache, u, now, store, readOk);
            && Consistent(r.cache, store)
            && (r.Answer? ==> r.total == StoredSeconds(store, u))
  {
  }

  /** Appending a session's event to the store and adding its span to the
      cache keeps a consistent cache consistent. */
  lemma AddSpanKeepsConsistent(cache: Cache, store: Store, e: Event, now: int)
    requires Consistent(cache, store)
    ensures Consistent(AddSpan(cache, e.userid, e.span, now), store + [e])
  {
    var c := AddSpan(cache, e.userid, e.span, now);
    forall v | v in c
      ensures c[v].totalUptime == StoredSeconds(store + [e], v)
    {
      TotalMillisAppend(store, e, v);
      if v == e.userid {
        ToSecondsAdd(TotalMillis(store, v), e.span);
      }
    }
  }

  /** Two reads less than `CACHE_EXP_TIME` apart, with nothing in between,
      give the same total and the second one does not read the store. */
  lemma RepeatedQueryIsStable(cache: Cache, u: UserId, t1: int, t2: int, store: Store, store2: Store, ok1: bool, ok2: bool)
    requires t1 <= t2 < t1 + CACHE_EXP_TIME
    requires Query(cache, u, t1, store, ok1).Answer?
    ensures var r1 := Query(cache, u, t1, store, ok1);
            var r2 := Query(r1.cache, u, t2, store2, ok2);
            r2.Answer? && !r2.storeRead && r2.total == r1.total
  {
  }

  /** A read straight after a bump is served from the cache and returns the
      previous total plus the bumped span. */
  lemma QueryAfterAddSpan(cache: Cache, u: UserId, span: Number, now: int, store: Store, readOk: bool)
    requires u in cache
    ensures var r := Query(AddSpan(cache, u, span, now), u, now, store, readOk);
            r.Answer? && !r.storeRead && r.total == Add(cache[u].totalUptime, ToSeconds(span))
  {
  }

  /** Once an entry has expired, the next read goes to the store and returns
      the stored total, whatever the stale entry held. */
  lemma ExpiredQueryRefetches(cache: Cache, u: UserId, now: int, store: Store)
    requires u in cache && cache[u].exp <= now
    ensures var r := Query(cache, u, now, store, true);
            r.Answer? && r.storeRead && r.total == StoredSeconds(store, u)
  {
  }

  /** A cache hit does not depend on the store at all. */
  lemma FreshQueryIgnoresStore(cache: Cache, u: UserId, now: int, s1: Store, s2: Store, ok1: bool, ok2: bool)
    requires Fresh(cache, u, now)
    ensures Query(cache, u, now, s1, ok1) == Query(cache, u, now, s2, ok2)
  {
  }
}
