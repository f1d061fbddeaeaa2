/** The in-memory idempotency store: a map from a request fingerprint to the
    outcome recorded for it, each entry living for five minutes. Stale entries
    are purged lazily by a lookup and by a periodic sweep. The clock reading
    `Date.now()` is the parameter `now`. */
module IdempotencyStore {
  import opened Wrappers

  /** Lifetime of an entry, in milliseconds. */
  const TTL_MS: int := 5 * 60 * 1000

  datatype Status = Success | Error

  /** A recorded outcome; the response payload is opaque to the store. */
  datatype Entry<R> = Entry(status: Status, response: R, createdAt: int)

  /** Stale once strictly more than TTL_MS has elapsed: an entry exactly
      TTL_MS old is still served. */
  predicate Expired<R>(e: Entry<R>, now: int) {
    now - e.createdAt > TTL_MS
  }

  /** The entries that survive a sweep at `now`. */
  function Live<R>(m: map<string, Entry<R>>, now: int): (r: map<string, Entry<R>>)
    ensures forall k :: k in r ==> k in m && r[k] == m[k] && !Expired(r[k], now)
  {
    map k | k in m && !Expired(m[k], now) :: m[k]
  }

  /** What a lookup answers and what it leaves in the store. */
  datatype Lookup<R> = Lookup(found: Option<Entry<R>>, after: map<string, Entry<R>>)

  /** `getIdempotent` on the map `m`. */
  function Get<R>(m: map<string, Entry<R>>, key: string, now: int): (l: Lookup<R>)
    ensures l.found.Some? <==> key in m && !Expired(m[key], now)
    ensures l.found.Some? ==> l.found.value == m[key] && l.after == m
    ensures l.after.Keys == (if key in m && Expired(m[key], now) then m.Keys - {key} else m.Keys)
    ensures forall k :: k in l.after ==> l.after[k] == m[k]
  {
    if key !in m then Lookup(None, m)
    else if Expired(m[key], now) then Lookup(None, m - {key})
    else Lookup(Some(m[key]), m)
  }

  /** The store object: the module-level `Map` of the source. */
  class Store<R> {
    var entries: map<string, Entry<R>>

    constructor ()
      ensures entries == map[]
    {
      entries := map[];
    }

    /** `setIdempotent`: store or overwrite, unconditionally. */
    method SetIdempotent(key: string, entry: Entry<R>)
      modifies this
      ensures entries == old(entries)[key := entry]
    {
      entries := entries[key := entry];
    }

    /** `getIdempotent`: the entry if present and fresh; a stale entry is
        deleted and reported absent. */
    method GetIdempotent(key: string, now: int) returns (r: Option<Entry<R>>)
      modifies this
      ensures r == Get(old(entries), key, now).found
      ensures entries == Get(old(entries), key, now).after
    {
      if key !in entries {
        return None;
      }
      var val := entries[key];
      if now - val.createdAt > TTL_MS {
        entries := entries - {key};
        return None;
      }
      return Some(val);
    }

    /** `cleanupIdempotency`: walk every entry and delete the stale ones. */
    method CleanupIdempotency(now: int)
      modifies this
      ensures entries == Live(old(entries), now)
    {
      var pending := entries.Keys;
      while pending != {}
        invariant pending <= old(entries).Keys
        invariant entries == map k | k in old(entries) && (k in pending || !Expired(old(entries)[k], now)) :: old(entries)[k]
        decreases pending
      {
        var k :| k in pending;
        if now - entries[k].createdAt > TTL_MS {
          entries := entries - {k};
        }
        pending := pending - {k};
      }
    }
  }

  // ------------------------------------------------------------ properties

  /** A fresh entry just stored is served back exactly, and the lookup leaves
      the store as it was. */
  lemma GetAfterSet<R>(m: map<string, Entry<R>>, key: string, e: Entry<R>, now: int)
    requires now - e.createdAt <= TTL_MS
    ensures Get(m[key := e], key, now) == Lookup(Some(e), m[key := e])
  {
  }

  /** Storing under one key leaves every other key's entry untouched. */
  lemma SetIsolated<R>(m: map<string, Entry<R>>, key: string, e: Entry<R>, other: string, now: int)
    requires other != key
    ensures Get(m[key := e], other, now).found == Get(m, other, now).found
  {
  }

  /** An absent key is reported absent and the store is unchanged. */
  lemma GetAbsent<R>(m: map<string, Entry<R>>, key: string, now: int)
    requires key !in m
    ensures Get(m, key, now) == Lookup(None, m)
  {
  }

  /** A stale entry is reported absent and only that key is removed. */
  lemma GetExpired<R>(m: map<string, Entry<R>>, key: string, now: int)
    requires key in m && now - m[key].createdAt > TTL_MS
    ensures Get(m, key, now).found == None
    ensures Get(m, key, now).after.Keys == m.Keys - {key}
    ensures forall k :: k in Get(m, key, now).after ==> Get(m, key, now).after[k] == m[k]
  {
  }

  /** The TTL bound is inclusive: an entry exactly TTL_MS old is served. */
  lemma TtlInclusive<R>(m: map<string, Entry<R>>, key: string, now: int)
    requires key in m && m[key].createdAt == now - 300000
    ensures Get(m, key, now) == Lookup(Some(m[key]), m)
  {
  }

  /** The sweep keeps exactly the fresh entries, unmodified. */
  lemma LiveKeepsExactlyFresh<R>(m: map<string, Entry<R>>, now: int)
    ensures forall k :: k in Live(m, now) <==> k in m && now - m[k].createdAt <= TTL_MS
    ensures forall k :: k in Live(m, now) ==> Live(m, now)[k] == m[k]
  {
  }

  /** Sweeping twice at the same instant is the same as sweeping once. */
  lemma SweepIdempotent<R>(m: map<string, Entry<R>>, now: int)
    ensures Live(Live(m, now), now) == Live(m, now)
  {
    assert Live(Live(m, now), now).Keys == Live(m, now).Keys;
  }

  /** A later sweep subsumes an earlier one. */
  lemma SweepLater<R>(m: map<string, Entry<R>>, earlier: int, later: int)
    requires earlier <= later
    ensures Live(Live(m, earlier), later) == Live(m, later)
  {
    assert Live(Live(m, earlier), later).Keys == Live(m, later).Keys;
  }

  /** The two purge paths agree: a lookup answers the same before and after a
      sweep at the same instant, and a sweep after a lookup leaves the same
      store as the sweep alone. */
  lemma SweepAgreesWithLookup<R>(m: map<string, Entry<R>>, key: string, now: int)
    ensures Get(Live(m, now), key, now).found == Get(m, key, now).found
    ensures Live(Get(m, key, now).after, now) == Live(m, now)
  {
    assert Live(Get(m, key, now).after, now).Keys == Live(m, now).Keys;
  }
}
