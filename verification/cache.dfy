/** `MemoryCache` (medkit/cache.py): a time-to-live store in which a
    lookup after the expiry time deletes the entry.  The clock reading is
    a parameter, in whole ticks.
 */
module Cache {
  import opened Wrappers

  const DefaultTtl: int := 3600

  datatype Entry<V> = Entry(value: V, expiresAt: int)

  datatype MemoryCache<V> = MemoryCache(data: map<string, Entry<V>>, defaultTtl: int)

  function NewCache<V>(defaultTtl: int): (c: MemoryCache<V>)
    ensures c.data == map[] && c.defaultTtl == defaultTtl
  {
    MemoryCache(map[], defaultTtl)
  }

  /** An entry is still valid up to and including its expiry time. */
  predicate Live<V>(e: Entry<V>, now: int) { now <= e.expiresAt }

  /** `get(key)` at time `now`: the value, and the cache afterwards. */
  function Get<V>(c: MemoryCache<V>, key: string, now: int): (r: (Option<V>, MemoryCache<V>))
    ensures key !in c.data ==> r == (None, c)
    ensures key in c.data && Live(c.data[key], now) ==> r == (Some(c.data[key].value), c)
    // an expired entry is answered with nothing and removed, and only it
    ensures key in c.data && !Live(c.data[key], now) ==>
              r.0 == None && r.1.defaultTtl == c.defaultTtl && key !in r.1.data
              && (forall k :: k != key ==> (k in r.1.data <==> k in c.data))
              && (forall k :: k in r.1.data ==> k in c.data && r.1.data[k] == c.data[k])
  {
    if key !in c.data then (None, c)
    else if now > c.data[key].expiresAt then (None, c.(data := c.data - {key}))
    else (Some(c.data[key].value), c)
  }

  /** `ttl or default_ttl`: a missing or zero ttl means the default. */
  function EffectiveTtl(ttl: Option<int>, defaultTtl: int): (t: int)
    ensures ttl.None? || ttl == Some(0) ==> t == defaultTtl
    ensures ttl.Some? && ttl.value != 0 ==> t == ttl.value
  {
    match ttl
    case Some(t) => if t != 0 then t else defaultTtl
    case None => defaultTtl
  }

  /** `set(key, value, ttl)` at time `now`. */
  function Set<V>(c: MemoryCache<V>, key: string, value: V, ttl: Option<int>, now: int): (r: MemoryCache<V>)
    ensures r.defaultTtl == c.defaultTtl
    ensures key in r.data && r.data[key] == Entry(value, now + EffectiveTtl(ttl, c.defaultTtl))
    ensures forall k :: k != key ==> (k in r.data <==> k in c.data)
    ensures forall k :: k != key && k in c.data ==> r.data[k] == c.data[k]
  {
    c.(data := c.data[key := Entry(value, now + EffectiveTtl(ttl, c.defaultTtl))])
  }

  /** A lookup right after a store, at the same time, finds the value
      exactly when the effective ttl is not negative. */
  lemma GetAfterSet<V>(c: MemoryCache<V>, key: string, value: V, ttl: Option<int>, now: int)
    ensures Get(Set(c, key, value, ttl, now), key, now).0 == Some(value) <==> EffectiveTtl(ttl, c.defaultTtl) >= 0
  {
  }

  /** Storing one key leaves the lookups of every other key as they were. */
  lemma SetLeavesOtherKeys<V>(c: MemoryCache<V>, key: string, value: V, ttl: Option<int>, now: int,
                              other: string, later: int)
    requires other != key
    ensures Get(Set(c, key, value, ttl, now), other, later).0 == Get(c, other, later).0
  {
  }

  /** A value stored for `t > 0` ticks is found until exactly `now + t`
      and gone one tick later. */
  lemma ExpiryBoundary<V>(c: MemoryCache<V>, key: string, value: V, t: int, now: int)
    requires t > 0
    ensures Get(Set(c, key, value, Some(t), now), key, now + t).0 == Some(value)
    ensures Get(Set(c, key, value, Some(t), now), key, now + t + 1).0 == None
  {
  }

  /** Looking up never adds or changes an entry. */
  lemma GetNeverAdds<V>(c: MemoryCache<V>, key: string, now: int)
    ensures forall k :: k in Get(c, key, now).1.data ==> k in c.data && Get(c, key, now).1.data[k] == c.data[k]
  {
  }

  /** A second lookup at the same time gives the same answer. */
  lemma GetStable<V>(c: MemoryCache<V>, key: string, now: int)
    ensures Get(Get(c, key, now).1, key, now) == Get(c, key, now)
  {
  }
}
