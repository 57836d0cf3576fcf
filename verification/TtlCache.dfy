/**
 The key-value cache that every limiter and the licence decision live in.
 An entry is live strictly before its expiry; setting a key replaces both the value and the expiry.
 */
module TtlCache {
  import opened Basics

  datatype Entry<+V> = Entry(value: V, expiresAt: real)

  type Store<K, V> = map<K, Entry<V>>

  predicate Live<K, V>(s: Store<K, V>, k: K, now: real) {
    k in s && now < s[k].expiresAt
  }

  /** `cache.get(k, default)` at `now`. */
  function Get<K, V>(s: Store<K, V>, k: K, now: real, default: V): V {
    if Live(s, k, now) then s[k].value else default
  }

  /** `cache.set(k, v, timeout=ttl)` at `now`. */
  function Put<K, V>(s: Store<K, V>, k: K, v: V, now: real, ttl: int): Store<K, V> {
    s[k := Entry(v, now + ttl as real)]
  }

  class Cache<K(==), V> {
    var entries: Store<K, V>

    constructor ()
      ensures entries == map[]
    {
      entries := map[];
    }

    method Lookup(k: K, now: Time, default: V) returns (v: V)
      ensures v == Get(entries, k, now, default)
    {
      if k in entries && now < entries[k].expiresAt {
        return entries[k].value;
      }
      return default;
    }

    method Set(k: K, v: V, now: Time, ttl: int)
      modifies this
      ensures entries == Put(old(entries), k, v, now, ttl)
    {
      entries := entries[k := Entry(v, now + ttl as real)];
    }

    method Delete(k: K)
      modifies this
      ensures entries == old(entries) - {k}
    {
      entries := entries - {k};
    }
  }
}
