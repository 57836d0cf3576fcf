/**
 The gateway's per-address limit: one renewed counter for every route prefix and client address.
 */
module RegistryGate {
  import opened Basics
  import opened TtlCache
  import opened SlidingCounter

  datatype Key = Key(prefix: string, ip: string)

  /** Times at which each caller was let through. */
  type Record = map<Key, History>

  function Of(record: Record, k: Key): History {
    if k in record then record[k] else []
  }

  /** The cached counter of `k` is the live chain of its admissions, and these stayed within the route's limit. */
  ghost predicate ExactFor(entries: Store<Key, int>, k: Key, h: History, limit: int, window: int, clock: real) {
    Reflects(entries, k, h, window, clock) && Chronological(h) && Limited(h, limit, window)
      && (h != [] ==> Last(h) <= clock)
  }

  ghost predicate Exact(entries: Store<Key, int>, record: Record, limitOf: string -> int, windowOf: string -> int,
      clock: real) {
    forall k {:trigger Of(record, k)} ::
      ExactFor(entries, k, Of(record, k), limitOf(k.prefix), windowOf(k.prefix), clock)
  }

  lemma PassingTime(entries: Store<Key, int>, record: Record, limitOf: string -> int, windowOf: string -> int,
      clock: Time, now: Time)
    requires Exact(entries, record, limitOf, windowOf, clock) && clock <= now
    ensures Exact(entries, record, limitOf, windowOf, now)
  {
    hide Chain, Chronological, Limited;
  }

  lemma OwnAdmission(entries: Store<Key, int>, k: Key, h: History, limit: int, window: int, clock: Time, now: Time)
    requires ExactFor(entries, k, h, limit, window, clock) && clock <= now && Get(entries, k, now, 0) < limit
    ensures ExactFor(Put(entries, k, Get(entries, k, now, 0) + 1, now, window), k, h + [now], limit, window, now)
  {
    RenewalExtendsChain(entries, k, h, window, clock, now);
    assert Get(entries, k, now, 0) == Chain(h, now, window);
    hide Chain, Chronological, Limited, Reflects;
    ChronologicalExtends(h, now);
    LimitedExtends(h, limit, window, now);
  }

  lemma OtherAdmission(entries: Store<Key, int>, k: Key, h: History, limit: int, window: int, clock: Time,
      other: Key, v: int, ttl: int, now: Time)
    requires ExactFor(entries, k, h, limit, window, clock) && clock <= now && k != other
    ensures ExactFor(Put(entries, other, v, now, ttl), k, h, limit, window, now)
  {
    hide Chain, Chronological, Limited, Reflects;
    OtherKeysKeepReflecting(entries, k, h, window, clock, other, v, now, ttl);
  }

  lemma AdmissionKeepsExact(entries: Store<Key, int>, record: Record, limitOf: string -> int,
      windowOf: string -> int, clock: Time, k: Key, now: Time)
    requires Exact(entries, record, limitOf, windowOf, clock) && clock <= now
    requires Get(entries, k, now, 0) < limitOf(k.prefix)
    ensures Exact(Put(entries, k, Get(entries, k, now, 0) + 1, now, windowOf(k.prefix)),
            record[k := Of(record, k) + [now]], limitOf, windowOf, now)
  {
    hide ExactFor, Get, Put;
    var w := windowOf(k.prefix);
    var entries', record' := Put(entries, k, Get(entries, k, now, 0) + 1, now, w), record[k := Of(record, k) + [now]];
    forall other
      ensures ExactFor(entries', other, Of(record', other), limitOf(other.prefix), windowOf(other.prefix), now)
    {
      assert ExactFor(entries, other, Of(record, other), limitOf(other.prefix), windowOf(other.prefix), clock);
      if other == k {
        OwnAdmission(entries, k, Of(record, k), limitOf(k.prefix), w, clock, now);
      } else {
        OtherAdmission(entries, other, Of(record, other), limitOf(other.prefix), windowOf(other.prefix), clock, k,
          Get(entries, k, now, 0) + 1, w, now);
      }
    }
  }

  class Gate {
    const limitOf: string -> int
    const windowOf: string -> int
    const cache: Cache<Key, int>
    ghost var clock: Time
    ghost var record: Record

    constructor (limitOf: string -> int, windowOf: string -> int, now: Time)
      ensures Valid() && fresh(cache) && record == map[] && clock == now && this.limitOf == limitOf
              && this.windowOf == windowOf
    {
      this.limitOf, this.windowOf := limitOf, windowOf;
      cache := new Cache();
      clock, record := now, map[];
    }

    ghost predicate Valid()
      reads this, cache
    {
      Exact(cache.entries, record, limitOf, windowOf, clock)
    }

    method RateAllow(prefix: string, ip: string, now: Time) returns (ok: bool)
      requires Valid() && clock <= now
      modifies this`clock, this`record, cache
      ensures Valid() && clock == now
      ensures ok <==> Chain(Of(old(record), Key(prefix, ip)), now, windowOf(prefix)) < limitOf(prefix)
      ensures record == if ok then old(record)[Key(prefix, ip) := Of(old(record), Key(prefix, ip)) + [now]]
              else old(record)
    {
      hide Chain, Chronological, Limited;
      var k := Key(prefix, ip);
      assert Reflects(cache.entries, k, Of(record, k), windowOf(prefix), clock);
      var n := cache.Lookup(k, now, 0);
      PassingTime(cache.entries, record, limitOf, windowOf, clock, now);
      ghost var earlier := clock;
      clock := now;
      if n >= limitOf(prefix) {
        return false;
      }
      AdmissionKeepsExact(cache.entries, record, limitOf, windowOf, earlier, k, now);
      cache.Set(k, n + 1, now, windowOf(prefix));
      record := record[k := Of(record, k) + [now]];
      return true;
    }

    /** In every reachable state each half-open window of a route holds at most the route's limit from one address. */
    lemma AtMostLimitPerWindow(prefix: string, ip: string, from: real)
      requires Valid() && 0 <= limitOf(prefix)
      ensures CountIn(Of(record, Key(prefix, ip)), from, from + windowOf(prefix) as real) <= limitOf(prefix)
    {
      SlidingWindowBound(Of(record, Key(prefix, ip)), limitOf(prefix), windowOf(prefix), from);
    }
  }
}
