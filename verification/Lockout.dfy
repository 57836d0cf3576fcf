/** Account lockout: failed logins counted with a renewed timeout, and a lock set by the last of them. */
module Lockout {
  import opened Basics
  import opened TtlCache
  import opened SlidingCounter

  datatype Key = AttemptKey(id: string) | LockKey(id: string) | UntilKey(id: string)

  /** The account is locked: the failures chained up to `now` have reached the maximum. */
  predicate LockedOut(h: History, max: int, duration: int, now: real) {
    Chain(h, now, duration) > 0 && Chain(h, now, duration) >= max
  }

  function AtLeastOne(max: int): (n: nat)
    ensures n >= 1 && n >= max && (n == 1 || n == max)
  {
    if max < 1 then 1 else max
  }

  /** Attempts, lock and lock expiry of one identifier, at every moment from `clock` on. */
  ghost predicate Exact(entries: Store<Key, int>, id: string, h: History, max: int, duration: int, clock: real) {
    && Reflects(entries, AttemptKey(id), h, duration, clock)
    && (forall now: real {:trigger Live(entries, LockKey(id), now)} :: clock <= now ==>
          (Live(entries, LockKey(id), now) <==> LockedOut(h, max, duration, now)))
    && (forall now: real {:trigger Live(entries, UntilKey(id), now)} :: clock <= now ==>
          (Live(entries, UntilKey(id), now) <==> LockedOut(h, max, duration, now)))
    && (forall now: real {:trigger Live(entries, UntilKey(id), now)} ::
          clock <= now && Live(entries, UntilKey(id), now) ==>
          h != [] && entries[UntilKey(id)].value == Last(h).Floor + duration)
  }

  /** Failures were counted only while unlocked. */
  predicate Counted(h: History, max: int, duration: int, clock: real) {
    && Chronological(h) && Limited(h, AtLeastOne(max), duration)
    && (h != [] ==> Last(h) <= clock)
  }

  // ----- One more failure -----

  /** The cache after a counted failure. */
  function AfterFailure(entries: Store<Key, int>, id: string, max: int, duration: int, now: Time): Store<Key, int> {
    var attempts := Get(entries, AttemptKey(id), now, 0) + 1;
    var counted := Put(entries, AttemptKey(id), attempts, now, duration);
    if attempts >= max
    then Put(Put(counted, LockKey(id), 1, now, duration), UntilKey(id), now.Floor + duration, now, duration)
    else counted
  }

  lemma ChainExtends(h: History, now: Time, duration: int, t: real)
    ensures Chain(h + [now], t, duration) == if t >= now + duration as real then 0 else 1 + Chain(h, now, duration)
  {
    assert Front(h + [now]) == h && Last(h + [now]) == now;
  }

  lemma FailureKeepsExact(entries: Store<Key, int>, id: string, h: History, max: int, duration: int, clock: Time,
      now: Time)
    requires Exact(entries, id, h, max, duration, clock) && clock <= now
    requires !LockedOut(h, max, duration, now)
    ensures Exact(AfterFailure(entries, id, max, duration, now), id, h + [now], max, duration, now)
  {
    hide Chain;
    var h' := h + [now];
    var entries' := AfterFailure(entries, id, max, duration, now);
    assert Get(entries, AttemptKey(id), now, 0) == Chain(h, now, duration);
    RenewalExtendsChain(entries, AttemptKey(id), h, duration, clock, now);
    forall t: real | now <= t ensures Get(entries', AttemptKey(id), t, 0) == Chain(h', t, duration) {
      assert Get(Put(entries, AttemptKey(id), Chain(h, now, duration) + 1, now, duration), AttemptKey(id), t, 0) ==
        Chain(h', t, duration);
    }
    assert !Live(entries, LockKey(id), now) && !Live(entries, UntilKey(id), now);
    forall t: real | now <= t
      ensures Live(entries', LockKey(id), t) <==> LockedOut(h', max, duration, t)
      ensures Live(entries', UntilKey(id), t) <==> LockedOut(h', max, duration, t)
    {
      ChainExtends(h, now, duration, t);
    }
    assert Last(h') == now;
  }

  lemma FailureStaysCounted(h: History, max: int, duration: int, clock: Time, now: Time)
    requires Counted(h, max, duration, clock) && clock <= now && !LockedOut(h, max, duration, now)
    ensures Counted(h + [now], max, duration, now)
  {
    hide Chain, Limited;
    ChronologicalExtends(h, now);
    LimitedExtends(h, AtLeastOne(max), duration, now);
  }

  lemma OtherIdentifierUntouched(entries: Store<Key, int>, entries': Store<Key, int>, id: string, h: History,
      max: int, duration: int, clock: Time, now: Time)
    requires Exact(entries, id, h, max, duration, clock) && clock <= now
    requires forall k :: k in {AttemptKey(id), LockKey(id), UntilKey(id)} ==>
               (k in entries' <==> k in entries) && (k in entries ==> entries'[k] == entries[k])
    ensures Exact(entries', id, h, max, duration, now)
  {
    hide Chain;
    forall t: real | now <= t
      ensures Get(entries', AttemptKey(id), t, 0) == Chain(h, t, duration)
      ensures Live(entries', LockKey(id), t) <==> LockedOut(h, max, duration, t)
      ensures Live(entries', UntilKey(id), t) <==> LockedOut(h, max, duration, t)
      ensures Live(entries', UntilKey(id), t) ==> h != [] && entries'[UntilKey(id)].value == Last(h).Floor + duration
    {
      assert Get(entries, AttemptKey(id), t, 0) == Chain(h, t, duration);
      assert Live(entries, LockKey(id), t) <==> LockedOut(h, max, duration, t);
      assert Live(entries, UntilKey(id), t) <==> LockedOut(h, max, duration, t);
    }
  }

  // ----- What a history means -----

  /**
   A lock set by a failure at `now` lasts exactly its duration; then the count is gone, and the next failure is
   the first.
   */
  lemma LockLastsItsDuration(h: History, max: int, duration: int, now: Time, t: real)
    requires !LockedOut(h, max, duration, now) && now <= t
    ensures LockedOut(h + [now], max, duration, t) <==> Chain(h, now, duration) + 1 >= max && t < now + duration as real
    ensures t >= now + duration as real ==> Chain(h + [now], t, duration) == 0
  {
    ChainExtends(h, now, duration, t);
  }

  /** Between clears, every half-open window of the lockout duration holds at most the maximum of counted failures. */
  lemma AtMostMaxFailures(h: History, max: int, duration: int, clock: real, from: real)
    requires Counted(h, max, duration, clock)
    ensures CountIn(h, from, from + duration as real) <= AtLeastOne(max)
  {
    SlidingWindowBound(h, AtLeastOne(max), duration, from);
  }

  /** Failures counted for the identifier since it was last cleared. */
  function HistoryOf(failures: map<string, History>, id: string): History {
    if id in failures then failures[id] else []
  }

  // ----- The manager -----

  class AccountLockoutManager {
    const enabled: bool
    const max: int
    const duration: int
    const cache: Cache<Key, int>
    ghost var clock: Time
    /** Failures counted for each identifier since it was last cleared. */
    ghost var failures: map<string, History>

    constructor (enabled: bool, max: int, duration: int, now: Time)
      ensures Valid() && fresh(cache) && failures == map[] && clock == now
      ensures this.enabled == enabled && this.max == max && this.duration == duration
    {
      this.enabled, this.max, this.duration := enabled, max, duration;
      cache := new Cache();
      clock, failures := now, map[];
    }

    ghost predicate Valid()
      reads this, cache
    {
      forall id :: Exact(cache.entries, id, HistoryOf(failures, id), max, duration, clock)
        && Counted(HistoryOf(failures, id), max, duration, clock)
    }

    method RecordFailedAttempt(id: string, now: Time) returns (locked: bool, remaining: int)
      requires Valid() && clock <= now
      modifies this`clock, this`failures, cache
      ensures Valid() && clock == now
      ensures var chained := Chain(HistoryOf(old(failures), id), now, duration);
              if !enabled then !locked && remaining == 0 && failures == old(failures)
              else if LockedOut(HistoryOf(old(failures), id), max, duration, now) then
                locked && remaining == 0 && failures == old(failures) && cache.entries == old(cache.entries)
              else
                && failures == old(failures)[id := HistoryOf(old(failures), id) + [now]]
                && (locked <==> chained + 1 >= max)
                && remaining == if locked then 0 else max - (chained + 1)
    {
      hide Exact, Counted, Chain;
      var entries := cache.entries;
      ghost var before := failures;
      forall other ensures Exact(entries, other, HistoryOf(failures, other), max, duration, now)
                           && Counted(HistoryOf(failures, other), max, duration, now) {
        assert Exact(entries, other, HistoryOf(failures, other), max, duration, clock)
          && Counted(HistoryOf(failures, other), max, duration, clock);
        OtherIdentifierUntouched(entries, entries, other, HistoryOf(failures, other), max, duration, clock, now);
        CountedLater(HistoryOf(failures, other), max, duration, clock, now);
      }
      clock := now;
      if !enabled {
        return false, 0;
      }
      ghost var h := HistoryOf(failures, id);
      ReadExact(entries, id, h, max, duration, now);
      if LockKey(id) in cache.entries && now < cache.entries[LockKey(id)].expiresAt {
        return true, 0;
      }
      var attempts := cache.Lookup(AttemptKey(id), now, 0);
      attempts := attempts + 1;
      cache.Set(AttemptKey(id), attempts, now, duration);
      if attempts >= max {
        cache.Set(LockKey(id), 1, now, duration);
        cache.Set(UntilKey(id), now.Floor + duration, now, duration);
        locked, remaining := true, 0;
      } else {
        locked, remaining := false, max - attempts;
      }
      failures := failures[id := h + [now]];
      FailureKeepsExact(entries, id, h, max, duration, now, now);
      FailureStaysCounted(h, max, duration, now, now);
      assert HistoryOf(failures, id) == h + [now];
      forall other | other != id
        ensures Exact(cache.entries, other, HistoryOf(failures, other), max, duration, now)
                && Counted(HistoryOf(failures, other), max, duration, now)
      {
        assert HistoryOf(failures, other) == HistoryOf(before, other);
        OtherIdentifierUntouched(entries, cache.entries, other, HistoryOf(failures, other), max, duration, now, now);
      }
    }

    method ClearFailedAttempts(id: string, now: Time)
      requires Valid() && clock <= now
      modifies this`clock, this`failures, cache
      ensures Valid() && clock == now
      ensures failures == if enabled then old(failures)[id := []] else old(failures)
    {
      hide Chain, Exact, Counted;
      var entries := cache.entries;
      ghost var before := failures;
      if enabled {
        cache.Delete(AttemptKey(id));
        cache.Delete(LockKey(id));
        cache.Delete(UntilKey(id));
        failures := failures[id := []];
        ClearedIsExact(cache.entries, id, max, duration, now);
        assert HistoryOf(failures, id) == [];
      }
      forall other ensures Exact(cache.entries, other, HistoryOf(failures, other), max, duration, now)
                           && Counted(HistoryOf(failures, other), max, duration, now) {
        if !(enabled && other == id) {
          assert HistoryOf(failures, other) == HistoryOf(before, other);
          assert Exact(entries, other, HistoryOf(before, other), max, duration, clock)
            && Counted(HistoryOf(before, other), max, duration, clock);
          CountedLater(HistoryOf(before, other), max, duration, clock, now);
          OtherIdentifierUntouched(entries, cache.entries, other, HistoryOf(failures, other), max, duration, clock,
            now);
        }
      }
      clock := now;
    }

    method IsLocked(id: string, now: Time) returns (locked: bool)
      requires Valid() && clock <= now
      ensures locked <==> enabled && LockedOut(HistoryOf(failures, id), max, duration, now)
    {
      hide Exact, Counted, Chain;
      if !enabled {
        return false;
      }
      ReadExact(cache.entries, id, HistoryOf(failures, id), max, duration, clock);
      return LockKey(id) in cache.entries && now < cache.entries[LockKey(id)].expiresAt;
    }

    /** Whole seconds until the lock opens, less than one second away from the exact time left. */
    method GetRemainingLockoutTime(id: string, now: Time) returns (remaining: int)
      requires Valid() && clock <= now
      ensures !(enabled && LockedOut(HistoryOf(failures, id), max, duration, now)) ==> remaining == 0
      ensures enabled && LockedOut(HistoryOf(failures, id), max, duration, now) ==>
                var left := Last(HistoryOf(failures, id)) + duration as real - now;
                HistoryOf(failures, id) != [] && 0 <= remaining && left - 1.0 < remaining as real < left + 1.0
    {
      hide Exact, Counted;
      var locked := IsLocked(id, now);
      if !locked {
        return 0;
      }
      ReadExact(cache.entries, id, HistoryOf(failures, id), max, duration, clock);
      if !(UntilKey(id) in cache.entries && now < cache.entries[UntilKey(id)].expiresAt) {
        return duration;
      }
      remaining := cache.entries[UntilKey(id)].value - now.Floor;
      if remaining < 0 {
        remaining := 0;
      }
    }
  }

  lemma ReadExact(entries: Store<Key, int>, id: string, h: History, max: int, duration: int, clock: Time)
    requires Exact(entries, id, h, max, duration, clock)
    ensures forall now: real {:trigger Live(entries, LockKey(id), now)} {:trigger LockedOut(h, max, duration, now)} ::
            clock <= now ==>
              && (Live(entries, LockKey(id), now) <==> LockedOut(h, max, duration, now))
              && (Live(entries, UntilKey(id), now) <==> LockedOut(h, max, duration, now))
              && Get(entries, AttemptKey(id), now, 0) == Chain(h, now, duration)
              && (Live(entries, UntilKey(id), now) ==>
                 h != [] && entries[UntilKey(id)].value == Last(h).Floor + duration)
  {
  }

  lemma CountedLater(h: History, max: int, duration: int, clock: Time, now: Time)
    requires Counted(h, max, duration, clock) && clock <= now
    ensures Counted(h, max, duration, now)
  {
  }

  lemma ClearedIsExact(entries: Store<Key, int>, id: string, max: int, duration: int, now: Time)
    requires AttemptKey(id) !in entries && LockKey(id) !in entries && UntilKey(id) !in entries
    ensures Exact(entries, id, [], max, duration, now) && Counted([], max, duration, now)
  {
  }
}
