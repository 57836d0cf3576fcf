/**
 The limiter of bulk operations: weighted counters under the minute of the hour and the hour of the
 day, keys that come back every hour and every day.
 */
module BulkLimiter {
  import opened Basics
  import opened TtlCache

  datatype Key = MinuteKey(user: int, op: string, minute: int) | HourKey(user: int, op: string, hour: int)

  /** An admitted operation over `items` items, with the limits it was admitted under. */
  datatype Batch = Batch(user: int, op: string, items: nat, at: Time, perMinute: int, perHour: int)

  datatype Verdict = Admitted | MinuteExceeded | HourExceeded

  /** Minutes and hours since the epoch. */
  function AbsoluteMinute(t: Time): nat {
    (t / 60.0).Floor
  }

  function AbsoluteHour(t: Time): nat {
    (t / 3600.0).Floor
  }

  /** `now.minute` and `now.hour` of a UTC clock. */
  function MinuteOfHour(t: Time): nat {
    AbsoluteMinute(t) % 60
  }

  function HourOfDay(t: Time): nat {
    AbsoluteHour(t) % 24
  }

  function MinuteSum(log: seq<Batch>, user: int, op: string, minute: nat): nat {
    if log == [] then 0
    else
      var b := log[|log| - 1];
      MinuteSum(log[..|log| - 1], user, op, minute)
      + if b.user == user && b.op == op && AbsoluteMinute(b.at) == minute then b.items else 0
  }

  function HourSum(log: seq<Batch>, user: int, op: string, hour: nat): nat {
    if log == [] then 0
    else
      var b := log[|log| - 1];
      HourSum(log[..|log| - 1], user, op, hour)
      + if b.user == user && b.op == op && AbsoluteHour(b.at) == hour then b.items else 0
  }

  predicate InOrder(log: seq<Batch>, clock: real) {
    forall i :: 0 <= i < |log| ==> log[i].at <= clock
  }

  lemma {:induction false} NothingInTheFuture(log: seq<Batch>, clock: Time, user: int, op: string, minute: nat,
      hour: nat)
    requires InOrder(log, clock)
    ensures minute > AbsoluteMinute(clock) ==> MinuteSum(log, user, op, minute) == 0
    ensures hour > AbsoluteHour(clock) ==> HourSum(log, user, op, hour) == 0
  {
    if log != [] {
      NothingInTheFuture(log[..|log| - 1], clock, user, op, minute, hour);
      assert log[|log| - 1].at <= clock;
    }
  }

  // ----- The cache mirrors the sums -----

  predicate MinuteExact(entries: Store<Key, nat>, log: seq<Batch>, user: int, op: string, now: Time) {
    Get(entries, MinuteKey(user, op, MinuteOfHour(now)), now, 0) == MinuteSum(log, user, op, AbsoluteMinute(now))
  }

  predicate HourExact(entries: Store<Key, nat>, log: seq<Batch>, user: int, op: string, now: Time) {
    Get(entries, HourKey(user, op, HourOfDay(now)), now, 0) == HourSum(log, user, op, AbsoluteHour(now))
  }

  /** From `clock` on, what is read under the recurring keys is what the absolute minute and hour admitted. */
  ghost predicate Exact(entries: Store<Key, nat>, log: seq<Batch>, clock: Time) {
    && InOrder(log, clock)
    && (forall user, op, now: Time {:trigger MinuteExact(entries, log, user, op, now)} :: clock <= now ==>
       MinuteExact(entries, log, user, op, now))
    && (forall user, op, now: Time {:trigger HourExact(entries, log, user, op, now)} :: clock <= now ==>
       HourExact(entries, log, user, op, now))
  }

  function Counted(entries: Store<Key, nat>, user: int, op: string, minuteCount: nat, hourCount: nat, items: nat,
      now: Time): Store<Key, nat> {
    Put(Put(entries, MinuteKey(user, op, MinuteOfHour(now)), minuteCount + items, now, 60),
        HourKey(user, op, HourOfDay(now)), hourCount + items, now, 3600)
  }

  /** The minute key returns no sooner than an hour later, by when its one-minute entry is gone. */
  lemma MinuteKeyReturnsLate(t1: Time, t2: Time)
    requires t1 <= t2 && MinuteOfHour(t1) == MinuteOfHour(t2)
    ensures AbsoluteMinute(t1) == AbsoluteMinute(t2) ==> t2 < t1 + 60.0
    ensures AbsoluteMinute(t1) != AbsoluteMinute(t2) ==> t1 + 60.0 <= t2
  {
  }

  lemma HourKeyReturnsLate(t1: Time, t2: Time)
    requires t1 <= t2 && HourOfDay(t1) == HourOfDay(t2)
    ensures AbsoluteHour(t1) == AbsoluteHour(t2) ==> t2 < t1 + 3600.0
    ensures AbsoluteHour(t1) != AbsoluteHour(t2) ==> t1 + 3600.0 <= t2
  {
  }

  lemma ClockAdvances(t1: Time, t2: Time)
    requires t1 <= t2
    ensures AbsoluteMinute(t1) <= AbsoluteMinute(t2) && AbsoluteHour(t1) <= AbsoluteHour(t2)
  {
  }

  /** The cache after admitting `b` on top of the exact sums. */
  function AfterBatch(entries: Store<Key, nat>, log: seq<Batch>, b: Batch): Store<Key, nat> {
    Counted(entries, b.user, b.op,
            MinuteSum(log, b.user, b.op, AbsoluteMinute(b.at)), HourSum(log, b.user, b.op, AbsoluteHour(b.at)),
              b.items, b.at)
  }

  lemma MinuteStaysExact(entries: Store<Key, nat>, log: seq<Batch>, clock: Time, b: Batch, user: int, op: string,
      now: Time)
    requires Exact(entries, log, clock) && clock <= b.at <= now
    ensures MinuteExact(AfterBatch(entries, log, b), log + [b], user, op, now)
  {
    hide AbsoluteMinute, AbsoluteHour, HourSum;
    assert (log + [b])[..|log|] == log;
    assert MinuteExact(entries, log, user, op, now);
    ClockAdvances(b.at, now);
    if user == b.user && op == b.op && MinuteOfHour(now) == MinuteOfHour(b.at) {
      MinuteKeyReturnsLate(b.at, now);
      NothingInTheFuture(log, b.at, user, op, AbsoluteMinute(now), 0);
    }
  }

  lemma HourStaysExact(entries: Store<Key, nat>, log: seq<Batch>, clock: Time, b: Batch, user: int, op: string,
      now: Time)
    requires Exact(entries, log, clock) && clock <= b.at <= now
    ensures HourExact(AfterBatch(entries, log, b), log + [b], user, op, now)
  {
    hide AbsoluteMinute, AbsoluteHour, MinuteSum;
    assert (log + [b])[..|log|] == log;
    assert HourExact(entries, log, user, op, now);
    ClockAdvances(b.at, now);
    if user == b.user && op == b.op && HourOfDay(now) == HourOfDay(b.at) {
      HourKeyReturnsLate(b.at, now);
      NothingInTheFuture(log, b.at, user, op, 0, AbsoluteHour(now));
    }
  }

  lemma AdmissionKeepsExact(entries: Store<Key, nat>, log: seq<Batch>, clock: Time, b: Batch)
    requires Exact(entries, log, clock) && clock <= b.at
    ensures Exact(AfterBatch(entries, log, b), log + [b], b.at)
  {
    hide MinuteExact, HourExact, AfterBatch;
    forall user, op, now: Time | b.at <= now
      ensures MinuteExact(AfterBatch(entries, log, b), log + [b], user, op, now)
      ensures HourExact(AfterBatch(entries, log, b), log + [b], user, op, now)
    {
      MinuteStaysExact(entries, log, clock, b, user, op, now);
      HourStaysExact(entries, log, clock, b, user, op, now);
    }
  }

  // ----- Whole runs -----

  /** The batch at `i` kept within its own limits, given what came before it. */
  predicate AdmittedAt(log: seq<Batch>, i: nat)
    requires i < |log|
  {
    var b := log[i];
    && MinuteSum(log[..i], b.user, b.op, AbsoluteMinute(b.at)) + b.items <= b.perMinute
    && HourSum(log[..i], b.user, b.op, AbsoluteHour(b.at)) + b.items <= b.perHour
  }

  predicate Admissible(log: seq<Batch>) {
    forall i :: 0 <= i < |log| ==> AdmittedAt(log, i)
  }

  lemma AdmissibleExtends(log: seq<Batch>, b: Batch)
    requires Admissible(log)
    requires MinuteSum(log, b.user, b.op, AbsoluteMinute(b.at)) + b.items <= b.perMinute
    requires HourSum(log, b.user, b.op, AbsoluteHour(b.at)) + b.items <= b.perHour
    ensures Admissible(log + [b])
  {
    hide MinuteSum, HourSum, AbsoluteMinute, AbsoluteHour;
    assert (log + [b])[..|log|] == log;
    forall i | 0 <= i < |log| ensures AdmittedAt(log + [b], i) {
      assert AdmittedAt(log, i) && (log + [b])[..i] == log[..i];
    }
  }

  lemma AdmissibleFront(log: seq<Batch>)
    requires log != [] && Admissible(log)
    ensures Admissible(log[..|log| - 1])
  {
    hide MinuteSum, HourSum, AbsoluteMinute, AbsoluteHour;
    var front := log[..|log| - 1];
    forall i | 0 <= i < |front| ensures AdmittedAt(front, i) {
      assert AdmittedAt(log, i) && front[..i] == log[..i];
    }
  }

  lemma {:induction false} MinuteHoldsItsLimit(log: seq<Batch>, user: int, op: string, minute: nat, limit: nat)
    requires Admissible(log)
    requires forall b :: b in log && b.user == user && b.op == op && AbsoluteMinute(b.at) == minute ==>
             b.perMinute <= limit
    ensures MinuteSum(log, user, op, minute) <= limit
  {
    if log != [] {
      hide AbsoluteMinute, AbsoluteHour, HourSum;
      AdmissibleFront(log);
      MinuteHoldsItsLimit(log[..|log| - 1], user, op, minute, limit);
      assert AdmittedAt(log, |log| - 1) && log[|log| - 1] in log;
    }
  }

  lemma {:induction false} HourHoldsItsLimit(log: seq<Batch>, user: int, op: string, hour: nat, limit: nat)
    requires Admissible(log)
    requires forall b :: b in log && b.user == user && b.op == op && AbsoluteHour(b.at) == hour ==> b.perHour <= limit
    ensures HourSum(log, user, op, hour) <= limit
  {
    if log != [] {
      hide AbsoluteMinute, AbsoluteHour, MinuteSum;
      AdmissibleFront(log);
      HourHoldsItsLimit(log[..|log| - 1], user, op, hour, limit);
      assert AdmittedAt(log, |log| - 1) && log[|log| - 1] in log;
    }
  }

  // ----- The limiter -----

  /** What the limiter decides, in terms of what the current clock minute and clock hour have admitted. */
  function Decide(log: seq<Batch>, user: int, op: string, items: nat, perMinute: int, perHour: int,
      now: Time): Verdict {
    if MinuteSum(log, user, op, AbsoluteMinute(now)) + items > perMinute then MinuteExceeded
    else if HourSum(log, user, op, AbsoluteHour(now)) + items > perHour then HourExceeded
    else Admitted
  }

  class Limiter {
    const cache: Cache<Key, nat>
    ghost var clock: Time
    ghost var log: seq<Batch>

    constructor (now: Time)
      ensures Valid() && fresh(cache) && log == [] && clock == now
    {
      cache := new Cache();
      clock, log := now, [];
    }

    ghost predicate Valid()
      reads this, cache
    {
      Exact(cache.entries, log, clock) && Admissible(log)
    }

    /** Admits exactly when neither the current clock minute nor the current clock hour would exceed its limit. */
    method CheckRateLimit(user: int, op: string, items: nat, perMinute: int, perHour: int,
        now: Time) returns (verdict: Verdict)
      requires Valid() && clock <= now
      modifies this`clock, this`log, cache
      ensures Valid() && clock == now
      ensures verdict == Decide(old(log), user, op, items, perMinute, perHour, now)
      ensures var minute, hour := MinuteSum(old(log), user, op, AbsoluteMinute(now)),
                                  HourSum(old(log), user, op, AbsoluteHour(now));
              && (verdict == Admitted <==> minute + items <= perMinute && hour + items <= perHour)
              && (verdict == HourExceeded <==> minute + items <= perMinute && hour + items > perHour)
      ensures log == if verdict == Admitted then old(log) + [Batch(user, op, items, now, perMinute, perHour)]
              else old(log)
      ensures verdict == Admitted ==>
                MinuteSum(log, user, op, AbsoluteMinute(now)) <= perMinute
                && HourSum(log, user, op, AbsoluteHour(now)) <= perHour
      ensures verdict != Admitted ==> cache.entries == old(cache.entries)
    {
      hide AbsoluteMinute, AbsoluteHour, MinuteOfHour, HourOfDay, MinuteSum, HourSum, Exact, Admissible;
      CountersAreExact(cache.entries, log, clock, user, op, now);
      var minuteKey := MinuteKey(user, op, MinuteOfHour(now));
      var hourKey := HourKey(user, op, HourOfDay(now));
      var minuteCount := cache.Lookup(minuteKey, now, 0);
      var hourCount := cache.Lookup(hourKey, now, 0);
      ghost var b := Batch(user, op, items, now, perMinute, perHour);
      AdmissionKeepsExact(cache.entries, log, clock, b);
      LaterExact(cache.entries, log, clock, now);
      clock := now;
      if minuteCount + items > perMinute {
        return MinuteExceeded;
      }
      if hourCount + items > perHour {
        return HourExceeded;
      }
      cache.Set(minuteKey, minuteCount + items, now, 60);
      cache.Set(hourKey, hourCount + items, now, 3600);
      SumsExtend(log, b);
      AdmissibleExtends(log, b);
      log := log + [b];
      verdict := Admitted;
    }

    /**
     In every reachable state each clock minute and each clock hour holds at most its limit, whatever limits the
     single calls brought along.
     */
    lemma NeverMoreThanTheLimits(user: int, op: string, minute: nat, perMinute: nat, hour: nat, perHour: nat)
      requires Valid()
      requires forall b :: b in log && b.user == user && b.op == op && AbsoluteMinute(b.at) == minute ==>
               b.perMinute <= perMinute
      requires forall b :: b in log && b.user == user && b.op == op && AbsoluteHour(b.at) == hour ==>
               b.perHour <= perHour
      ensures MinuteSum(log, user, op, minute) <= perMinute && HourSum(log, user, op, hour) <= perHour
    {
      hide AbsoluteMinute, AbsoluteHour, MinuteSum, HourSum, Exact, Admissible;
      MinuteHoldsItsLimit(log, user, op, minute, perMinute);
      HourHoldsItsLimit(log, user, op, hour, perHour);
    }
  }

  lemma CountersAreExact(entries: Store<Key, nat>, log: seq<Batch>, clock: Time, user: int, op: string, now: Time)
    requires Exact(entries, log, clock) && clock <= now
    ensures Get(entries, MinuteKey(user, op, MinuteOfHour(now)), now, 0) ==
            MinuteSum(log, user, op, AbsoluteMinute(now))
    ensures Get(entries, HourKey(user, op, HourOfDay(now)), now, 0) == HourSum(log, user, op, AbsoluteHour(now))
  {
    assert MinuteExact(entries, log, user, op, now) && HourExact(entries, log, user, op, now);
  }

  lemma SumsExtend(log: seq<Batch>, b: Batch)
    ensures MinuteSum(log + [b], b.user, b.op, AbsoluteMinute(b.at)) ==
            MinuteSum(log, b.user, b.op, AbsoluteMinute(b.at)) + b.items
    ensures HourSum(log + [b], b.user, b.op, AbsoluteHour(b.at)) ==
            HourSum(log, b.user, b.op, AbsoluteHour(b.at)) + b.items
  {
    assert (log + [b])[..|log|] == log;
  }

  lemma LaterExact(entries: Store<Key, nat>, log: seq<Batch>, clock: Time, now: Time)
    requires Exact(entries, log, clock) && clock <= now
    ensures Exact(entries, log, now)
  {
    hide MinuteExact, HourExact;
  }
}
