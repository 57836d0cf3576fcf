/**
 The request rate limiter: one counter per client and per aligned minute, hour and day, whose cache
 key ends in the number of the current window. Denied requests are counted too.
 */
module RateLimiter {
  import opened Basics
  import opened Text
  import opened TtlCache

  datatype Window = Minute | Hour | Day

  const WINDOWS := [Minute, Hour, Day]

  datatype Strategy = User | Ip | Role | Endpoint | Combined | Unknown(name: string)

  datatype Client = Client(ip: string, userId: nat, role: string, path: string)

  datatype Limits = Limits(minute: int, hour: int, day: int)

  /** One call: whose counters it used, when, under which limits, and what it answered. */
  datatype Check = Check(prefix: string, at: Time, limits: Limits, allowed: bool)

  function Name(w: Window): string {
    match w
    case Minute => "minute"
    case Hour => "hour"
    case Day => "day"
  }

  function Seconds(w: Window): int {
    match w
    case Minute => 60
    case Hour => 3600
    case Day => 86400
  }

  function LimitOf(l: Limits, w: Window): int {
    match w
    case Minute => l.minute
    case Hour => l.hour
    case Day => l.day
  }

  /** Number of the aligned window that holds `t`. */
  function Bucket(w: Window, t: Time): nat {
    match w
    case Minute => (t / 60.0).Floor
    case Hour => (t / 3600.0).Floor
    case Day => (t / 86400.0).Floor
  }

  function Key(prefix: string, w: Window, bucket: nat): string {
    prefix + ":" + Name(w) + ":" + Decimal(bucket)
  }

  function StrategyName(s: Strategy): string {
    match s
    case User => "user"
    case Ip => "ip"
    case Role => "role"
    case Endpoint => "endpoint"
    case Combined => "combined"
    case Unknown(name) => name
  }

  /**
   Whom the strategy counts against; a user or role strategy without one limits nobody. An id of 0 stands for
   no user.
   */
  function Identifier(s: Strategy, c: Client, endpoint: string): Option<string> {
    match s
    case User => if c.userId == 0 then None else Some(Decimal(c.userId))
    case Role => if c.role == "" then None else Some(c.role)
    case Endpoint => Some(if endpoint != "" then endpoint else c.path)
    case Combined =>
      Some((if c.userId != 0 then "user:" + Decimal(c.userId) + ":" else "") + "ip:" + c.ip
           + if endpoint != "" then ":endpoint:" + endpoint else "")
    case _ => Some(c.ip)
  }

  function Prefix(s: Strategy, identifier: string, endpoint: string): string {
    "rate_limit:" + StrategyName(s) + ":" + identifier + if s == Combined && endpoint != "" then ":" + endpoint else ""
  }

  // ----- Keys and buckets -----

  /** A key names its client, its window and its bucket. */
  lemma KeyDeterminesBucket(p1: string, w1: Window, b1: nat, p2: string, w2: Window, b2: nat)
    requires Key(p1, w1, b1) == Key(p2, w2, b2)
    ensures p1 == p2 && w1 == w2 && b1 == b2
  {
    DecimalHasOnlyDigits(b1, ':');
    DecimalHasOnlyDigits(b2, ':');
    LastSeparatorSplitsUniquely(p1 + ":" + Name(w1), Decimal(b1), p2 + ":" + Name(w2), Decimal(b2), ':');
    LastSeparatorSplitsUniquely(p1, Name(w1), p2, Name(w2), ':');
    DecimalRoundTrip(b1);
    DecimalRoundTrip(b2);
  }

  // ----- Windows of the clock -----

  lemma SameBucketIsWithinWindow(w: Window, t1: Time, t2: Time)
    requires Bucket(w, t1) == Bucket(w, t2)
    ensures t2 < t1 + Seconds(w) as real
  {
  }

  lemma WindowMeetsTwoBuckets(w: Window, from: Time, t: Time)
    requires from <= t < from + Seconds(w) as real
    ensures Bucket(w, t) == Bucket(w, from) || Bucket(w, t) == Bucket(w, from) + 1
  {
  }

  // ----- The exact counts -----

  predicate InBucket(c: Check, w: Window, prefix: string, bucket: nat) {
    c.prefix == prefix && Bucket(w, c.at) == bucket
  }

  /** Checks made in a bucket, denied ones included. */
  function Seen(log: seq<Check>, w: Window, prefix: string, bucket: nat): nat {
    if log == [] then 0
    else Seen(log[..|log| - 1], w, prefix, bucket) + if InBucket(log[|log| - 1], w, prefix, bucket) then 1 else 0
  }

  function Passed(log: seq<Check>, w: Window, prefix: string, bucket: nat): nat {
    if log == [] then 0
    else
      var c := log[|log| - 1];
      Passed(log[..|log| - 1], w, prefix, bucket) + if c.allowed && InBucket(c, w, prefix, bucket) then 1 else 0
  }

  function PassedBetween(log: seq<Check>, prefix: string, from: real, until: real): nat {
    if log == [] then 0
    else
      var c := log[|log| - 1];
      PassedBetween(log[..|log| - 1], prefix, from, until)
      + if c.allowed && c.prefix == prefix && from <= c.at < until then 1 else 0
  }

  /** Whether a check passes: in each window fewer checks than the limit came before it in its bucket. */
  predicate WithinLimits(log: seq<Check>, prefix: string, at: Time, limits: Limits) {
    forall w: Window :: Seen(log, w, prefix, Bucket(w, at)) < LimitOf(limits, w)
  }

  /** `max(0, limit - count)` for the bucket at `at`. */
  function Left(log: seq<Check>, prefix: string, at: Time, limits: Limits, w: Window): nat {
    var left := LimitOf(limits, w) - Seen(log, w, prefix, Bucket(w, at));
    if left < 0 then 0 else left
  }

  predicate Faithful(log: seq<Check>) {
    forall i :: 0 <= i < |log| ==> (log[i].allowed <==> WithinLimits(log[..i], log[i].prefix, log[i].at, log[i].limits))
  }

  lemma FaithfulFront(log: seq<Check>)
    requires log != [] && Faithful(log)
    ensures var front, c := log[..|log| - 1], log[|log| - 1];
            Faithful(front) && (c.allowed <==> WithinLimits(front, c.prefix, c.at, c.limits))
  {
    var front := log[..|log| - 1];
    forall i | 0 <= i < |front| ensures front[..i] == log[..i] {
    }
  }

  lemma FaithfulExtends(log: seq<Check>, c: Check)
    requires Faithful(log) && (c.allowed <==> WithinLimits(log, c.prefix, c.at, c.limits))
    ensures Faithful(log + [c])
  {
    var log' := log + [c];
    assert log'[..|log|] == log;
    forall i | 0 <= i < |log| ensures log'[..i] == log[..i] {
    }
  }

  /** At most the limit passes in each aligned minute, hour and day. */
  lemma {:induction false} AtMostLimitPerBucket(log: seq<Check>, w: Window, prefix: string, bucket: nat, limit: nat)
    requires Faithful(log)
    requires forall i :: 0 <= i < |log| && InBucket(log[i], w, prefix, bucket) ==> LimitOf(log[i].limits, w) <= limit
    ensures Passed(log, w, prefix, bucket) <= limit
    ensures Passed(log, w, prefix, bucket) <= Seen(log, w, prefix, bucket)
  {
    if log != [] {
      hide Bucket;
      FaithfulFront(log);
      AtMostLimitPerBucket(log[..|log| - 1], w, prefix, bucket, limit);
    }
  }

  lemma {:induction false} SlidingMeetsTwoBuckets(log: seq<Check>, w: Window, prefix: string, from: Time)
    ensures var b := Bucket(w, from);
            PassedBetween(log, prefix, from, from + Seconds(w) as real) <= Passed(log, w, prefix, b)
              + Passed(log, w, prefix, b + 1)
  {
    if log != [] {
      SlidingMeetsTwoBuckets(log[..|log| - 1], w, prefix, from);
      var t := log[|log| - 1].at;
      if from <= t < from + Seconds(w) as real {
        WindowMeetsTwoBuckets(w, from, t);
      }
    }
  }

  /** At most twice the limit passes in any half-open stretch as long as the window. */
  lemma AtMostTwiceInAnyWindow(log: seq<Check>, w: Window, prefix: string, from: Time, limit: nat)
    requires Faithful(log)
    requires forall i :: 0 <= i < |log| && log[i].prefix == prefix ==> LimitOf(log[i].limits, w) <= limit
    ensures PassedBetween(log, prefix, from, from + Seconds(w) as real) <= 2 * limit
  {
    SlidingMeetsTwoBuckets(log, w, prefix, from);
    AtMostLimitPerBucket(log, w, prefix, Bucket(w, from), limit);
    AtMostLimitPerBucket(log, w, prefix, Bucket(w, from) + 1, limit);
  }

  // ----- Exactly when the limit holds over a sliding window -----

  predicate Ordered(log: seq<Check>) {
    forall i, j :: 0 <= i <= j < |log| ==> log[i].at <= log[j].at
  }

  /** What a limiter can have recorded. */
  predicate Plausible(log: seq<Check>) {
    Faithful(log) && Ordered(log)
  }

  predicate WithLimit(log: seq<Check>, w: Window, prefix: string, limit: nat) {
    forall i :: 0 <= i < |log| && log[i].prefix == prefix ==> LimitOf(log[i].limits, w) <= limit
  }

  /** A window of the clock begins at `from`. */
  predicate Aligned(w: Window, from: Time) {
    from == (Bucket(w, from) * Seconds(w)) as real
  }

  function NextBoundary(w: Window, from: Time): Time {
    ((Bucket(w, from) + 1) * Seconds(w)) as real
  }

  lemma BoundaryIsNext(w: Window, from: Time)
    ensures from < NextBoundary(w, from) <= from + Seconds(w) as real
    ensures NextBoundary(w, from) < from + Seconds(w) as real <==> !Aligned(w, from)
    ensures Bucket(w, NextBoundary(w, from)) == Bucket(w, from) + 1
  {
  }

  /** A sliding window that is a window of the clock meets one bucket only. */
  lemma {:induction false} AlignedMeetsOneBucket(log: seq<Check>, w: Window, prefix: string, from: Time)
    requires Aligned(w, from)
    ensures PassedBetween(log, prefix, from, from + Seconds(w) as real) <= Passed(log, w, prefix, Bucket(w, from))
  {
    if log != [] {
      AlignedMeetsOneBucket(log[..|log| - 1], w, prefix, from);
      var t := log[|log| - 1].at;
      if from <= t < from + Seconds(w) as real {
        AlignedBucket(w, from, t);
      }
    }
  }

  lemma AlignedBucket(w: Window, from: Time, t: Time)
    requires Aligned(w, from) && from <= t < from + Seconds(w) as real
    ensures Bucket(w, t) == Bucket(w, from)
  {
  }

  /** `log` followed by `n` checks of one caller at one moment, all passing. */
  function Burst(log: seq<Check>, prefix: string, n: nat, at: Time, limits: Limits): seq<Check> {
    if n == 0 then log else Burst(log, prefix, n - 1, at, limits) + [Check(prefix, at, limits, true)]
  }

  lemma {:induction false} BurstIsSeen(log: seq<Check>, prefix: string, n: nat, at: Time, limits: Limits, w: Window,
      bucket: nat)
    ensures Seen(Burst(log, prefix, n, at, limits), w, prefix, bucket) ==
            Seen(log, w, prefix, bucket) + if Bucket(w, at) == bucket then n else 0
  {
    hide Bucket;
    if n > 0 {
      BurstIsSeen(log, prefix, n - 1, at, limits, w, bucket);
      var b := Burst(log, prefix, n, at, limits);
      assert b[..|b| - 1] == Burst(log, prefix, n - 1, at, limits);
    }
  }

  lemma {:induction false} BurstPasses(log: seq<Check>, prefix: string, n: nat, at: Time, limits: Limits, from: real,
      until: real)
    ensures PassedBetween(Burst(log, prefix, n, at, limits), prefix, from, until) ==
            PassedBetween(log, prefix, from, until) + if from <= at < until then n else 0
  {
    if n > 0 {
      BurstPasses(log, prefix, n - 1, at, limits, from, until);
      var b := Burst(log, prefix, n, at, limits);
      assert b[..|b| - 1] == Burst(log, prefix, n - 1, at, limits);
    }
  }

  lemma {:induction false} BurstIsOrdered(log: seq<Check>, prefix: string, n: nat, at: Time, limits: Limits)
    requires Ordered(log) && forall i :: 0 <= i < |log| ==> log[i].at <= at
    ensures var b := Burst(log, prefix, n, at, limits); Ordered(b) && forall i :: 0 <= i < |b| ==> b[i].at <= at
  {
    if n > 0 {
      BurstIsOrdered(log, prefix, n - 1, at, limits);
    }
  }

  lemma {:induction false} BurstHasLimits(log: seq<Check>, prefix: string, n: nat, at: Time, limits: Limits)
    requires forall i :: 0 <= i < |log| ==> log[i].limits == limits
    ensures forall i :: 0 <= i < |Burst(log, prefix, n, at, limits)| ==>
            Burst(log, prefix, n, at, limits)[i].limits == limits
  {
    if n > 0 {
      BurstHasLimits(log, prefix, n - 1, at, limits);
    }
  }

  lemma {:induction false} BurstIsFaithful(log: seq<Check>, prefix: string, n: nat, at: Time, limits: Limits)
    requires Faithful(log)
    requires forall w: Window :: Seen(log, w, prefix, Bucket(w, at)) + n <= LimitOf(limits, w)
    ensures Faithful(Burst(log, prefix, n, at, limits))
  {
    if n > 0 {
      BurstIsFaithful(log, prefix, n - 1, at, limits);
      NextOfBurstPasses(log, prefix, n, at, limits);
      hide Bucket, Seen, LimitOf, Faithful, WithinLimits;
      FaithfulExtends(Burst(log, prefix, n - 1, at, limits), Check(prefix, at, limits, true));
    }
  }

  lemma NextOfBurstPasses(log: seq<Check>, prefix: string, n: nat, at: Time, limits: Limits)
    requires n > 0
    requires forall w: Window :: Seen(log, w, prefix, Bucket(w, at)) + n <= LimitOf(limits, w)
    ensures WithinLimits(Burst(log, prefix, n - 1, at, limits), prefix, at, limits)
  {
    hide Bucket, Seen, LimitOf, Burst;
    forall w: Window
      ensures Seen(Burst(log, prefix, n - 1, at, limits), w, prefix, Bucket(w, at)) < LimitOf(limits, w)
    {
      BurstIsSeen(log, prefix, n - 1, at, limits, w, Bucket(w, at));
    }
  }

  /**
   What is reported as left is what still passes: after `n` more checks at that moment the next one passes exactly when
   more than `n` were left in each window.
   */
  lemma LeftIsWhatPasses(log: seq<Check>, prefix: string, n: nat, at: Time, limits: Limits)
    ensures WithinLimits(Burst(log, prefix, n, at, limits), prefix, at, limits)
       <==> forall w: Window :: n < Left(log, prefix, at, limits, w)
  {
    hide Bucket, Seen, Burst, LimitOf;
    forall w: Window
      ensures Seen(Burst(log, prefix, n, at, limits), w, prefix, Bucket(w, at)) < LimitOf(limits, w)
         <==> n < Left(log, prefix, at, limits, w)
    {
      BurstIsSeen(log, prefix, n, at, limits, w, Bucket(w, at));
    }
  }

  /** Buckets are the minutes, hours and days of the clock, and each has the limit of its name. */
  lemma BucketsAreTheClocks(t: Time, n: nat, limits: Limits)
    ensures Bucket(Minute, t) == n <==> 60.0 * n as real <= t < 60.0 * (n + 1) as real
    ensures Bucket(Hour, t) == n <==> 3600.0 * n as real <= t < 3600.0 * (n + 1) as real
    ensures Bucket(Day, t) == n <==> 86400.0 * n as real <= t < 86400.0 * (n + 1) as real
    ensures limits == Limits(LimitOf(limits, Minute), LimitOf(limits, Hour), LimitOf(limits, Day))
  {
  }

  /** `limit` for one window and room for twice as much in the others. */
  function LimitsWith(w: Window, limit: nat): Limits {
    var room := 2 * limit;
    Limits(if w == Minute then limit else room, if w == Hour then limit else room, if w == Day then limit else room)
  }

  /** A burst at the start of a sliding window and one at the boundary of the clock inside it. */
  function TwoBursts(w: Window, prefix: string, from: Time, limit: nat): seq<Check> {
    Burst(Burst([], prefix, limit, from, LimitsWith(w, limit)), prefix, limit, NextBoundary(w, from),
      LimitsWith(w, limit))
  }

  lemma SecondBurstFits(w: Window, prefix: string, from: Time, limit: nat, other: Window)
    ensures var limits := LimitsWith(w, limit);
            var first, bucket := Burst([], prefix, limit, from, limits), Bucket(other, NextBoundary(w, from));
            Seen(first, other, prefix, bucket) + limit <= LimitOf(limits, other)
  {
    BoundaryIsNext(w, from);
    hide Bucket, Burst, NextBoundary;
    BurstIsSeen([], prefix, limit, from, LimitsWith(w, limit), other, Bucket(other, NextBoundary(w, from)));
  }

  lemma TwoBurstsAreFaithful(w: Window, prefix: string, from: Time, limit: nat)
    ensures Faithful(TwoBursts(w, prefix, from, limit))
  {
    var limits := LimitsWith(w, limit);
    assert Faithful([])
      && forall other: Window :: Seen([], other, prefix, Bucket(other, from)) + limit <= LimitOf(limits, other);
    hide Bucket, Seen, LimitOf, LimitsWith, Burst, Faithful, NextBoundary;
    BurstIsFaithful([], prefix, limit, from, limits);
    forall other: Window
      ensures Seen(Burst([], prefix, limit, from, limits), other, prefix, Bucket(other, NextBoundary(w, from)))
              + limit <= LimitOf(limits, other)
    {
      SecondBurstFits(w, prefix, from, limit, other);
    }
    BurstIsFaithful(Burst([], prefix, limit, from, limits), prefix, limit, NextBoundary(w, from), limits);
  }

  lemma TwoBurstsArePlausible(w: Window, prefix: string, from: Time, limit: nat)
    ensures Plausible(TwoBursts(w, prefix, from, limit))
            && WithLimit(TwoBursts(w, prefix, from, limit), w, prefix, limit)
  {
    TwoBurstsAreFaithful(w, prefix, from, limit);
    BoundaryIsNext(w, from);
    hide Bucket, Burst, Faithful, NextBoundary;
    var limits := LimitsWith(w, limit);
    var first := Burst([], prefix, limit, from, limits);
    BurstIsOrdered([], prefix, limit, from, limits);
    BurstIsOrdered(first, prefix, limit, NextBoundary(w, from), limits);
    BurstHasLimits([], prefix, limit, from, limits);
    BurstHasLimits(first, prefix, limit, NextBoundary(w, from), limits);
  }

  /** From every start that is not a boundary of the clock, and for every caller and limit, twice the limit can pass. */
  lemma TwiceTheLimitIsReached(w: Window, prefix: string, from: Time, limit: nat)
    requires !Aligned(w, from)
    ensures exists log :: Plausible(log) && WithLimit(log, w, prefix, limit)
                          && PassedBetween(log, prefix, from, from + Seconds(w) as real) == 2 * limit
  {
    TwoBurstsArePlausible(w, prefix, from, limit);
    BoundaryIsNext(w, from);
    assert PassedBetween([], prefix, from, from + Seconds(w) as real) == 0;
    hide Bucket, Burst, NextBoundary, PassedBetween, Plausible, WithLimit;
    var limits, until := LimitsWith(w, limit), from + Seconds(w) as real;
    BurstPasses([], prefix, limit, from, limits, from, until);
    BurstPasses(Burst([], prefix, limit, from, limits), prefix, limit, NextBoundary(w, from), limits, from, until);
    hide LimitsWith;
    assert PassedBetween(TwoBursts(w, prefix, from, limit), prefix, from, until) == 2 * limit;
  }

  /** The limit holds over a sliding window in every run exactly when the window is the clock's, or it is zero. */
  lemma SlidingLimitHoldsIff(w: Window, prefix: string, from: Time, limit: nat)
    ensures (forall log :: Plausible(log) && WithLimit(log, w, prefix, limit) ==>
               PassedBetween(log, prefix, from, from + Seconds(w) as real) <= limit)
       <==> Aligned(w, from) || limit == 0
  {
    hide Bucket, PassedBetween, Aligned, Passed, Faithful;
    if Aligned(w, from) || limit == 0 {
      forall log | Plausible(log) && WithLimit(log, w, prefix, limit)
        ensures PassedBetween(log, prefix, from, from + Seconds(w) as real) <= limit
      {
        if Aligned(w, from) {
          AlignedMeetsOneBucket(log, w, prefix, from);
          AtMostLimitPerBucket(log, w, prefix, Bucket(w, from), limit);
        } else {
          AtMostTwiceInAnyWindow(log, w, prefix, from, limit);
        }
      }
    } else {
      hide Plausible, WithLimit;
      TwiceTheLimitIsReached(w, prefix, from, limit);
    }
  }

  // ----- The cache mirrors the counts -----

  predicate ExactAt(entries: Store<string, int>, log: seq<Check>, prefix: string, w: Window, now: Time) {
    Get(entries, Key(prefix, w, Bucket(w, now)), now, 0) == Seen(log, w, prefix, Bucket(w, now))
  }

  ghost predicate Exact(entries: Store<string, int>, log: seq<Check>, clock: Time) {
    forall prefix, w: Window, now: Time :: clock <= now ==> ExactAt(entries, log, prefix, w, now)
  }

  /** The cache after counting a check in the first `n` windows. */
  function Counted(entries: Store<string, int>, prefix: string, now: Time, n: nat): Store<string, int>
    requires n <= 3
  {
    if n == 0 then entries
    else
      var before := Counted(entries, prefix, now, n - 1);
      var w := WINDOWS[n - 1];
      var k := Key(prefix, w, Bucket(w, now));
      Put(before, k, Get(before, k, now, 0) + 1, now, Seconds(w))
  }

  /** Counting touches the three current keys of the client and nothing else. */
  lemma {:induction false} CountedElsewhere(entries: Store<string, int>, prefix: string, now: Time, n: nat,
      p: string, w: Window, b: nat)
    requires n <= 3
    requires forall i :: 0 <= i < n ==> !(p == prefix && w == WINDOWS[i] && b == Bucket(w, now))
    ensures var k := Key(p, w, b); var after := Counted(entries, prefix, now, n);
            (k in after <==> k in entries) && (k in entries ==> after[k] == entries[k])
  {
    hide Key, Bucket;
    if n > 0 {
      CountedElsewhere(entries, prefix, now, n - 1, p, w, b);
      var v := WINDOWS[n - 1];
      if Key(p, w, b) == Key(prefix, v, Bucket(v, now)) {
        KeyDeterminesBucket(p, w, b, prefix, v, Bucket(v, now));
        assert false;
      }
    }
  }

  lemma CountedHere(entries: Store<string, int>, prefix: string, now: Time, w: Window)
    ensures var k := Key(prefix, w, Bucket(w, now)); var after := Counted(entries, prefix, now, 3);
            k in after && after[k] == Entry(Get(entries, k, now, 0) + 1, now + Seconds(w) as real)
  {
    hide Key, Bucket;
    var i := if w == Minute then 0 else if w == Hour then 1 else 2;
    var b := Bucket(w, now);
    CountedElsewhere(entries, prefix, now, i, prefix, w, b);
    var c1 := Counted(entries, prefix, now, i + 1);
    if i == 0 {
      CountedStep(c1, entries, prefix, now, 1, w);
      CountedStep(Counted(entries, prefix, now, 2), entries, prefix, now, 2, w);
    } else if i == 1 {
      CountedStep(c1, entries, prefix, now, 2, w);
    }
  }

  lemma CountedStep(before: Store<string, int>, entries: Store<string, int>, prefix: string, now: Time, n: nat,
      w: Window)
    requires n <= 2 && before == Counted(entries, prefix, now, n) && w != WINDOWS[n]
    ensures var k := Key(prefix, w, Bucket(w, now)); var after := Counted(entries, prefix, now, n + 1);
            (k in after <==> k in before) && (k in before ==> after[k] == before[k])
  {
    hide Key, Bucket;
    var v := WINDOWS[n];
    if Key(prefix, w, Bucket(w, now)) == Key(prefix, v, Bucket(v, now)) {
      KeyDeterminesBucket(prefix, w, Bucket(w, now), prefix, v, Bucket(v, now));
      assert false;
    }
  }

  lemma CheckKeepsExact(entries: Store<string, int>, log: seq<Check>, clock: Time, c: Check)
    requires Exact(entries, log, clock) && clock <= c.at
    ensures Exact(Counted(entries, c.prefix, c.at, 3), log + [c], c.at)
  {
    hide Key, Bucket, Counted;
    var after := Counted(entries, c.prefix, c.at, 3);
    assert (log + [c])[..|log|] == log;
    forall p, w: Window, t: Time | c.at <= t ensures ExactAt(after, log + [c], p, w, t) {
      var b := Bucket(w, t);
      if p == c.prefix && b == Bucket(w, c.at) {
        assert ExactAt(entries, log, p, w, c.at);
        CountedHere(entries, p, c.at, w);
        SameBucketIsWithinWindow(w, c.at, t);
      } else {
        assert ExactAt(entries, log, p, w, t);
        CountedElsewhere(entries, c.prefix, c.at, 3, p, w, b);
      }
    }
  }

  // ----- The limiter -----

  class Limiter {
    const cache: Cache<string, int>
    ghost var clock: Time
    ghost var log: seq<Check>

    constructor (now: Time)
      ensures Valid() && fresh(cache) && log == [] && clock == now
    {
      cache := new Cache();
      clock, log := now, [];
    }

    ghost predicate Valid()
      reads this, cache
    {
      Plausible(log) && (forall i :: 0 <= i < |log| ==> log[i].at <= clock) && Exact(cache.entries, log, clock)
    }

    /** Reads, judges and increments the counters of the three windows in turn. */
    method CountWindows(prefix: string, limits: Limits, now: Time) returns (allowed: bool, remaining: map<Window, int>)
      requires Exact(cache.entries, log, now)
      modifies cache
      ensures cache.entries == Counted(old(cache.entries), prefix, now, 3)
      ensures allowed <==> WithinLimits(log, prefix, now, limits)
      ensures remaining.Keys == {Minute, Hour, Day}
      ensures forall w :: w in remaining ==> remaining[w] == Left(log, prefix, now, limits, w)
    {
      hide Key, Bucket, Counted, Exact, Seen;
      ghost var entries := cache.entries;
      allowed, remaining := true, map[];
      assert Counted(entries, prefix, now, 0) == entries by { CountedNothing(entries, prefix, now); }
      for i := 0 to 3
        modifies cache
        invariant cache.entries == Counted(entries, prefix, now, i)
        invariant allowed <==> forall j :: 0 <= j < i ==>
                  Seen(log, WINDOWS[j], prefix, Bucket(WINDOWS[j], now)) < LimitOf(limits, WINDOWS[j])
        invariant remaining.Keys == set j | 0 <= j < i :: WINDOWS[j]
        invariant forall w :: w in remaining ==>
                    remaining[w] == Left(log, prefix, now, limits, w)
      {
        var w := WINDOWS[i];
        var key := Key(prefix, w, Bucket(w, now));
        var count := cache.Lookup(key, now, 0);
        ReadExact(entries, log, now, prefix, w);
        CountedElsewhere(entries, prefix, now, i, prefix, w, Bucket(w, now));
        if count >= LimitOf(limits, w) {
          allowed := false;
          remaining := remaining[w := 0];
        } else {
          remaining := remaining[w := LimitOf(limits, w) - count];
        }
        cache.Set(key, count + 1, now, Seconds(w));
        CountedNext(entries, prefix, now, i);
      }
      assert WINDOWS[0] == Minute && WINDOWS[1] == Hour && WINDOWS[2] == Day;
    }

    /** `remaining` is empty when the strategy has nobody to limit. */
    method CheckRateLimit(strategy: Strategy, client: Client, endpoint: string, limits: Limits, now: Time)
      returns (allowed: bool, remaining: map<Window, int>)
      requires Valid() && clock <= now
      modifies this`clock, this`log, cache
      ensures Valid() && clock == now
      ensures var id := Identifier(strategy, client, endpoint);
              if id.None? then allowed && remaining == map[] && log == old(log) && cache.entries == old(cache.entries)
              else
                var prefix := Prefix(strategy, id.value, endpoint);
                && log == old(log) + [Check(prefix, now, limits, allowed)]
                && (allowed <==> WithinLimits(old(log), prefix, now, limits))
                && remaining.Keys == {Minute, Hour, Day}
                && forall w :: w in remaining ==>
                     remaining[w] == Left(old(log), prefix, now, limits, w)
    {
      hide Key, Bucket, Counted, Identifier, Prefix, Faithful, Exact, Seen;
      LaterExact(cache.entries, log, clock, now);
      clock := now;
      var id := Identifier(strategy, client, endpoint);
      if id.None? {
        return true, map[];
      }
      var prefix := Prefix(strategy, id.value, endpoint);
      ghost var entries := cache.entries;
      allowed, remaining := CountWindows(prefix, limits, now);
      ghost var c := Check(prefix, now, limits, allowed);
      CheckKeepsExact(entries, log, now, c);
      FaithfulExtends(log, c);
      log := log + [c];
    }
  }

  lemma LaterExact(entries: Store<string, int>, log: seq<Check>, clock: Time, now: Time)
    requires Exact(entries, log, clock) && clock <= now
    ensures Exact(entries, log, now)
  {
    hide Key, Bucket;
  }

  lemma ReadExact(entries: Store<string, int>, log: seq<Check>, now: Time, prefix: string, w: Window)
    requires Exact(entries, log, now)
    ensures Get(entries, Key(prefix, w, Bucket(w, now)), now, 0) == Seen(log, w, prefix, Bucket(w, now))
  {
    hide Key, Bucket;
    assert ExactAt(entries, log, prefix, w, now);
  }

  lemma CountedNothing(entries: Store<string, int>, prefix: string, now: Time)
    ensures Counted(entries, prefix, now, 0) == entries
  {
  }

  lemma CountedNext(entries: Store<string, int>, prefix: string, now: Time, i: nat)
    requires i < 3
    ensures var before := Counted(entries, prefix, now, i); var w := WINDOWS[i];
            var k := Key(prefix, w, Bucket(w, now));
            Counted(entries, prefix, now, i + 1) == Put(before, k, Get(before, k, now, 0) + 1, now, Seconds(w))
  {
    hide Key, Bucket;
  }
}
