/**
 Validation of signed screen messages: signature, timestamp tolerance, one-use nonces remembered for a
 limited time, and a per-screen rate limit, in that order.
 */
module ScreenSecurity {
  import opened Basics
  import opened TtlCache
  import opened SlidingCounter

  const TIMESTAMP_TOLERANCE := 300
  const NONCE_CACHE_TIMEOUT := 3600
  const RATE_LIMIT_COMMANDS_PER_MINUTE := 60
  const RATE_WINDOW := 60

  /** A timestamp as the JSON decoder yields it. Comparisons with NaN are false, so it is never too far away. */
  datatype Stamp = Number(seconds: real) | NotANumber

  datatype Message = Message(screen: string, payload: string, timestamp: Stamp, nonce: string)

  datatype Verdict = Accepted | InvalidSignature | TimestampExpired | ReplayAttack | RateLimited

  datatype Key = NonceKey(screen: string, nonce: string) | RateKey(screen: string)

  /**
   A nonce that was spent at `at`, with what its message's signature was worth. The message was accepted unless the
   rate limit then stopped it.
   */
  datatype Use = Use(screen: string, nonce: string, timestamp: Stamp, at: Time, accepted: bool, signed: bool)

  function Distance(x: real, y: real): real {
    if x <= y then y - x else x - y
  }

  predicate TooFar(timestamp: Stamp, now: real, tolerance: int) {
    timestamp.Number? && Distance(now, timestamp.seconds) > tolerance as real
  }

  /** The nonce was spent within the last `timeout` seconds. */
  predicate Remembered(uses: seq<Use>, screen: string, nonce: string, now: real, timeout: int) {
    exists i :: 0 <= i < |uses| && uses[i].screen == screen && uses[i].nonce == nonce
      && now < uses[i].at + timeout as real
  }

  /** Times at which messages of the screen were accepted. */
  function AcceptedTimes(uses: seq<Use>, screen: string): History {
    if uses == [] then []
    else
      var u := uses[|uses| - 1];
      AcceptedTimes(uses[..|uses| - 1], screen) + if u.accepted && u.screen == screen then [u.at] else []
  }

  /** What validation decides, in terms of the messages seen so far. */
  function Judge(uses: seq<Use>, signed: bool, m: Message, now: Time): Verdict {
    if !signed then InvalidSignature
    else if TooFar(m.timestamp, now, TIMESTAMP_TOLERANCE) then TimestampExpired
    else if Remembered(uses, m.screen, m.nonce, now, NONCE_CACHE_TIMEOUT) then ReplayAttack
    else if Chain(AcceptedTimes(uses, m.screen), now, RATE_WINDOW) >= RATE_LIMIT_COMMANDS_PER_MINUTE then RateLimited
    else Accepted
  }

  /**
   A message is accepted exactly when it is signed, its timestamp is within three hundred seconds or no number, its
   nonce was not spent on that screen within the last hour, and fewer than sixty acceptances are chained.
   */
  lemma AcceptedIff(uses: seq<Use>, signed: bool, m: Message, now: Time)
    ensures Judge(uses, signed, m, now) == Accepted
       <==> && signed
            && (m.timestamp.Number? ==> now - 300.0 <= m.timestamp.seconds <= now + 300.0)
            && (forall u :: u in uses && u.screen == m.screen && u.nonce == m.nonce ==> u.at + 3600.0 <= now)
            && Chain(AcceptedTimes(uses, m.screen), now, 60) < 60
  {
    hide AcceptedTimes, Chain;
    if Remembered(uses, m.screen, m.nonce, now, NONCE_CACHE_TIMEOUT) {
      var i :| 0 <= i < |uses| && uses[i].screen == m.screen && uses[i].nonce == m.nonce
               && now < uses[i].at + NONCE_CACHE_TIMEOUT as real;
      assert uses[i] in uses;
    }
  }

  /** Why a message is refused: the first of the four conditions that fails, in this order. */
  lemma RefusedIff(uses: seq<Use>, signed: bool, m: Message, now: Time)
    ensures var late := m.timestamp.Number?
                        && (m.timestamp.seconds < now - 300.0 || now + 300.0 < m.timestamp.seconds);
            var spent := exists u :: u in uses && u.screen == m.screen && u.nonce == m.nonce && now < u.at + 3600.0;
            var verdict := Judge(uses, signed, m, now);
            && (verdict == InvalidSignature <==> !signed)
            && (verdict == TimestampExpired <==> signed && late)
            && (verdict == ReplayAttack <==> signed && !late && spent)
            && (verdict == RateLimited ==> signed && !late && !spent)
  {
    AcceptedIff(uses, signed, m, now);
    hide AcceptedTimes, Chain;
    if Remembered(uses, m.screen, m.nonce, now, NONCE_CACHE_TIMEOUT) {
      var i :| 0 <= i < |uses| && uses[i].screen == m.screen && uses[i].nonce == m.nonce
               && now < uses[i].at + NONCE_CACHE_TIMEOUT as real;
      assert uses[i] in uses;
    }
  }

  // ----- Histories that validation can produce -----

  /** Each nonce was spent within the tolerance of its timestamp, and not while still remembered. */
  predicate Disciplined(uses: seq<Use>, tolerance: int, timeout: int) {
    && (forall i, j :: 0 <= i <= j < |uses| ==> uses[i].at <= uses[j].at)
    && (forall i :: 0 <= i < |uses| ==> !TooFar(uses[i].timestamp, uses[i].at, tolerance))
    && (forall i, j :: 0 <= i < j < |uses| && uses[i].screen == uses[j].screen && uses[i].nonce == uses[j].nonce ==>
          uses[i].at + timeout as real <= uses[j].at)
  }

  predicate IsReplay(u: Use, v: Use) {
    u.screen == v.screen && u.nonce == v.nonce && u.timestamp == v.timestamp
  }

  /** No message was repeated, unless its timestamp is no number. */
  predicate ReplayFree(uses: seq<Use>) {
    forall i, j :: 0 <= i < j < |uses| && IsReplay(uses[i], uses[j]) ==> uses[i].timestamp.NotANumber?
  }

  lemma DisciplinedIsReplayFree(uses: seq<Use>, tolerance: int, timeout: int)
    requires Disciplined(uses, tolerance, timeout) && 2 * tolerance < timeout
    ensures ReplayFree(uses)
  {
  }

  /**
   With these two settings replays of numbered timestamps are impossible in every history exactly when twice the
   tolerance is below the timeout.
   */
  lemma ReplayFreeIff(tolerance: nat, timeout: int)
    ensures (forall uses :: Disciplined(uses, tolerance, timeout) ==> ReplayFree(uses)) <==> 2 * tolerance < timeout
  {
    if 2 * tolerance < timeout {
      forall uses | Disciplined(uses, tolerance, timeout) ensures ReplayFree(uses) {
        DisciplinedIsReplayFree(uses, tolerance, timeout);
      }
    } else {
      var t := tolerance as real;
      var uses := [Use("s", "n", Number(t), 0.0, true, true), Use("s", "n", Number(t), 2.0 * t, true, true)];
      assert Disciplined(uses, tolerance, timeout);
      assert IsReplay(uses[0], uses[1]);
      assert !ReplayFree(uses);
    }
  }

  /** A message whose timestamp is NaN is accepted again as soon as its nonce is forgotten. */
  lemma NaNIsReplayed(m: Message, first: Time, second: Time)
    requires m.timestamp.NotANumber?
    ensures Judge([], true, m, first) == Accepted
    ensures var once := [Use(m.screen, m.nonce, m.timestamp, first, true, true)];
            Judge(once, true, m, second) == Accepted <==> first + NONCE_CACHE_TIMEOUT as real <= second
  {
    OneUse(Use(m.screen, m.nonce, m.timestamp, first, true, true), second);
    NoUse(m, first);
    hide Remembered, AcceptedTimes, Chain;
  }

  lemma NoUse(m: Message, now: Time)
    ensures !Remembered([], m.screen, m.nonce, now, NONCE_CACHE_TIMEOUT)
    ensures Chain(AcceptedTimes([], m.screen), now, RATE_WINDOW) == 0
  {
  }

  lemma OneUse(u: Use, now: Time)
    requires u.accepted
    ensures Remembered([u], u.screen, u.nonce, now, NONCE_CACHE_TIMEOUT) <==> now < u.at + NONCE_CACHE_TIMEOUT as real
    ensures Chain(AcceptedTimes([u], u.screen), now, RATE_WINDOW) <= 1
  {
    assert [u][0] == u && [u][..0] == [];
    assert AcceptedTimes([u], u.screen) == [u.at];
    hide AcceptedTimes, Remembered;
    assert Front([u.at]) == [];
  }

  predicate RateLimitedPerScreen(uses: seq<Use>) {
    forall i :: 0 <= i < |uses| && uses[i].accepted ==>
      Chain(AcceptedTimes(uses[..i], uses[i].screen), uses[i].at, RATE_WINDOW) < RATE_LIMIT_COMMANDS_PER_MINUTE
  }

  lemma FrontIsRateLimited(uses: seq<Use>)
    requires uses != [] && RateLimitedPerScreen(uses)
    ensures var front, u := uses[..|uses| - 1], uses[|uses| - 1];
            RateLimitedPerScreen(front)
            && (u.accepted ==>
               Chain(AcceptedTimes(front, u.screen), u.at, RATE_WINDOW) < RATE_LIMIT_COMMANDS_PER_MINUTE)
  {
    var front := uses[..|uses| - 1];
    forall i | 0 <= i < |front| ensures front[..i] == uses[..i] {
    }
  }

  lemma RateLimitedExtends(uses: seq<Use>, u: Use)
    requires RateLimitedPerScreen(uses)
    requires u.accepted ==> Chain(AcceptedTimes(uses, u.screen), u.at, RATE_WINDOW) < RATE_LIMIT_COMMANDS_PER_MINUTE
    ensures RateLimitedPerScreen(uses + [u])
  {
    var uses' := uses + [u];
    assert uses'[..|uses|] == uses;
    forall i | 0 <= i < |uses| ensures uses'[..i] == uses[..i] {
    }
  }

  // ----- The cache mirrors the history -----

  ghost predicate NoncesExact(entries: Store<Key, int>, uses: seq<Use>, clock: real) {
    forall screen, nonce, now: real {:trigger Live(entries, NonceKey(screen, nonce), now)} :: clock <= now ==>
      (Live(entries, NonceKey(screen, nonce), now) <==> Remembered(uses, screen, nonce, now, NONCE_CACHE_TIMEOUT))
  }

  ghost predicate RatesExact(entries: Store<Key, int>, uses: seq<Use>, clock: real) {
    forall screen {:trigger RateKey(screen)} ::
      Reflects(entries, RateKey(screen), AcceptedTimes(uses, screen), RATE_WINDOW, clock)
  }

  lemma RememberedExtends(uses: seq<Use>, u: Use, screen: string, nonce: string, now: real, timeout: int)
    ensures Remembered(uses + [u], screen, nonce, now, timeout)
       <==> Remembered(uses, screen, nonce, now, timeout)
            || (u.screen == screen && u.nonce == nonce && now < u.at + timeout as real)
  {
    var uses' := uses + [u];
    assert uses'[|uses|] == u;
    forall i | 0 <= i < |uses| ensures uses'[i] == uses[i] {
    }
  }

  lemma SpendingKeepsNonces(entries: Store<Key, int>, uses: seq<Use>, clock: Time, now: Time, u: Use)
    requires NoncesExact(entries, uses, clock) && clock <= now == u.at
    requires !Remembered(uses, u.screen, u.nonce, now, NONCE_CACHE_TIMEOUT)
    ensures NoncesExact(Put(entries, NonceKey(u.screen, u.nonce), 1, now, NONCE_CACHE_TIMEOUT), uses + [u], now)
  {
    var entries' := Put(entries, NonceKey(u.screen, u.nonce), 1, now, NONCE_CACHE_TIMEOUT);
    forall screen, nonce, t: real | now <= t
      ensures Live(entries', NonceKey(screen, nonce), t) <==>
              Remembered(uses + [u], screen, nonce, t, NONCE_CACHE_TIMEOUT)
    {
      RememberedExtends(uses, u, screen, nonce, t, NONCE_CACHE_TIMEOUT);
      assert Live(entries, NonceKey(screen, nonce), t) <==> Remembered(uses, screen, nonce, t, NONCE_CACHE_TIMEOUT);
    }
  }

  lemma CountingKeepsNonces(entries: Store<Key, int>, uses: seq<Use>, clock: real, screen: string, v: int, now: Time)
    requires NoncesExact(entries, uses, clock)
    ensures NoncesExact(Put(entries, RateKey(screen), v, now, RATE_WINDOW), uses, clock)
  {
    var entries' := Put(entries, RateKey(screen), v, now, RATE_WINDOW);
    forall s, nonce, t: real | clock <= t
      ensures Live(entries', NonceKey(s, nonce), t) <==> Remembered(uses, s, nonce, t, NONCE_CACHE_TIMEOUT)
    {
      assert Live(entries, NonceKey(s, nonce), t) <==> Remembered(uses, s, nonce, t, NONCE_CACHE_TIMEOUT);
    }
  }

  lemma AcceptedTimesExtend(uses: seq<Use>, u: Use, screen: string)
    ensures AcceptedTimes(uses + [u], screen) ==
            AcceptedTimes(uses, screen) + if u.accepted && u.screen == screen then [u.at] else []
  {
    assert (uses + [u])[..|uses|] == uses;
  }

  /** The cache after a nonce was spent, and after the rate counter moved if the message was accepted. */
  function Spent(entries: Store<Key, int>, u: Use): Store<Key, int> {
    Put(entries, NonceKey(u.screen, u.nonce), 1, u.at, NONCE_CACHE_TIMEOUT)
  }

  function Rated(spent: Store<Key, int>, u: Use): Store<Key, int> {
    if u.accepted then Put(spent, RateKey(u.screen), Get(spent, RateKey(u.screen), u.at, 0) + 1, u.at, RATE_WINDOW)
      else spent
  }

  lemma SpendingKeepsRate(entries: Store<Key, int>, uses: seq<Use>, clock: Time, u: Use, screen: string)
    requires Reflects(entries, RateKey(screen), AcceptedTimes(uses, screen), RATE_WINDOW, clock) && clock <= u.at
    ensures Reflects(Spent(entries, u), RateKey(screen), AcceptedTimes(uses, screen), RATE_WINDOW, u.at)
    ensures Get(Spent(entries, u), RateKey(screen), u.at, 0) == Chain(AcceptedTimes(uses, screen), u.at, RATE_WINDOW)
  {
    hide AcceptedTimes, Chain;
    OtherKeysKeepReflecting(entries, RateKey(screen), AcceptedTimes(uses, screen), RATE_WINDOW, clock,
                            NonceKey(u.screen, u.nonce), 1, u.at, NONCE_CACHE_TIMEOUT);
  }

  lemma CountingKeepsRate(spent: Store<Key, int>, uses: seq<Use>, u: Use, screen: string)
    requires Reflects(spent, RateKey(screen), AcceptedTimes(uses, screen), RATE_WINDOW, u.at)
    ensures Reflects(Rated(spent, u), RateKey(screen), AcceptedTimes(uses + [u], screen), RATE_WINDOW, u.at)
  {
    hide AcceptedTimes, Chain, Reflects, Get, Put;
    var h := AcceptedTimes(uses, screen);
    AcceptedTimesExtend(uses, u, screen);
    assert h + [] == h;
    if u.accepted {
      var count := Get(spent, RateKey(u.screen), u.at, 0);
      if screen == u.screen {
        RenewalExtendsChain(spent, RateKey(screen), h, RATE_WINDOW, u.at, u.at);
      } else {
        OtherKeysKeepReflecting(spent, RateKey(screen), h, RATE_WINDOW, u.at, RateKey(u.screen), count + 1, u.at,
          RATE_WINDOW);
      }
    }
  }

  /** After a use: its own counter advanced if it was accepted, every other counter is as before. */
  lemma UseKeepsRates(entries: Store<Key, int>, uses: seq<Use>, clock: Time, u: Use)
    requires RatesExact(entries, uses, clock) && clock <= u.at
    ensures Get(Spent(entries, u), RateKey(u.screen), u.at, 0) ==
            Chain(AcceptedTimes(uses, u.screen), u.at, RATE_WINDOW)
    ensures RatesExact(Rated(Spent(entries, u), u), uses + [u], u.at)
  {
    hide AcceptedTimes, Chain, Reflects, Get, Put, Spent, Rated;
    assert Reflects(entries, RateKey(u.screen), AcceptedTimes(uses, u.screen), RATE_WINDOW, clock);
    SpendingKeepsRate(entries, uses, clock, u, u.screen);
    forall screen
      ensures var rated := Rated(Spent(entries, u), u);
              Reflects(rated, RateKey(screen), AcceptedTimes(uses + [u], screen), RATE_WINDOW, u.at)
    {
      assert Reflects(entries, RateKey(screen), AcceptedTimes(uses, screen), RATE_WINDOW, clock);
      SpendingKeepsRate(entries, uses, clock, u, screen);
      CountingKeepsRate(Spent(entries, u), uses, u, screen);
    }
  }

  lemma {:induction false} AcceptedTimesAreLimited(uses: seq<Use>, screen: string)
    requires forall i, j :: 0 <= i <= j < |uses| ==> uses[i].at <= uses[j].at
    requires RateLimitedPerScreen(uses)
    ensures var h := AcceptedTimes(uses, screen);
            Chronological(h) && Limited(h, RATE_LIMIT_COMMANDS_PER_MINUTE, RATE_WINDOW)
            && (h != [] ==> uses != [] && Last(h) <= uses[|uses| - 1].at)
  {
    if uses != [] {
      hide Chain, Limited, RateLimitedPerScreen, Chronological;
      var n := |uses| - 1;
      var front, u := uses[..n], uses[n];
      FrontIsRateLimited(uses);
      AcceptedTimesAreLimited(front, screen);
      var h := AcceptedTimes(front, screen);
      assert h + [] == h;
      if u.accepted && u.screen == screen {
        ChronologicalExtends(h, u.at);
        LimitedExtends(h, RATE_LIMIT_COMMANDS_PER_MINUTE, RATE_WINDOW, u.at);
      }
    }
  }

  lemma DisciplinedExtends(uses: seq<Use>, u: Use, tolerance: int, timeout: int)
    requires Disciplined(uses, tolerance, timeout)
    requires forall i :: 0 <= i < |uses| ==> uses[i].at <= u.at
    requires !TooFar(u.timestamp, u.at, tolerance) && !Remembered(uses, u.screen, u.nonce, u.at, timeout)
    ensures Disciplined(uses + [u], tolerance, timeout)
  {
  }

  /** The whole cache and history after one more spent nonce. */
  lemma UseKeepsInvariants(entries: Store<Key, int>, uses: seq<Use>, clock: Time, u: Use)
    requires NoncesExact(entries, uses, clock) && RatesExact(entries, uses, clock) && clock <= u.at
    requires !Remembered(uses, u.screen, u.nonce, u.at, NONCE_CACHE_TIMEOUT)
    ensures Get(Spent(entries, u), RateKey(u.screen), u.at, 0) ==
            Chain(AcceptedTimes(uses, u.screen), u.at, RATE_WINDOW)
    ensures NoncesExact(Rated(Spent(entries, u), u), uses + [u], u.at)
            && RatesExact(Rated(Spent(entries, u), u), uses + [u], u.at)
  {
    hide NoncesExact, RatesExact, Remembered, Chain, AcceptedTimes;
    SpendingKeepsNonces(entries, uses, clock, u.at, u);
    UseKeepsRates(entries, uses, clock, u);
    var spent := Spent(entries, u);
    CountingKeepsNonces(spent, uses + [u], u.at, u.screen, Get(spent, RateKey(u.screen), u.at, 0) + 1, u.at);
  }

  lemma LiveIsRemembered(entries: Store<Key, int>, uses: seq<Use>, clock: Time, screen: string, nonce: string,
      now: Time)
    requires NoncesExact(entries, uses, clock) && clock <= now
    ensures Live(entries, NonceKey(screen, nonce), now) <==> Remembered(uses, screen, nonce, now, NONCE_CACHE_TIMEOUT)
  {
  }

  lemma PassingTime(entries: Store<Key, int>, uses: seq<Use>, from: Time, now: Time)
    requires NoncesExact(entries, uses, from) && RatesExact(entries, uses, from) && from <= now
    ensures NoncesExact(entries, uses, now) && RatesExact(entries, uses, now)
  {
    forall screen ensures Reflects(entries, RateKey(screen), AcceptedTimes(uses, screen), RATE_WINDOW, now) {
      assert Reflects(entries, RateKey(screen), AcceptedTimes(uses, screen), RATE_WINDOW, from);
    }
  }

  // ----- The validator -----

  class Security {
    const sign: (string, Message) -> string
    const cache: Cache<Key, int>
    ghost var clock: Time
    ghost var uses: seq<Use>

    constructor (sign: (string, Message) -> string, now: Time)
      ensures Valid() && fresh(cache) && uses == [] && clock == now && this.sign == sign
    {
      this.sign := sign;
      cache := new Cache();
      clock := now;
      uses := [];
      new;
      assert forall screen :: AcceptedTimes(uses, screen) == [];
    }

    /**
     The cache remembers exactly the uses that are recent enough, and the rate counters the accepted times. Every
     nonce was spent by a signed message.
     */
    ghost predicate Valid()
      reads this, cache
    {
      && (forall i :: 0 <= i < |uses| ==> uses[i].at <= clock && uses[i].signed)
      && Disciplined(uses, TIMESTAMP_TOLERANCE, NONCE_CACHE_TIMEOUT)
      && RateLimitedPerScreen(uses)
      && NoncesExact(cache.entries, uses, clock)
      && RatesExact(cache.entries, uses, clock)
    }

    /** Admit while the live counter is below the limit, renewing its timeout. */
    method CheckRateLimit(screen: string, now: Time) returns (ok: bool)
      modifies cache
      ensures var count := Get(old(cache.entries), RateKey(screen), now, 0);
              && (ok <==> count < RATE_LIMIT_COMMANDS_PER_MINUTE)
              && cache.entries == if ok then Put(old(cache.entries), RateKey(screen), count + 1, now, RATE_WINDOW)
                                  else old(cache.entries)
    {
      var count := cache.Lookup(RateKey(screen), now, 0);
      if count >= RATE_LIMIT_COMMANDS_PER_MINUTE {
        return false;
      }
      cache.Set(RateKey(screen), count + 1, now, RATE_WINDOW);
      return true;
    }

    /** A nonce that is still remembered is refused; any other is remembered from now on. */
    method CheckNonce(screen: string, nonce: string, now: Time) returns (ok: bool)
      modifies cache
      ensures ok <==> !Live(old(cache.entries), NonceKey(screen, nonce), now)
      ensures cache.entries == if ok then Put(old(cache.entries), NonceKey(screen, nonce), 1, now, NONCE_CACHE_TIMEOUT)
                               else old(cache.entries)
    {
      if NonceKey(screen, nonce) in cache.entries && now < cache.entries[NonceKey(screen, nonce)].expiresAt {
        return false;
      }
      cache.Set(NonceKey(screen, nonce), 1, now, NONCE_CACHE_TIMEOUT);
      return true;
    }

    method ValidateMessage(secret: string, m: Message, signature: string, now: Time) returns (verdict: Verdict)
      requires Valid() && clock <= now
      modifies this`clock, this`uses, cache
      ensures Valid() && clock == now
      ensures verdict == Judge(old(uses), signature == sign(secret, m), m, now)
      ensures uses == if verdict == Accepted || verdict == RateLimited
                      then old(uses) + [Use(m.screen, m.nonce, m.timestamp, now, verdict == Accepted,
                                            signature == sign(secret, m))]
                      else old(uses)
      ensures verdict != Accepted && verdict != RateLimited ==> cache.entries == old(cache.entries)
      ensures signature != sign(secret, m) ==> verdict == InvalidSignature
    {
      hide Disciplined, RateLimitedPerScreen, NoncesExact, RatesExact, Remembered, Chain, AcceptedTimes;
      ghost var before, entries, earlier := uses, cache.entries, clock;
      assert Live(entries, NonceKey(m.screen, m.nonce), now) <==>
        Remembered(uses, m.screen, m.nonce, now, NONCE_CACHE_TIMEOUT) by {
        LiveIsRemembered(entries, uses, clock, m.screen, m.nonce, now);
      }
      PassingTime(entries, uses, clock, now);
      clock := now;
      if signature != sign(secret, m) {
        verdict := InvalidSignature;
      } else if TooFar(m.timestamp, now, TIMESTAMP_TOLERANCE) {
        verdict := TimestampExpired;
      } else {
        var unused := CheckNonce(m.screen, m.nonce, now);
        if !unused {
          verdict := ReplayAttack;
        } else {
          var ok := CheckRateLimit(m.screen, now);
          verdict := if ok then Accepted else RateLimited;
          ghost var u := Use(m.screen, m.nonce, m.timestamp, now, ok, true);
          UseKeepsInvariants(entries, before, earlier, u);
          DisciplinedExtends(before, u, TIMESTAMP_TOLERANCE, NONCE_CACHE_TIMEOUT);
          RateLimitedExtends(before, u);
          uses := uses + [u];
        }
      }
    }

    /**
     In every reachable state no two spent nonces, so no two accepted messages, share screen, timestamp and nonce,
     unless the timestamp is no number.
     */
    lemma NoReplay()
      requires Valid()
      ensures ReplayFree(uses)
    {
      DisciplinedIsReplayFree(uses, TIMESTAMP_TOLERANCE, NONCE_CACHE_TIMEOUT);
    }

    /**
     In every reachable state every half-open minute holds at most sixty accepted messages of a screen, and every
     minute with both ends at most a hundred and twenty.
     */
    lemma AtMostSixtyPerMinute(screen: string, from: real)
      requires Valid()
      ensures var times := AcceptedTimes(uses, screen);
              && CountIn(times, from, from + RATE_WINDOW as real) <= RATE_LIMIT_COMMANDS_PER_MINUTE
              && CountClosed(times, from, from + RATE_WINDOW as real) <= 2 * RATE_LIMIT_COMMANDS_PER_MINUTE
    {
      AcceptedTimesAreLimited(uses, screen);
      hide Chain, Limited, Chronological, CountIn, CountClosed, AcceptedTimes;
      SlidingWindowBound(AcceptedTimes(uses, screen), RATE_LIMIT_COMMANDS_PER_MINUTE, RATE_WINDOW, from);
      ClosedWindowBound(AcceptedTimes(uses, screen), RATE_LIMIT_COMMANDS_PER_MINUTE, RATE_WINDOW, from);
    }
  }
}
