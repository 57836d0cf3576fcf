/**
 A counter whose cache entry is renewed on every admission: the value still live at a moment is the
 length of the latest chain of admissions with gaps shorter than the timeout.
 */
module SlidingCounter {
  import opened Basics
  import opened TtlCache

  /** Admission times, oldest first. */
  type History = seq<Time>

  predicate Chronological(h: History) {
    forall i, j :: 0 <= i <= j < |h| ==> h[i] <= h[j]
  }

  function Last(h: History): Time
    requires h != []
  {
    h[|h| - 1]
  }

  function Front(h: History): History
    requires h != []
  {
    h[..|h| - 1]
  }

  /** How many admissions are chained up to `now`, each less than `w` after the one before. */
  function Chain(h: History, now: real, w: int): nat {
    if h == [] || now >= Last(h) + w as real then 0 else 1 + Chain(Front(h), Last(h), w)
  }

  /** Each admission was made while fewer than `n` were chained. */
  predicate Limited(h: History, n: int, w: int) {
    forall i :: 0 <= i < |h| ==> Chain(h[..i], h[i], w) < n
  }

  function CountIn(h: History, from: real, until: real): nat {
    if h == [] then 0 else CountIn(Front(h), from, until) + if from <= Last(h) < until then 1 else 0
  }

  /** The cache entry at `k` is the live chain at every moment from `clock` on. */
  ghost predicate Reflects<K>(entries: Store<K, int>, k: K, h: History, w: int, clock: real) {
    forall now: real {:trigger Get(entries, k, now, 0)} :: clock <= now ==> Get(entries, k, now, 0) == Chain(h, now, w)
  }

  /** Storing the read value plus one with the full timeout extends the chain by the new admission. */
  lemma RenewalExtendsChain<K>(entries: Store<K, int>, k: K, h: History, w: int, clock: Time, now: Time)
    requires Reflects(entries, k, h, w, clock) && clock <= now
    ensures Reflects(Put(entries, k, Get(entries, k, now, 0) + 1, now, w), k, h + [now], w, now)
  {
    var h' := h + [now];
    assert Front(h') == h && Last(h') == now;
  }

  /** Writing another key, or letting time pass, leaves the counter exact. */
  lemma OtherKeysKeepReflecting<K>(entries: Store<K, int>, k: K, h: History, w: int, clock: Time, k2: K, v: int,
      now: Time, ttl: int)
    requires Reflects(entries, k, h, w, clock) && clock <= now && k != k2
    ensures Reflects(Put(entries, k2, v, now, ttl), k, h, w, now)
  {
    forall t: real | now <= t ensures Get(Put(entries, k2, v, now, ttl), k, t, 0) == Chain(h, t, w) {
      assert Get(entries, k, t, 0) == Chain(h, t, w);
    }
  }

  lemma ChronologicalExtends(h: History, now: Time)
    requires Chronological(h) && (h == [] || Last(h) <= now)
    ensures Chronological(h + [now])
  {
  }

  lemma LimitedExtends(h: History, n: int, w: int, now: Time)
    requires Limited(h, n, w) && Chain(h, now, w) < n
    ensures Limited(h + [now], n, w)
  {
    var h' := h + [now];
    forall i | 0 <= i < |h'| ensures Chain(h'[..i], h'[i], w) < n {
      assert h'[..i] == h[..i];
      assert h[..|h|] == h;
    }
  }

  lemma {:induction false} NoneBefore(h: History, from: real, until: real)
    requires Chronological(h) && (h != [] ==> Last(h) < from)
    ensures CountIn(h, from, until) == 0
  {
    if h != [] {
      if Front(h) != [] {
        assert Last(Front(h)) <= Last(h);
      }
      NoneBefore(Front(h), from, until);
    }
  }

  /** Admissions inside one window are chained to the last of them. */
  lemma {:induction false} WindowIsChained(h: History, from: real, w: int)
    requires Chronological(h) && h != [] && from <= Last(h) < from + w as real
    ensures CountIn(h, from, from + w as real) <= 1 + Chain(Front(h), Last(h), w)
  {
    var f := Front(h);
    if f != [] {
      assert Last(f) <= Last(h);
      if Last(f) < from {
        NoneBefore(f, from, from + w as real);
      } else {
        WindowIsChained(f, from, w);
      }
    }
  }

  /** Every half-open window as long as the timeout holds at most `n` admissions. */
  lemma {:induction false} SlidingWindowBound(h: History, n: int, w: int, from: real)
    requires Chronological(h) && Limited(h, n, w) && 0 <= n
    ensures CountIn(h, from, from + w as real) <= n
  {
    if h != [] {
      var f := Front(h);
      if from <= Last(h) < from + w as real {
        WindowIsChained(h, from, w);
        assert Chain(h[..|h| - 1], h[|h| - 1], w) < n;
      } else {
        forall i | 0 <= i < |f| ensures Chain(f[..i], f[i], w) < n {
          assert f[..i] == h[..i];
        }
        SlidingWindowBound(f, n, w, from);
      }
    }
  }

  // ----- Windows that include both ends -----

  function CountClosed(h: History, from: real, until: real): nat {
    if h == [] then 0 else CountClosed(Front(h), from, until) + if from <= Last(h) <= until then 1 else 0
  }

  /** A closed window is a half-open one and the first instant of the next. */
  lemma {:induction false} ClosedMeetsTwoWindows(h: History, from: real, w: nat)
    requires w > 0
    ensures CountClosed(h, from, from + w as real)
         <= CountIn(h, from, from + w as real) + CountIn(h, from + w as real, from + w as real + w as real)
  {
    if h != [] {
      ClosedMeetsTwoWindows(Front(h), from, w);
    }
  }

  /** Every window with both ends, as long as the timeout, holds at most twice `n` admissions. */
  lemma ClosedWindowBound(h: History, n: int, w: nat, from: real)
    requires Chronological(h) && Limited(h, n, w) && 0 <= n && w > 0
    ensures CountClosed(h, from, from + w as real) <= 2 * n
  {
    hide Chain, Limited, Chronological, CountIn, CountClosed;
    SlidingWindowBound(h, n, w, from);
    SlidingWindowBound(h, n, w, from + w as real);
    ClosedMeetsTwoWindows(h, from, w);
  }

  /** `h` followed by `k` admissions at `t`. */
  function Burst(h: History, t: Time, k: nat): History {
    if k == 0 then h else Burst(h, t, k - 1) + [t]
  }

  lemma {:induction false} BurstIsChained(h: History, t: Time, k: nat, w: nat)
    requires w > 0 && (h == [] || Last(h) + w as real <= t)
    ensures var b := Burst(h, t, k); Chain(b, t, w) == k && (b == [] || Last(b) <= t)
  {
    if k > 0 {
      BurstIsChained(h, t, k - 1, w);
      var b := Burst(h, t, k - 1);
      assert Front(b + [t]) == b && Last(b + [t]) == t;
    }
  }

  lemma OneMoreIsLimited(b: History, t: Time, n: int, w: nat)
    requires Chronological(b) && Limited(b, n, w) && Chain(b, t, w) < n && (b == [] || Last(b) <= t)
    ensures Chronological(b + [t]) && Limited(b + [t], n, w)
  {
    hide Chain, Limited, Chronological;
    ChronologicalExtends(b, t);
    LimitedExtends(b, n, w, t);
  }

  lemma {:induction false} BurstIsLimited(h: History, t: Time, k: nat, n: int, w: nat)
    requires Chronological(h) && Limited(h, n, w) && w > 0 && k <= n && (h == [] || Last(h) + w as real <= t)
    ensures Chronological(Burst(h, t, k)) && Limited(Burst(h, t, k), n, w)
  {
    hide Chain, Limited, Chronological;
    if k > 0 {
      BurstIsLimited(h, t, k - 1, n, w);
      BurstIsChained(h, t, k - 1, w);
      OneMoreIsLimited(Burst(h, t, k - 1), t, n, w);
    }
  }

  lemma LastOfBurst(h: History, t: Time, k: nat)
    requires k > 0
    ensures Burst(h, t, k) != [] && Last(Burst(h, t, k)) == t
  {
  }

  lemma {:induction false} BurstIsCounted(h: History, t: Time, k: nat, from: real, until: real)
    ensures CountClosed(Burst(h, t, k), from, until) ==
            CountClosed(h, from, until) + if from <= t <= until then k else 0
  {
    if k > 0 {
      BurstIsCounted(h, t, k - 1, from, until);
      var b := Burst(h, t, k - 1);
      assert Front(b + [t]) == b && Last(b + [t]) == t;
    }
  }

  /** A burst of `n` at each end of a window. */
  function TwoBursts(n: nat, w: nat, from: Time): History {
    Burst(Burst([], from, n), from + w as real, n)
  }

  lemma TwoBurstsAreLimited(n: nat, w: nat, from: Time)
    requires w > 0
    ensures Chronological(TwoBursts(n, w, from)) && Limited(TwoBursts(n, w, from), n, w)
  {
    hide Chain, Limited, Chronological;
    Nothing(n, w, from, from);
    BurstIsLimited([], from, n, n, w);
    if n > 0 {
      LastOfBurst([], from, n);
    }
    BurstIsLimited(Burst([], from, n), from + w as real, n, n, w);
  }

  lemma TwoBurstsAreCounted(n: nat, w: nat, from: Time)
    ensures CountClosed(TwoBursts(n, w, from), from, from + w as real) == 2 * n
  {
    hide CountClosed, Burst;
    Nothing(n, w, from, from + w as real);
    BurstIsCounted([], from, n, from, from + w as real);
    BurstIsCounted(Burst([], from, n), from + w as real, n, from, from + w as real);
  }

  /** For every limit and every start, twice the limit is reached when both ends are included. */
  lemma ClosedWindowReachesTwice(n: nat, w: nat, from: Time)
    requires w > 0
    ensures exists h: History :: Chronological(h) && Limited(h, n, w) && CountClosed(h, from, from + w as real) == 2 * n
  {
    hide Chain, Limited, Chronological, CountClosed, TwoBursts;
    TwoBurstsAreLimited(n, w, from);
    TwoBurstsAreCounted(n, w, from);
  }

  lemma Nothing(n: int, w: nat, from: real, until: real)
    ensures Chronological([]) && Limited([], n, w) && CountClosed([], from, until) == 0
  {
  }
}
