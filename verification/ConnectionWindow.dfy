/**
 The per-connection message limit: a counter that restarts when more than a minute has passed since its window
 began.
 */
module ConnectionWindow {
  import opened Basics

  const MAX_MESSAGES_PER_MINUTE := 100
  const WINDOW := 60.0

  /** An admitted message and the number of the window it was counted in. */
  datatype Admission = Admission(at: Time, epoch: nat)

  function CountEpoch(log: seq<Admission>, epoch: nat): nat {
    if log == [] then 0 else CountEpoch(log[..|log| - 1], epoch) + if log[|log| - 1].epoch == epoch then 1 else 0
  }

  /** Messages admitted in the closed interval from `from` to `until`. */
  function CountBetween(log: seq<Admission>, from: real, until: real): nat {
    if log == [] then 0
    else CountBetween(log[..|log| - 1], from, until) + if from <= log[|log| - 1].at <= until then 1 else 0
  }

  /** Windows follow each other, and a message two windows after another came more than a minute later. */
  predicate WellSpaced(log: seq<Admission>) {
    forall i, j :: 0 <= i <= j < |log| ==>
      log[i].at <= log[j].at && log[i].epoch <= log[j].epoch
        && (log[i].epoch + 2 <= log[j].epoch ==> log[i].at + WINDOW < log[j].at)
  }

  ghost predicate WindowsLimited(log: seq<Admission>) {
    forall epoch :: 0 <= epoch ==> CountEpoch(log, epoch) <= MAX_MESSAGES_PER_MINUTE
  }

  lemma {:induction false} IntervalMeetsTwoWindows(log: seq<Admission>, from: real, epoch: nat)
    requires forall i :: 0 <= i < |log| && from <= log[i].at <= from + WINDOW ==> epoch <= log[i].epoch <= epoch + 1
    ensures CountBetween(log, from, from + WINDOW) <= CountEpoch(log, epoch) + CountEpoch(log, epoch + 1)
  {
    if log != [] {
      var front := log[..|log| - 1];
      IntervalMeetsTwoWindows(front, from, epoch);
      assert log[|log| - 1].at == log[|log| - 1].at;
    }
  }

  /** The first admission inside the interval, given that there is one. */
  ghost function FirstInside(log: seq<Admission>, from: real, k: nat): (i: nat)
    requires k < |log| && from <= log[k].at <= from + WINDOW
    ensures i <= k && from <= log[i].at <= from + WINDOW
    ensures forall j :: 0 <= j < i ==> !(from <= log[j].at <= from + WINDOW)
  {
    if earlier: nat :| earlier < k && from <= log[earlier].at <= from + WINDOW
    then FirstInside(log, from, earlier)
    else k
  }

  /** Any minute, ends included, admits at most two windows' worth of messages. */
  lemma AtMostTwiceInAnyMinute(log: seq<Admission>, from: real)
    requires WellSpaced(log) && WindowsLimited(log)
    ensures CountBetween(log, from, from + WINDOW) <= 2 * MAX_MESSAGES_PER_MINUTE
  {
    if k: nat :| k < |log| && from <= log[k].at <= from + WINDOW {
      var first := FirstInside(log, from, k);
      var epoch := log[first].epoch;
      forall i | 0 <= i < |log| && from <= log[i].at <= from + WINDOW
        ensures epoch <= log[i].epoch <= epoch + 1
      {
        assert first <= i;
      }
      IntervalMeetsTwoWindows(log, from, epoch);
    } else {
      IntervalMeetsTwoWindows(log, from, 0);
    }
  }

  lemma {:induction false} UnusedEpochIsEmpty(log: seq<Admission>, epoch: nat)
    requires forall i :: 0 <= i < |log| ==> log[i].epoch < epoch
    ensures CountEpoch(log, epoch) == 0
  {
    if log != [] {
      UnusedEpochIsEmpty(log[..|log| - 1], epoch);
    }
  }

  /** Where the recorded admissions stand relative to the window that began at `start`. */
  predicate Placed(log: seq<Admission>, epoch: nat, start: Time, clock: Time) {
    && start <= clock
    && (forall i :: 0 <= i < |log| ==>
          && log[i].epoch <= epoch && log[i].at <= clock
          && (log[i].epoch < epoch ==> log[i].at <= start)
          && (log[i].epoch + 2 <= epoch ==> log[i].at + WINDOW < start))
  }

  lemma CountExtends(log: seq<Admission>, a: Admission, epoch: nat)
    ensures CountEpoch(log + [a], epoch) == CountEpoch(log, epoch) + if a.epoch == epoch then 1 else 0
  {
    assert (log + [a])[..|log|] == log;
  }

  lemma AdmissionKeepsWindowsLimited(log: seq<Admission>, a: Admission)
    requires WindowsLimited(log) && CountEpoch(log, a.epoch) < MAX_MESSAGES_PER_MINUTE
    ensures WindowsLimited(log + [a])
  {
    hide CountEpoch;
    forall epoch | 0 <= epoch ensures CountEpoch(log + [a], epoch) <= MAX_MESSAGES_PER_MINUTE {
      CountExtends(log, a, epoch);
    }
  }

  lemma AdmissionKeepsWellSpaced(log: seq<Admission>, epoch: nat, start: Time, now: Time)
    requires Placed(log, epoch, start, now) && WellSpaced(log)
    ensures WellSpaced(log + [Admission(now, epoch)])
  {
  }

  lemma AdmissionKeepsPlaced(log: seq<Admission>, epoch: nat, start: Time, now: Time)
    requires Placed(log, epoch, start, now)
    ensures Placed(log + [Admission(now, epoch)], epoch, start, now)
  {
  }

  lemma AdmissionKeepsLimits(log: seq<Admission>, epoch: nat, start: Time, now: Time)
    requires Placed(log, epoch, start, now) && WellSpaced(log) && WindowsLimited(log)
    requires CountEpoch(log, epoch) < MAX_MESSAGES_PER_MINUTE
    ensures var log' := log + [Admission(now, epoch)];
            && WellSpaced(log') && WindowsLimited(log') && Placed(log', epoch, start, now)
            && CountEpoch(log', epoch) == CountEpoch(log, epoch) + 1
  {
    hide WellSpaced, WindowsLimited, CountEpoch, Placed;
    CountExtends(log, Admission(now, epoch), epoch);
    AdmissionKeepsWindowsLimited(log, Admission(now, epoch));
    AdmissionKeepsWellSpaced(log, epoch, start, now);
    AdmissionKeepsPlaced(log, epoch, start, now);
  }

  // ----- Runs -----

  /** The fields of a connection, with the number of its window and what it admitted. */
  datatype Window = Window(count: nat, start: Time, epoch: nat, log: seq<Admission>)

  function Checked(w: Window, now: Time): Window {
    var current := if now - w.start > WINDOW then Window(0, now, w.epoch + 1, w.log) else w;
    if current.count < MAX_MESSAGES_PER_MINUTE
    then current.(count := current.count + 1, log := current.log + [Admission(now, current.epoch)])
    else current
  }

  /** `n` checks at one moment. */
  function Burst(w: Window, now: Time, n: nat): Window {
    if n == 0 then w else Checked(Burst(w, now, n - 1), now)
  }

  lemma CountBetweenExtends(log: seq<Admission>, a: Admission, from: real, until: real)
    ensures CountBetween(log + [a], from, until) ==
            CountBetween(log, from, until) + if from <= a.at <= until then 1 else 0
  {
    assert (log + [a])[..|log|] == log;
  }

  /** A burst within an open window is admitted as far as the window has room. */
  lemma {:induction false} BurstIsAdmitted(w: Window, now: Time, n: nat, from: real, until: real)
    requires now - w.start <= WINDOW && w.count + n <= MAX_MESSAGES_PER_MINUTE && from <= now <= until
    ensures var b := Burst(w, now, n);
            && b.start == w.start && b.count == w.count + n
            && CountBetween(b.log, from, until) == CountBetween(w.log, from, until) + n
  {
    if n > 0 {
      BurstIsAdmitted(w, now, n - 1, from, until);
      var b := Burst(w, now, n - 1);
      hide CountBetween, Burst;
      CountBetweenExtends(b.log, Admission(now, b.epoch), from, until);
    }
  }

  /** The first message after a window has ended opens the next one. */
  lemma NewWindowAdmits(w: Window, now: Time, from: real, until: real)
    requires now - w.start > WINDOW && from <= now <= until
    ensures var b := Checked(w, now);
            b.start == now && b.count == 1 && CountBetween(b.log, from, until) == CountBetween(w.log, from, until) + 1
  {
    hide CountBetween;
    CountBetweenExtends(w.log, Admission(now, w.epoch + 1), from, until);
  }

  /**
   Two hundred is reached: a hundred messages a minute after the connection opened and a hundred at any moment of
   the minute that follows.
   */
  lemma TwoHundredInAMinute(start: Time, later: Time)
    requires start + WINDOW < later <= start + 2.0 * WINDOW
    ensures var first := Burst(Window(0, start, 0, []), start + WINDOW, MAX_MESSAGES_PER_MINUTE);
            var both := Burst(Checked(first, later), later, MAX_MESSAGES_PER_MINUTE - 1);
            CountBetween(both.log, start + WINDOW, start + WINDOW + WINDOW) == 2 * MAX_MESSAGES_PER_MINUTE
  {
    var from, until := start + WINDOW, start + WINDOW + WINDOW;
    assert CountBetween([], from, until) == 0;
    hide Burst, Checked, CountBetween;
    BurstIsAdmitted(Window(0, start, 0, []), from, MAX_MESSAGES_PER_MINUTE, from, until);
    var first := Burst(Window(0, start, 0, []), from, MAX_MESSAGES_PER_MINUTE);
    NewWindowAdmits(first, later, from, until);
    BurstIsAdmitted(Checked(first, later), later, MAX_MESSAGES_PER_MINUTE - 1, from, until);
  }

  class Connection {
    var messageCount: nat
    var messageWindowStart: Time
    ghost var epoch: nat
    ghost var clock: Time
    ghost var log: seq<Admission>

    constructor (now: Time)
      ensures Valid() && Now() == Window(0, now, 0, []) && clock == now
    {
      messageCount, messageWindowStart := 0, now;
      epoch, clock, log := 0, now, [];
    }

    ghost function Now(): Window
      reads this
    {
      Window(messageCount, messageWindowStart, epoch, log)
    }

    ghost predicate Valid()
      reads this
    {
      && messageCount == CountEpoch(log, epoch)
      && Placed(log, epoch, messageWindowStart, clock)
      && WellSpaced(log) && WindowsLimited(log)
    }

    /** A window ends only when more than a minute separates a check from its start. */
    method CheckMessageRateLimit(now: Time) returns (ok: bool)
      requires Valid() && clock <= now
      modifies this
      ensures Valid() && clock == now && Now() == Checked(old(Now()), now)
      ensures if now - old(messageWindowStart) > WINDOW then messageWindowStart == now && epoch == old(epoch) + 1
              else messageWindowStart == old(messageWindowStart) && epoch == old(epoch)
      ensures ok <==> CountEpoch(old(log), epoch) < MAX_MESSAGES_PER_MINUTE
      ensures log == if ok then old(log) + [Admission(now, epoch)] else old(log)
    {
      hide WellSpaced, WindowsLimited, CountEpoch;
      clock := now;
      if now - messageWindowStart > WINDOW {
        epoch := epoch + 1;
        messageCount, messageWindowStart := 0, now;
        UnusedEpochIsEmpty(log, epoch);
      }
      ok := messageCount < MAX_MESSAGES_PER_MINUTE;
      if ok {
        messageCount := messageCount + 1;
        AdmissionKeepsLimits(log, epoch, messageWindowStart, now);
        log := log + [Admission(now, epoch)];
      }
    }

    /** In every reachable state any minute, ends included, holds at most two windows' worth of admitted messages. */
    lemma NeverMoreThanTwoWindowsPerMinute(from: real)
      requires Valid()
      ensures CountBetween(log, from, from + WINDOW) <= 2 * MAX_MESSAGES_PER_MINUTE
    {
      AtMostTwiceInAnyMinute(log, from);
    }
  }
}
