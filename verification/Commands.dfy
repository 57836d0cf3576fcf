/**
 The life of one command row: executions, screen reports and retries, all going through a save that
 refuses rows with an invalid payload or a passed expiry.
 */
module Commands {
  import opened Basics

  datatype Kind = Restart | Refresh | ChangeTemplate | DisplayMessage | SyncContent | Custom

  datatype ContentIds = NoIds | IdList | NotAList

  /** What validation looks at in the JSON payload. */
  datatype Payload = Payload(templateId: bool, message: bool, contentIds: ContentIds, otherKeys: bool)

  datatype Status = Pending | Executing | Done | Failed

  datatype Row = Row(kind: Kind, payload: Payload, expireAt: Option<Time>,
                     status: Status, executedAt: Option<Time>, completedAt: Option<Time>, lastAttemptAt: Option<Time>,
                     attemptCount: nat, errorMessage: Option<string>)

  const MAX_RETRIES := 3

  /** How handing the command to the screen ended. */
  datatype Delivery = Delivered | Undelivered | Crashed(message: string)

  datatype Outcome = Succeeded | NotDone | Raised

  // ----- Validation -----

  predicate PayloadOk(kind: Kind, p: Payload) {
    var empty := !p.templateId && !p.message && p.contentIds == NoIds && !p.otherKeys;
    empty || (
      && (kind == ChangeTemplate ==> p.templateId)
      && (kind == DisplayMessage ==> p.message)
      && (kind == SyncContent ==> p.contentIds != NotAList))
  }

  /** `full_clean` passes. */
  predicate Clean(row: Row, now: Time) {
    PayloadOk(row.kind, row.payload) && (row.expireAt.Some? ==> now < row.expireAt.value)
  }

  /** The stored row after `save` of `row` over `before`. */
  function Saved(before: Row, row: Row, now: Time): Row {
    if Clean(row, now) then row else before
  }

  predicate IsExpired(row: Row, now: Time) {
    row.expireAt.Some? && now > row.expireAt.value
  }

  predicate CanRetry(row: Row, now: Time) {
    && row.status != Done && row.status != Executing
    && !IsExpired(row, now)
    && row.attemptCount < MAX_RETRIES
  }

  // ----- The rows the operations try to save -----

  function AsDone(row: Row, now: Time): Row {
    row.(status := Done, lastAttemptAt := Some(now),
         completedAt := Some(if row.completedAt.Some? then row.completedAt.value else now))
  }

  function AsFailed(row: Row, error: string, now: Time): Row {
    row.(status := Failed, attemptCount := row.attemptCount + 1, lastAttemptAt := Some(now),
         errorMessage := if error == "" then row.errorMessage else Some(error),
         completedAt := Some(if row.completedAt.Some? then row.completedAt.value else now))
  }

  function AsPending(row: Row): Row {
    row.(status := Pending, lastAttemptAt := None)
  }

  function AsStarted(row: Row, now: Time): Row {
    row.(status := Executing, attemptCount := row.attemptCount + 1, executedAt := Some(now), lastAttemptAt := Some(now))
  }

  function AsExpired(row: Row, now: Time): Row {
    row.(status := Failed, completedAt := Some(now), errorMessage := Some("Command expired"))
  }

  function AsReportedExecuting(row: Row, now: Time): Row {
    row.(status := Executing, executedAt := Some(now))
  }

  function AsPulled(row: Row, now: Time): Row {
    row.(lastAttemptAt := Some(now), attemptCount := row.attemptCount + 1)
  }

  /** Executing and completed commands cannot be updated through the API. */
  predicate Editable(row: Row) {
    row.status != Executing && row.status != Done
  }

  function AsEdited(row: Row, kind: Kind, payload: Payload, expireAt: Option<Time>): Row {
    row.(kind := kind, payload := payload, expireAt := expireAt)
  }

  // ----- Whole steps -----

  /**
   What can happen to a row, from the API, the screen, or the operator's reset action. `Start` stands for every way
   an execution begins outside a retry, the pull of a device that takes its pending commands included. `Edit` is an
   update through the API, with the type, payload and expiry the row would have afterwards.
   */
  datatype Event =
    | Start(online: bool, at: Time)
    | Finish(delivery: Delivery, at: Time)
    | Report(done: bool, error: string, at: Time)
    | ReportExecuting(at: Time)
    | Retry(online: bool, at: Time)
    | Pull(at: Time)
    | OperatorReset(at: Time)
    | Edit(kind: Kind, payload: Payload, expireAt: Option<Time>, at: Time)

  /**
   The row with what has happened to it: executions started, failures saved, pulls, and executions that a retry
   started.
   */
  datatype Ledger = Ledger(row: Row, started: nat, failures: nat, pulls: nat, retried: nat)

  predicate Starts(row: Row, online: bool, now: Time) {
    !IsExpired(row, now) && online && Clean(row, now)
  }

  function StartStep(l: Ledger, online: bool, now: Time): Ledger {
    if IsExpired(l.row, now) then l.(row := Saved(l.row, AsExpired(l.row, now), now))
    else if Starts(l.row, online, now) then l.(row := AsStarted(l.row, now), started := l.started + 1)
    else l
  }

  function DoneStep(l: Ledger, now: Time): Ledger {
    l.(row := Saved(l.row, AsDone(l.row, now), now))
  }

  function FailedStep(l: Ledger, error: string, now: Time): Ledger {
    if Clean(l.row, now) then l.(row := AsFailed(l.row, error, now), failures := l.failures + 1) else l
  }

  function RetryStep(l: Ledger, online: bool, now: Time): Ledger {
    if CanRetry(l.row, now) && Clean(l.row, now) then
      var reset := l.(row := AsPending(l.row));
      var l' := StartStep(reset, online, now);
      l'.(retried := l.retried + if Starts(reset.row, online, now) then 1 else 0)
    else l
  }

  function Step(l: Ledger, e: Event): Ledger {
    match e
    case Start(online, at) => StartStep(l, online, at)
    case Finish(Delivered, at) => DoneStep(l, at)
    case Finish(Undelivered, at) => FailedStep(l, "Command execution failed", at)
    case Finish(Crashed(message), at) => FailedStep(l, message, at)
    case Report(done, error, at) => if done then DoneStep(l, at) else FailedStep(l, error, at)
    case ReportExecuting(at) => l.(row := Saved(l.row, AsReportedExecuting(l.row, at), at))
    case Retry(online, at) => RetryStep(l, online, at)
    case Pull(at) =>
      if l.row.status == Pending && Clean(l.row, at) then l.(row := AsPulled(l.row, at), pulls := l.pulls + 1) else l
    case OperatorReset(at) => l.(row := Saved(l.row, AsPending(l.row), at))
    case Edit(kind, payload, expireAt, at) =>
      if Editable(l.row) then l.(row := Saved(l.row, AsEdited(l.row, kind, payload, expireAt), at)) else l
  }

  function Run(l: Ledger, events: seq<Event>): Ledger {
    if events == [] then l else Step(Run(l, events[..|events| - 1]), events[|events| - 1])
  }

  /** A row as it is first saved. */
  predicate Fresh(l: Ledger) {
    l == Ledger(Row(l.row.kind, l.row.payload, l.row.expireAt, Pending, None, None, None, 0, None), 0, 0, 0, 0)
  }

  // ----- What every run keeps -----

  /** Each attempt is accounted for once, and finished rows carry the instant they first finished. */
  predicate Accounted(l: Ledger) {
    && l.row.attemptCount == l.started + l.failures + l.pulls
    && (l.row.status == Done || l.row.status == Failed ==> l.row.completedAt.Some?)
    && l.retried <= l.started && l.retried <= MAX_RETRIES
  }

  lemma StepKeepsAccounted(l: Ledger, e: Event)
    requires Accounted(l)
    ensures Accounted(Step(l, e))
  {
    hide PayloadOk;
    if e.Retry? && CanRetry(l.row, e.at) {
      assert l.retried <= l.started <= l.row.attemptCount < MAX_RETRIES;
    }
  }

  lemma {:induction false} EveryRunIsAccounted(l: Ledger, events: seq<Event>)
    requires Fresh(l)
    ensures Accounted(Run(l, events))
  {
    if events != [] {
      EveryRunIsAccounted(l, events[..|events| - 1]);
      StepKeepsAccounted(Run(l, events[..|events| - 1]), events[|events| - 1]);
    }
  }

  /** A failed or pending row has spent two attempts for each retry: the retry itself and the failure that ended it. */
  predicate TwoAttemptsPerRetry(l: Ledger) {
    && (l.row.status == Failed || l.row.status == Pending ==> 2 * l.retried <= l.row.attemptCount)
    && 2 * l.retried <= l.row.attemptCount + 1
    && l.retried <= 2
  }

  /**
   Unless the operator resets the row by hand, retrying dispatches at most two executions, one fewer than the
   limit of three.
   */
  lemma {:induction false} AtMostTwoRetriesDispatch(l: Ledger, events: seq<Event>)
    requires Fresh(l)
    requires forall e :: e in events ==> !e.OperatorReset?
    ensures TwoAttemptsPerRetry(Run(l, events))
  {
    if events != [] {
      var front := events[..|events| - 1];
      assert events[|events| - 1] in events;
      AtMostTwoRetriesDispatch(l, front);
    }
  }

  lemma RunExtends(l: Ledger, events: seq<Event>, e: Event)
    ensures Run(l, events + [e]) == Step(Run(l, events), e)
  {
    hide Step;
    assert (events + [e])[..|events|] == events;
  }

  lemma RunOfTwoMore(l: Ledger, events: seq<Event>, e: Event, f: Event)
    ensures Run(l, events + [e, f]) == Step(Step(Run(l, events), e), f)
  {
    hide Run, Step;
    RunExtends(l, events, e);
    RunExtends(l, events + [e], f);
    assert events + [e, f] == events + [e] + [f];
  }

  /** A row that never expires and passes validation, with the given counts. */
  predicate At(l: Ledger, status: Status, attempts: nat, retried: nat) {
    && l.row.expireAt.None? && PayloadOk(l.row.kind, l.row.payload)
    && l.row.status == status && l.row.attemptCount == attempts && l.retried == retried
  }

  lemma RetryAdvances(l: Ledger, status: Status, attempts: nat, retried: nat, now: Time)
    requires At(l, status, attempts, retried) && (status == Pending || status == Failed) && attempts < MAX_RETRIES
    ensures At(Step(l, Retry(true, now)), Executing, attempts + 1, retried + 1)
  {
  }

  lemma ReleaseAdvances(l: Ledger, attempts: nat, retried: nat, now: Time)
    requires At(l, Executing, attempts, retried)
    ensures At(Step(l, Report(false, "", now)), Failed, attempts + 1, retried)
    ensures At(Step(l, OperatorReset(now)), Pending, attempts, retried)
  {
  }

  /** Both bounds are reached: two retries around one reported failure, three around two operator resets. */
  lemma RetryBoundsAreReached(l: Ledger)
    requires Fresh(l) && l.row.expireAt.None? && PayloadOk(l.row.kind, l.row.payload)
    ensures Run(l, [Retry(true, 1.0)] + [Report(false, "", 2.0), Retry(true, 3.0)]).retried == 2
    ensures var third := [Retry(true, 1.0)] + [OperatorReset(2.0), Retry(true, 3.0)];
            Run(l, third + [OperatorReset(4.0), Retry(true, 5.0)]).retried == 3
  {
    var first := [Retry(true, 1.0)];
    var third := first + [OperatorReset(2.0), Retry(true, 3.0)];
    var once := Step(l, Retry(true, 1.0));
    assert first[..0] == [];
    assert Run(l, first) == once;
    RunOfTwoMore(l, first, Report(false, "", 2.0), Retry(true, 3.0));
    RunOfTwoMore(l, first, OperatorReset(2.0), Retry(true, 3.0));
    RunOfTwoMore(l, third, OperatorReset(4.0), Retry(true, 5.0));
    assert At(l, Pending, 0, 0);
    hide Run, Step, Fresh;
    RetryAdvances(l, Pending, 0, 0, 1.0);
    ReleaseAdvances(once, 1, 1, 2.0);
    RetryAdvances(Step(once, Report(false, "", 2.0)), Failed, 2, 1, 3.0);
    RetryAdvances(Step(once, OperatorReset(2.0)), Pending, 1, 1, 3.0);
    ReleaseAdvances(Run(l, third), 2, 2, 4.0);
    RetryAdvances(Step(Run(l, third), OperatorReset(4.0)), Pending, 2, 2, 5.0);
  }

  /** Whatever comes after, the completion instant that was first saved stays. */
  lemma {:induction false} CompletionIsWrittenOnce(l: Ledger, events: seq<Event>)
    requires l.row.completedAt.Some?
    ensures Run(l, events).row.completedAt == l.row.completedAt
  {
    if events != [] {
      CompletionIsWrittenOnce(l, events[..|events| - 1]);
    }
  }

  /** An update gives an expired row a valid payload and an expiry that is still ahead, or none. */
  predicate Revives(row: Row, e: Event) {
    && e.Edit? && Editable(row) && PayloadOk(e.kind, e.payload)
    && (e.expireAt.Some? ==> e.at < e.expireAt.value)
  }

  /** From its expiry on a row is changed by an update that revives it, and by nothing else. */
  lemma ExpiredStepIsIdleIff(l: Ledger, e: Event)
    requires l.row.expireAt.Some? && l.row.expireAt.value <= e.at
    ensures Step(l, e) == l <==> !Revives(l.row, e)
    ensures Revives(l.row, e) ==> Step(l, e).row.expireAt == e.expireAt != l.row.expireAt
  {
  }

  /** An expiry that lies behind is never set again. */
  lemma PassedExpiryStaysAway(l: Ledger, e: Event, expiry: Time)
    requires l.row.expireAt != Some(expiry) && expiry <= e.at
    ensures Step(l, e).row.expireAt != Some(expiry)
  {
  }

  /**
   From its expiry on a row stays as it is exactly as long as no update revives it. Nothing else is saved, not even
   the failure that expiry is meant to record.
   */
  lemma {:induction false} ExpiredRowsAreFrozenIff(l: Ledger, events: seq<Event>)
    requires l.row.expireAt.Some?
    requires forall e :: e in events ==> l.row.expireAt.value <= e.at
    ensures Run(l, events) == l <==> forall e :: e in events ==> !Revives(l.row, e)
    ensures Run(l, events) != l ==> Run(l, events).row.expireAt != l.row.expireAt
  {
    if events != [] {
      hide Step, Revives;
      var front, last := events[..|events| - 1], events[|events| - 1];
      assert last in events && events == front + [last];
      ExpiredRowsAreFrozenIff(l, front);
      if Run(l, front) == l {
        ExpiredStepIsIdleIff(l, last);
      } else {
        PassedExpiryStaysAway(Run(l, front), last, l.row.expireAt.value);
      }
    }
  }

  /** The update that breaks the freeze: an expired failed command whose expiry is removed can be retried and runs. */
  lemma RevivedCommandRunsAgain(l: Ledger, at: Time, later: Time)
    requires l.row.status == Failed && l.row.attemptCount < MAX_RETRIES && PayloadOk(l.row.kind, l.row.payload)
    requires l.row.expireAt.Some? && l.row.expireAt.value <= at <= later
    ensures var revival := Edit(l.row.kind, l.row.payload, None, at);
            && Revives(l.row, revival) && Step(l, Retry(true, later)) == l
            && Step(Step(l, revival), Retry(true, later)).row.status == Executing
  {
  }

  /**
   A retry that is allowed sends the command when the screen is online and queues it otherwise, except at the
   very instant of expiry.
   */
  lemma RetryEffect(l: Ledger, online: bool, now: Time)
    requires CanRetry(l.row, now) && PayloadOk(l.row.kind, l.row.payload)
    ensures var l' := RetryStep(l, online, now);
            if l.row.expireAt == Some(now) then l' == l
            else if online then
              && l'.row.status == Executing && l'.retried == l.retried + 1
              && l'.row.attemptCount == l.row.attemptCount + 1
            else l'.row.status == Pending && l'.row.lastAttemptAt == None && l' == l.(row := l'.row)
  {
  }

  // ----- The row and its operations -----

  class Command {
    var stored: Row
    ghost var ledger: Ledger

    constructor (kind: Kind, payload: Payload, expireAt: Option<Time>)
      ensures Valid() && Fresh(ledger) && stored.kind == kind && stored.payload == payload
              && stored.expireAt == expireAt
    {
      stored := Row(kind, payload, expireAt, Pending, None, None, None, 0, None);
      ledger := Ledger(Row(kind, payload, expireAt, Pending, None, None, None, 0, None), 0, 0, 0, 0);
    }

    ghost predicate Valid()
      reads this
    {
      ledger.row == stored
    }

    /** Saving an unclean row raises and stores nothing. */
    method Save(command: Row, now: Time) returns (saved: bool)
      modifies this`stored
      ensures saved <==> Clean(command, now)
      ensures stored == Saved(old(stored), command, now)
    {
      var valid := true;
      var p := command.payload;
      if p.templateId || p.message || p.contentIds != NoIds || p.otherKeys {
        if command.kind == ChangeTemplate && !p.templateId {
          valid := false;
        } else if command.kind == DisplayMessage && !p.message {
          valid := false;
        } else if command.kind == SyncContent && p.contentIds == NotAList {
          valid := false;
        }
      }
      if command.expireAt.Some? && command.expireAt.value <= now {
        valid := false;
      }
      if valid {
        stored := command;
      }
      return valid;
    }

    method MarkDone(now: Time) returns (saved: bool)
      requires Valid()
      modifies this
      ensures Valid() && ledger == DoneStep(old(ledger), now)
      ensures saved <==> Clean(old(stored), now)
    {
      var command := stored.(status := Done);
      if command.completedAt.None? {
        command := command.(completedAt := Some(now));
      }
      command := command.(lastAttemptAt := Some(now));
      saved := Save(command, now);
      ledger := DoneStep(ledger, now);
    }

    method MarkFailed(error: string, now: Time) returns (saved: bool)
      requires Valid()
      modifies this
      ensures Valid() && ledger == FailedStep(old(ledger), error, now)
      ensures saved <==> Clean(old(stored), now)
    {
      var command := stored.(status := Failed, attemptCount := stored.attemptCount + 1, lastAttemptAt := Some(now));
      if error != "" {
        command := command.(errorMessage := Some(error));
      }
      if command.completedAt.None? {
        command := command.(completedAt := Some(now));
      }
      saved := Save(command, now);
      ledger := FailedStep(ledger, error, now);
    }

    method ResetStatus(now: Time) returns (saved: bool)
      requires Valid()
      modifies this
      ensures Valid() && ledger == Step(old(ledger), OperatorReset(now))
      ensures saved <==> Clean(old(stored), now)
    {
      saved := Save(stored.(status := Pending, lastAttemptAt := None), now);
      ledger := Step(ledger, OperatorReset(now));
    }

    /** The part of an execution before the command is handed to the screen. */
    method BeginExecution(online: bool, now: Time) returns (started: bool, outcome: Outcome)
      requires Valid()
      modifies this
      ensures Valid() && ledger == Step(old(ledger), Start(online, now))
      ensures started <==> Starts(old(stored), online, now)
      ensures var unexpired := old(stored).expireAt.None? || now <= old(stored).expireAt.value;
              !started ==> outcome == if unexpired && !online then NotDone else Raised
    {
      started, outcome := false, NotDone;
      ghost var before := ledger;
      if stored.expireAt.Some? && now > stored.expireAt.value {
        var saved :=
          Save(stored.(status := Failed, completedAt := Some(now), errorMessage := Some("Command expired")), now);
        outcome := if saved then NotDone else Raised;
      } else if online {
        var command := stored.(status := Executing, attemptCount := stored.attemptCount + 1);
        command := command.(executedAt := Some(now), lastAttemptAt := Some(now));
        started := Save(command, now);
        outcome := Raised;
      }
      ledger := StartStep(before, online, now);
    }

    /** The part after: a raised error is recorded as a failure, and recording it may itself raise. */
    method FinishExecution(delivery: Delivery, now: Time) returns (outcome: Outcome)
      requires Valid()
      modifies this
      ensures Valid() && ledger == Step(old(ledger), Finish(delivery, now))
      ensures outcome == if !Clean(old(stored), now) then Raised
                         else if delivery == Delivered then Succeeded else NotDone
    {
      var saved: bool;
      if delivery == Delivered {
        saved := MarkDone(now);
        if saved {
          return Succeeded;
        }
      } else if delivery == Undelivered {
        saved := MarkFailed("Command execution failed", now);
        if saved {
          return NotDone;
        }
      }
      var message := if delivery.Crashed? then delivery.message else "validation error";
      saved := MarkFailed(message, now);
      return if saved then NotDone else Raised;
    }

    /** Retrying checks the row, resets it and starts it again. */
    method BeginRetry(online: bool, now: Time) returns (started: bool, outcome: Outcome)
      requires Valid()
      modifies this
      ensures Valid() && ledger == Step(old(ledger), Retry(online, now))
      ensures started <==> CanRetry(old(stored), now) && Starts(old(stored), online, now)
      ensures var row := old(stored);
              var retryable := (row.status == Pending || row.status == Failed) && row.attemptCount < 3
                               && (row.expireAt.None? || now <= row.expireAt.value);
              && (started <==> retryable && online && Clean(row, now))
              && (!started ==> outcome == if retryable && !Clean(row, now) then Raised else NotDone)
    {
      ghost var before := ledger;
      started, outcome := false, NotDone;
      if stored.status == Done || stored.status == Executing
         || (stored.expireAt.Some? && now > stored.expireAt.value) || stored.attemptCount >= MAX_RETRIES {
        return;
      }
      var saved := ResetStatus(now);
      if !saved {
        return false, Raised;
      }
      started, outcome := BeginExecution(online, now);
      ledger := RetryStep(before, online, now);
    }

    /** A screen reports that a command ended. */
    method UpdateCommandStatus(done: bool, error: string, now: Time) returns (saved: bool)
      requires Valid()
      modifies this
      ensures Valid() && ledger == Step(old(ledger), Report(done, error, now))
      ensures saved <==> Clean(old(stored), now)
    {
      if done {
        saved := MarkDone(now);
      } else {
        saved := MarkFailed(error, now);
      }
    }

    /** A screen reports that it received, or is executing, the command. */
    method ReceiveCommand(now: Time) returns (saved: bool)
      requires Valid()
      modifies this
      ensures Valid() && ledger == Step(old(ledger), ReportExecuting(now))
      ensures saved <==> Clean(old(stored), now)
    {
      saved := Save(stored.(status := Executing, executedAt := Some(now)), now);
      ledger := Step(ledger, ReportExecuting(now));
    }

    /** An update through the API. A refused or unclean one stores nothing. */
    method UpdateCommand(kind: Kind, payload: Payload, expireAt: Option<Time>, now: Time) returns (saved: bool)
      requires Valid()
      modifies this
      ensures Valid() && ledger == Step(old(ledger), Edit(kind, payload, expireAt, now))
      ensures saved <==> Editable(old(stored)) && Clean(AsEdited(old(stored), kind, payload, expireAt), now)
    {
      ghost var before := ledger;
      saved := false;
      if stored.status != Executing && stored.status != Done {
        saved := Save(stored.(kind := kind, payload := payload, expireAt := expireAt), now);
      }
      ledger := Step(before, Edit(kind, payload, expireAt, now));
    }

    /** A screen pulls its pending commands. */
    method PullCommand(now: Time) returns (pulled: bool)
      requires Valid()
      modifies this
      ensures Valid() && ledger == Step(old(ledger), Pull(now))
      ensures pulled <==> old(stored).status == Pending && Clean(old(stored), now)
    {
      ghost var before := ledger;
      pulled := false;
      if stored.status == Pending && !(stored.expireAt.Some? && stored.expireAt.value < now) {
        pulled := Save(stored.(lastAttemptAt := Some(now), attemptCount := stored.attemptCount + 1), now);
      }
      ledger := Step(before, Pull(now));
    }
  }
}
