/** What single events do to a command row, column by column, and how a command that is sent comes to its end. */
module CommandEffects {
  import opened Basics
  import opened Commands

  /** Validation objects to a payload that is not empty and lacks what its type needs. */
  lemma PayloadRefusedIff(kind: Kind, p: Payload)
    ensures !PayloadOk(kind, p) <==>
              && (p.templateId || p.message || p.otherKeys || p.contentIds != NoIds)
              && (|| (kind == ChangeTemplate && !p.templateId)
                  || (kind == DisplayMessage && !p.message)
                  || (kind == SyncContent && p.contentIds == NotAList))
  {
  }

  predicate Unexpired(row: Row, now: Time) {
    row.expireAt == None || now < row.expireAt.value
  }

  /** What `save` stores is what validation lets through, before the expiry. */
  predicate Storable(row: Row, now: Time) {
    Unexpired(row, now) && PayloadOk(row.kind, row.payload)
  }

  function FirstOf(first: Option<Time>, now: Time): Option<Time> {
    if first.Some? then first else Some(now)
  }

  /** The row ended well: done, without another attempt, with the first completion time. */
  predicate EndedDone(row: Row, now: Time, row': Row) {
    row' == row.(status := Done, lastAttemptAt := Some(now), completedAt := FirstOf(row.completedAt, now))
  }

  /** The row ended badly: failed, with one more attempt, the error if there is one, and the first completion time. */
  predicate EndedFailed(row: Row, error: string, now: Time, row': Row) {
    && row'.status == Failed && row'.attemptCount == row.attemptCount + 1 && row'.lastAttemptAt == Some(now)
    && row'.completedAt == FirstOf(row.completedAt, now)
    && (row'.errorMessage == if error != "" then Some(error) else row.errorMessage)
    && row'.kind == row.kind && row'.payload == row.payload && row'.expireAt == row.expireAt
    && row'.executedAt == row.executedAt
  }

  /** How the end of an execution, or a report of it, is stored, if it is stored at all. */
  lemma EndIsStored(l: Ledger, e: Event)
    requires e.Finish? || e.Report?
    ensures var row, row' := l.row, Step(l, e).row;
            var well := (e.Finish? && e.delivery == Delivered) || (e.Report? && e.done);
            var error :=
              if e.Report? then e.error
              else if e.delivery.Crashed? then e.delivery.message else "Command execution failed";
            if !Storable(row, e.at) then Step(l, e) == l
            else if well then EndedDone(row, e.at, row') else EndedFailed(row, error, e.at, row')
  {
    hide PayloadOk;
  }

  /** A retry runs a pending or failed command with fewer than three attempts, if the screen is online. */
  lemma RetryRunsIff(l: Ledger, online: bool, at: Time)
    ensures var l' := Step(l, Retry(online, at));
            && (l'.retried == l.retried + 1 <==>
                  online && Storable(l.row, at) && l.row.attemptCount < 3
                    && (l.row.status == Pending || l.row.status == Failed))
            && (l'.retried == l.retried + 1 ==>
                  l'.row == l.row.(status := Executing, attemptCount := l.row.attemptCount + 1, executedAt := Some(at),
                                   lastAttemptAt := Some(at)))
  {
    hide PayloadOk;
  }

  /** The events that only move a row on: receiving, pulling, resetting and updating. */
  lemma MoveIsStored(l: Ledger, e: Event)
    requires e.ReportExecuting? || e.Pull? || e.OperatorReset? || e.Edit?
    ensures var row := l.row;
            Step(l, e).row ==
            match e
            case Edit(kind, payload, expireAt, at) =>
              var edited := row.(kind := kind, payload := payload, expireAt := expireAt);
              if (row.status == Pending || row.status == Failed) && Storable(edited, at) then edited else row
            case ReportExecuting(at) =>
              if Storable(row, at) then row.(status := Executing, executedAt := Some(at)) else row
            case OperatorReset(at) =>
              if Storable(row, at) then row.(status := Pending, lastAttemptAt := None) else row
            case Pull(at) =>
              if row.status == Pending && Storable(row, at)
              then row.(attemptCount := row.attemptCount + 1, lastAttemptAt := Some(at)) else row
            case _ => row
  {
    hide PayloadOk;
  }

  /**
   A command that is sent before its expiry to a screen that is online comes to an end: delivered it is done after one
   attempt, otherwise failed after two. It keeps the time it was sent and ends at the time it first ended.
   */
  lemma SentCommandEnds(l: Ledger, sent: Time, delivery: Delivery, ended: Time)
    requires Storable(l.row, sent) && Storable(l.row, ended)
    ensures var row := l.row;
            var row' := Step(Step(l, Start(true, sent)), Finish(delivery, ended)).row;
            && row'.executedAt == Some(sent) && row'.lastAttemptAt == Some(ended)
            && row'.completedAt == FirstOf(row.completedAt, ended)
            && row'.status == (if delivery == Delivered then Done else Failed)
            && row'.attemptCount == row.attemptCount + (if delivery == Delivered then 1 else 2)
            && row'.errorMessage == (match delivery
                                     case Delivered => row.errorMessage
                                     case Undelivered => Some("Command execution failed")
                                     case Crashed(message) => if message == "" then row.errorMessage else Some(message))
  {
    hide PayloadOk;
  }

  /** Sending does nothing to the row while the screen is offline, and neither does sending it after its expiry. */
  lemma UnsentCommandStays(l: Ledger, online: bool, at: Time)
    ensures Step(l, Start(online, at)) != l <==> online && Storable(l.row, at)
  {
    hide PayloadOk;
  }
}
