/**
 What a licence operation answers and stores, said by the settings, the stored row and the reply: error codes, retry
 times, grace ends, and which columns each operation writes.
 */
module LicenseAnswers {
  import opened Basics
  import opened Text
  import opened TtlCache
  import opened LicenseState
  import opened LicenseService
  import LR = LicenseRuns
  import opened LicenseReceipts

  predicate NoCredentials(row: Row) {
    Strip(row.activationToken) == "" && Strip(row.purchaseCode) == ""
  }

  /** The server is asked about the row and answers. */
  predicate GetsAnswer(s: Settings, row: Row, reply: Reply) {
    HasCredentials(row) && (s.gatewayConfigured || s.serverUrlConfigured) && reply.Answer?
  }

  /** The server is asked and turns the client away for asking too often. */
  predicate IsTurnedAway(s: Settings, row: Row, reply: Reply) {
    && HasCredentials(row) && (s.gatewayConfigured || s.serverUrlConfigured)
    && reply.ServerError? && reply.rateLimited
  }

  predicate WithinGrace(s: Settings, row: Row, now: Time) {
    row.lastSuccessAt.Some? && now <= row.lastSuccessAt.value + 3600.0 * s.graceHours as real
  }

  /** What an outage is reported as. */
  function OutageNote(s: Settings, reply: Reply): Note {
    if (s.gatewayConfigured || s.serverUrlConfigured) && reply.ServerError? then reply.message else ServerNotConfigured
  }

  lemma CredentialsOf(row: Row)
    ensures HasCredentials(row) <==> UsesToken(row) || (Strip(row.purchaseCode) != ""
                                                        && CodeShapeValid(Strip(row.purchaseCode)))
  {
    StripTwice(row.purchaseCode);
    hide Strip, CodeShapeValid;
  }

  /** Status and error code of a validation that is not served from the cache. */
  lemma FreshStatus(s: Settings, w: World, now: Time, force: bool, reply: Reply)
    requires force || w.cached.None? || w.cached.value.expiresAt <= now
    ensures var d := Validate(s, w, now, force, reply).1;
            var answered, inGrace := GetsAnswer(s, w.row, reply), WithinGrace(s, w.row, now);
            var outage := HasCredentials(w.row) && !answered;
            && (d.status == Active <==> answered && reply.valid)
            && (d.status == Grace <==> outage && inGrace)
            && (d.status == Inactive <==> NoCredentials(w.row))
            && (d.allow <==> d.errorCode == NoError)
            && (d.errorCode == NoError <==> d.status == Active || d.status == Grace)
            && (d.errorCode == LicenseRequired <==> NoCredentials(w.row))
            && (d.errorCode == RateLimited <==> outage && !inGrace && IsTurnedAway(s, w.row, reply))
            && (d.errorCode == GraceOver <==> outage && !inGrace && !IsTurnedAway(s, w.row, reply))
            && (d.errorCode == LicenseInvalid <==>
                  (answered && !reply.valid) || !(HasCredentials(w.row) || NoCredentials(w.row)))
  {
    CredentialsOf(w.row);
    hide Strip, CodeShapeValid, Seal, Merged, HasCredentials;
  }

  /**
   The rest of the answer: when to ask again, when grace ends, and the message. A server that turned the client away
   without saying for how long is taken to mean a minute.
   */
  lemma FreshDetails(s: Settings, w: World, now: Time, force: bool, reply: Reply)
    requires force || w.cached.None? || w.cached.value.expiresAt <= now
    ensures var (row, d) := (w.row, Validate(s, w, now, force, reply).1);
            var away := IsTurnedAway(s, row, reply);
            && d.retryAfter == (
                 if !away then None
                 else if WithinGrace(s, row, now) || (reply.retryAfter.Some? && reply.retryAfter.value != 0)
                 then reply.retryAfter else Some(60))
            && d.graceUntil == (
                 if GetsAnswer(s, row, reply)
                 then Some(if reply.valid then now + 3600.0 * s.graceHours as real else now as real)
                 else if !HasCredentials(row) then None
                 else if row.lastSuccessAt.Some? then Some(row.lastSuccessAt.value + 3600.0 * s.graceHours as real)
                 else row.graceUntil)
            && d.message == (
                 if NoCredentials(row) then ActivateFirst
                 else if !HasCredentials(row) then CodeMalformed
                 else if GetsAnswer(s, row, reply)
                 then if reply.valid then LicenseIsActive else FromServer(reply.data.message)
                 else if WithinGrace(s, row, now) then RunningInGrace
                 else if away then reply.message else GraceExpired)
  {
    CredentialsOf(w.row);
    hide Strip, CodeShapeValid, Seal, Merged, HasCredentials;
  }

  /** The columns a row keeps in a validation, whatever comes of it. */
  predicate KeepsIdentity(row: Row, row': Row) {
    && row'.purchaseCode == row.purchaseCode && row'.activationToken == row.activationToken
    && row'.activatedAt == row.activatedAt && row'.productOverride == row.productOverride
  }

  /** What a validation that is not served from the cache leaves in the row. */
  predicate FreshColumns(s: Settings, row: Row, now: Time, reply: Reply, row': Row) {
    var accepted := GetsAnswer(s, row, reply) && reply.valid;
    && KeepsIdentity(row, row')
    && row'.lastValidationAt == Some(now)
    && row'.lastSuccessAt == (if accepted then Some(now) else row.lastSuccessAt)
    && row'.activatedDomain == (
         if accepted && row.activatedDomain == "" then Strip(reply.data.domain) else row.activatedDomain)
    && row'.graceUntil == (
         if accepted then Some(now + 3600.0 * s.graceHours as real)
         else if GetsAnswer(s, row, reply) then Some(now as real)
         else if HasCredentials(row) && WithinGrace(s, row, now)
         then Some(row.lastSuccessAt.value + 3600.0 * s.graceHours as real)
         else row.graceUntil)
    && row'.lastError == (
         if NoCredentials(row) then CredentialsMissing
         else if !HasCredentials(row) then CodeMalformed
         else if GetsAnswer(s, row, reply) then NoNote
         else OutageNote(s, reply))
  }

  lemma SealKeepsColumns(s: Settings, row: Row, now: Time)
    ensures var row' := Seal(s, row, now); row' == row.(jwt := row'.jwt, signature := row'.signature)
  {
    hide Strip, DomainTokens.Issue, SignatureOf;
  }

  lemma MergeKeepsColumns(s: Settings, row: Row, data: Payload, now: Time)
    ensures var row' := Merged(s, row, data, now);
            row' == row.(lastContactAt := row'.lastContactAt, planType := row'.planType, features := row'.features,
                         signature := row'.signature)
  {
    hide NormalizePlan, AllEnabled, SignatureOf;
  }

  lemma AnsweredRow(s: Settings, row: Row, now: Time, reply: Reply)
    requires GetsAnswer(s, row, reply)
    ensures FreshColumns(s, row, now, reply, Answered(s, row, now, reply.valid, reply.data).0)
  {
    CredentialsOf(row);
    StripTwice(row.purchaseCode);
    var accepted := Accepted(s, row, now, reply.data);
    var refused := row.(status := Invalid, lastValidationAt := Some(now), lastError := NoNote,
                        graceUntil := Some(now as real));
    MergeKeepsColumns(s, accepted, reply.data, now);
    SealKeepsColumns(s, Merged(s, accepted, reply.data, now), now);
    SealKeepsColumns(s, refused, now);
    hide Strip, CodeShapeValid, Seal, Merged;
  }

  lemma OutageRow(s: Settings, row: Row, now: Time, reply: Reply, err: Reply)
    requires HasCredentials(row) && !GetsAnswer(s, row, reply) && err.ServerError?
    requires err.message == OutageNote(s, reply)
    ensures FreshColumns(s, row, now, reply, Outage(s, row, now, err).0)
  {
    CredentialsOf(row);
    StripTwice(row.purchaseCode);
    var until :=
      if row.lastSuccessAt.Some? then Some(row.lastSuccessAt.value + Hours(s.graceHours)) else row.graceUntil;
    SealKeepsColumns(s, Marked(row, now, Invalid, err.message), now);
    SealKeepsColumns(s, Marked(row, now, Grace, err.message).(graceUntil := until), now);
    assert !NoCredentials(row);
    hide Strip, CodeShapeValid, Seal, HasCredentials, NoCredentials, GetsAnswer, OutageNote;
  }

  lemma FreshRow(s: Settings, row: Row, now: Time, reply: Reply)
    ensures FreshColumns(s, row, now, reply, Refresh(s, row, now, reply).0)
  {
    CredentialsOf(row);
    if GetsAnswer(s, row, reply) {
      AnsweredRow(s, row, now, reply);
      hide Strip, CodeShapeValid, Answered, Outage, FreshColumns;
    } else if HasCredentials(row) {
      var err := if UrlConfigured(s) && reply.ServerError? then reply else NOT_CONFIGURED;
      OutageRow(s, row, now, reply, err);
      hide Strip, CodeShapeValid, Answered, Outage, FreshColumns;
    } else {
      SealKeepsColumns(s, Marked(row, now, Inactive, CredentialsMissing), now);
      SealKeepsColumns(s, Marked(row, now, Invalid, CodeMalformed), now);
      hide Strip, CodeShapeValid, Answered, Outage, Seal;
    }
  }

  /**
   Which columns a validation writes that is not served from the cache: the time of asking always, the time of success,
   a missing domain and the grace end only as the answer says, and never the credentials.
   */
  lemma FreshValidationWrites(s: Settings, w: World, now: Time, force: bool, reply: Reply)
    requires force || w.cached.None? || w.cached.value.expiresAt <= now
    ensures var (w', d) := Validate(s, w, now, force, reply);
            && FreshColumns(s, w.row, now, reply, w'.row) && w'.row.status == d.status
            && w'.cached == Some(Entry(d, now + s.cacheTtl as real))
  {
    FreshRow(s, w.row, now, reply);
    LR.RefreshIsSound(s, w.row, now, reply);
    hide Refresh, FreshColumns, LR.BindingExact, SignatureCurrent, Strip;
  }

  // ----- Activation -----

  /** The credentials and the domain with which an activation asks, and keeps if it fails. */
  predicate ActivationColumns(s: Settings, row: Row, e: LR.Event, row': Row)
    requires e.Activation?
  {
    var kept := s.gatewayConfigured && !CodeShapeValid(e.code);
    && row'.activatedAt == Some(e.now)
    && row'.productOverride == (
         if e.productOverride.Some? then Strip(e.productOverride.value) else row.productOverride)
    && row'.activationToken == (
         if kept then row.activationToken else if BringsToken(s, e) then Strip(e.gateway.data.activationToken) else "")
    && row'.purchaseCode == (
         if kept then row.purchaseCode else if BringsToken(s, e) then "" else Strip(e.code))
    && (e.domain != "" && Strip(e.domain) != "" ==> row'.activatedDomain == Strip(e.domain))
    && (e.domain == "" && row.activatedDomain != "" ==> row'.activatedDomain == row.activatedDomain)
  }

  lemma AskedColumns(s: Settings, w: World, e: LR.Event)
    requires e.Activation? && LR.AskedAbout(s, w, e).Some?
    ensures ActivationColumns(s, w.row, e, LR.AskedAbout(s, w, e).value)
    ensures LR.AskedAbout(s, w, e).value.lastSuccessAt == w.row.lastSuccessAt
    ensures HasCredentials(LR.AskedAbout(s, w, e).value) <==> CodeShapeValid(e.code)
  {
    StripTwice(e.code);
    assert Strip("") == "";
    if e.gateway.Activated? {
      StripTwice(e.gateway.data.activationToken);
    }
    hide Strip, CodeShapeValid, NormalizePlan, AllEnabled, SignatureOf;
  }

  lemma AbortedColumns(s: Settings, w: World, e: LR.Event)
    requires e.Activation? && LR.AskedAbout(s, w, e).None?
    ensures ActivationColumns(s, w.row, e, LR.Step(s, w, e).0.row)
  {
    StripTwice(e.code);
    hide Strip, CodeShapeValid, Merged, SignatureOf, DomainTokens.Issue;
  }

  lemma ColumnsCarryOver(s: Settings, row: Row, e: LR.Event, asked: Row, reply: Reply, row': Row)
    requires e.Activation? && ActivationColumns(s, row, e, asked) && FreshColumns(s, asked, e.now, reply, row')
    ensures ActivationColumns(s, row, e, row')
  {
    hide Strip, CodeShapeValid, HasCredentials;
  }

  /**
   After an activation the row holds exactly one credential, the token if the gateway brought one and the code
   otherwise, unless a malformed code was turned away at home. It allows exactly when the code is well-formed, the
   gateway, if there is one, brought a token, and the server accepts or, unanswered, grace lasts.
   */
  lemma ActivationAllowsIff(s: Settings, w: World, e: LR.Event)
    requires e.Activation?
    ensures var (w', d) := LR.Step(s, w, e);
            var asks := CodeShapeValid(e.code) && (s.gatewayConfigured ==> BringsToken(s, e));
            && ActivationColumns(s, w.row, e, w'.row) && d.Some?
            && (d.value.allow <==>
                  && asks
                  && if (s.gatewayConfigured || s.serverUrlConfigured) && e.reply.Answer? then e.reply.valid
                     else WithinGrace(s, w.row, e.now))
  {
    var asked := LR.AskedAbout(s, w, e);
    StripTwice(e.code);
    if asked.Some? {
      AskedColumns(s, w, e);
      LR.ForcedStep(s, w, e);
      FreshRow(s, asked.value, e.now, e.reply);
      FreshStatus(s, World(asked.value, None), e.now, true, e.reply);
      hide Strip, CodeShapeValid, Refresh, LR.Step, HasCredentials, Merged, NormalizePlan, SignatureOf;
      ColumnsCarryOver(s, w.row, e, asked.value, e.reply, Refresh(s, asked.value, e.now, e.reply).0);
      hide ActivationColumns, FreshColumns;
    } else {
      AbortedColumns(s, w, e);
      LR.AbortedActivation(s, w, e);
      hide Strip, CodeShapeValid, LR.Step, ActivationColumns;
    }
  }

  /** Why an activation stopped at the gateway. */
  function AbortNote(e: LR.Event): Note
    requires e.Activation?
  {
    if !CodeShapeValid(e.code) then CodeMalformed
    else if e.gateway.ActivationError? then e.gateway.message
    else if e.gateway.data.message == "" then NoTokenReturned
    else FromServer(e.gateway.data.message)
  }

  /** An activation that stops at the gateway leaves an inactive row with the reason, and says when to try again. */
  lemma AbortedAnswer(s: Settings, w: World, e: LR.Event)
    requires e.Activation? && s.gatewayConfigured && !BringsToken(s, e)
    ensures var (w', answer) := LR.Step(s, w, e);
            var malformed := !CodeShapeValid(e.code);
            var away := !malformed && e.gateway.ActivationError? && e.gateway.rateLimited;
            && w'.cached == None && w'.row.status == Inactive && w'.row.lastError == AbortNote(e)
            && w'.row.lastSuccessAt == w.row.lastSuccessAt && w'.row.graceUntil == w.row.graceUntil
            && answer == Some(Decision(
                 false, if malformed then Invalid else Inactive,
                 if malformed then LicenseInvalid else if away then RateLimited else ActivationFailed,
                 AbortNote(e), None,
                 if !away then None
                 else if e.gateway.retryAfter.Some? && e.gateway.retryAfter.value != 0 then e.gateway.retryAfter
                 else Some(60)))
  {
    StripTwice(e.code);
    hide Strip, CodeShapeValid, Merged, SignatureOf, DomainTokens.Issue, Refresh;
  }

  // ----- Heartbeat and product override -----

  /** A heartbeat answer writes plan, features, contact time, token and signature, and drops the cached decision. */
  lemma HeartbeatWrites(s: Settings, w: World, now: Time, data: Payload)
    ensures var w' := Heartbeat(s, w, now, data);
            if !data.ok then w' == w
            else
              && w'.cached == None
              && w'.row == w.row.(lastContactAt := Some(now), planType := w'.row.planType, features := w'.row.features,
                                  jwt := w'.row.jwt, signature := w'.row.signature)
  {
    hide Strip, NormalizePlan, AllEnabled, SignatureOf, DomainTokens.Issue;
  }

  /** An override of the product id decides nothing: the answer is that of a forced validation without it. */
  lemma OverrideDecidesNothing(s: Settings, w: World, now: Time, value: string, reply: Reply)
    ensures var (w', d) := OverrideProduct(s, w, now, value, reply);
            && d == Validate(s, w, now, true, reply).1
            && w'.row.productOverride == Strip(value)
  {
    hide Strip, CodeShapeValid, NormalizePlan, AllEnabled, SignatureOf, DomainTokens.Issue;
  }

  /** Dropping the cached decision makes the next validation ask, as a forced one would. */
  lemma InvalidationMakesAsk(s: Settings, w: World, at: Time, now: Time, reply: Reply)
    ensures var (w', d) := LR.Step(s, w, LR.CacheInvalidation(at));
            w'.row == w.row && d == None && Validate(s, w', now, false, reply) == Validate(s, w, now, true, reply)
  {
    hide Refresh;
  }

  // ----- What the signature protects -----

  /** Texts that agree in their first sixteen characters. */
  predicate SameStart(a: string, b: string) {
    && (|a| == |b| || (16 <= |a| && 16 <= |b|))
    && forall i :: 0 <= i < 16 && i < |a| && i < |b| ==> a[i] == b[i]
  }

  ghost predicate Injective(hmac: SignedFields -> string) {
    forall x, y :: hmac(x) == hmac(y) ==> x == y
  }

  /** The whole second of the last success, 0 for none. */
  function SuccessSecond(row: Row): int {
    if row.lastSuccessAt == None then 0 else row.lastSuccessAt.value.Floor
  }

  lemma PrefixesAgree(a: string, b: string)
    ensures (if |a| <= 16 then a else a[..16]) == (if |b| <= 16 then b else b[..16]) <==> SameStart(a, b)
  {
    var x, y := if |a| <= 16 then a else a[..16], if |b| <= 16 then b else b[..16];
    if x == y {
      forall i | 0 <= i < 16 && i < |a| && i < |b| ensures a[i] == b[i] {
        assert x[i] == a[i] && y[i] == b[i];
      }
    }
  }

  /**
   With an injective keyed hash a signature fits two rows exactly when they agree on code, domain, status, product
   override, the second of the last success and the first sixteen characters of the token: a change to any of these is
   noticed, and a change to any other column is not.
   */
  lemma SignatureProtects(s: Settings, row: Row, tampered: Row)
    requires Injective(s.hmac) && SignatureCurrent(s, row) && tampered.signature == row.signature
    ensures SignatureCurrent(s, tampered) <==>
              && tampered.purchaseCode == row.purchaseCode && SameStart(tampered.activationToken, row.activationToken)
              && tampered.activatedDomain == row.activatedDomain && tampered.status == row.status
              && SuccessSecond(tampered) == SuccessSecond(row) && tampered.productOverride == row.productOverride
  {
    PrefixesAgree(tampered.activationToken, row.activationToken);
    hide SameStart;
  }
}
