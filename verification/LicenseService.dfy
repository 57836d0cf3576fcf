/**
 The licence client: validation against the server with a cached decision and an offline grace
 window, activation through the gateway, and heartbeat answers. The network is an arbitrary reply.
 */
module LicenseService {
  import opened Basics
  import opened Text
  import opened TtlCache
  import opened DomainTokens
  import opened LicenseState

  datatype ErrorCode = NoError | LicenseRequired | LicenseInvalid | ActivationFailed | RateLimited | GraceOver

  datatype Decision = Decision(
    allow: bool,
    status: Status,
    errorCode: ErrorCode,
    message: Note,
    graceUntil: Option<real>,
    retryAfter: Option<int>)

  /** What a call to the validation endpoint yields: a parsed answer, or `LicenseServerError`. */
  datatype Reply =
    | Answer(valid: bool, data: Payload)
    | ServerError(message: Note, rateLimited: bool, retryAfter: Option<int>)

  datatype ActivationReply =
    | Activated(data: Payload)
    | ActivationError(message: Note, rateLimited: bool, retryAfter: Option<int>)

  /** Stored row and cached decision. */
  datatype World = World(row: Row, cached: Option<Entry<Decision>>)

  const NOT_CONFIGURED := ServerError(ServerNotConfigured, false, None)

  predicate IsHex(c: char) {
    '0' <= c <= '9' || 'a' <= c <= 'f' || 'A' <= c <= 'F'
  }

  /** 8-4-4-4-12 hexadecimal digits. */
  predicate CodeShapeValid(code: string) {
    var c := Strip(code);
    |c| == 36 &&
    forall i :: 0 <= i < 36 ==> if i in {8, 13, 18, 23} then c[i] == '-' else IsHex(c[i])
  }

  predicate UrlConfigured(s: Settings) {
    s.gatewayConfigured || s.serverUrlConfigured
  }

  predicate UsesToken(row: Row) {
    Strip(row.activationToken) != ""
  }

  /** The service reaches the server exactly for a row with a token or a well-formed code. */
  predicate Contacts(s: Settings, row: Row) {
    UrlConfigured(s) && (UsesToken(row) || (Strip(row.purchaseCode) != "" && CodeShapeValid(Strip(row.purchaseCode))))
  }

  function Seal(s: Settings, row: Row, now: Time): Row {
    Signed(s, Bound(s, row, now))
  }

  function Denied(st: Status, code: ErrorCode, message: Note): Decision {
    Decision(false, st, code, message, None, None)
  }

  function OrSixty(retryAfter: Option<int>): Option<int> {
    if retryAfter.None? || retryAfter.value == 0 then Some(60) else retryAfter
  }

  // ----- Specification: one validation -----

  function Accepted(s: Settings, row: Row, now: Time, data: Payload): Row {
    row.(
        status := Active, lastValidationAt := Some(now), lastError := NoNote,
        lastSuccessAt := Some(now), graceUntil := Some(now + Hours(s.graceHours)),
        activatedDomain := if row.activatedDomain == "" then Strip(data.domain) else row.activatedDomain)
  }

  function Answered(s: Settings, row: Row, now: Time, valid: bool, data: Payload): (Row, Decision) {
    if valid then
      (Seal(s, Merged(s, Accepted(s, row, now, data), data, now), now),
       Decision(true, Active, NoError, LicenseIsActive, Some(now + Hours(s.graceHours)), None))
    else
      (Seal(s, row.(status := Invalid, lastValidationAt := Some(now), lastError := NoNote,
                    graceUntil := Some(now as real)), now),
       Decision(false, Invalid, LicenseInvalid, FromServer(data.message), Some(now as real), None))
  }

  /** During an outage the last success opens a grace window; once it closes, only the decision carries its end. */
  function Outage(s: Settings, row: Row, now: Time, err: Reply): (Row, Decision)
    requires err.ServerError?
  {
    var until :=
      if row.lastSuccessAt.Some? then Some(row.lastSuccessAt.value + Hours(s.graceHours)) else row.graceUntil;
    if row.lastSuccessAt.Some? && now <= row.lastSuccessAt.value + Hours(s.graceHours) then
      (Seal(s, Marked(row, now, Grace, err.message).(graceUntil := until), now),
       Decision(true, Grace, NoError, RunningInGrace, until,
                if err.rateLimited then err.retryAfter else None))
    else
      (Seal(s, Marked(row, now, Invalid, err.message), now),
       if err.rateLimited
       then Decision(false, Invalid, RateLimited, err.message, until, OrSixty(err.retryAfter))
       else Decision(false, Invalid, GraceOver, GraceExpired, until, None))
  }

  function Marked(row: Row, now: Time, st: Status, error: Note): Row {
    row.(status := st, lastError := error, lastValidationAt := Some(now))
  }

  function Refresh(s: Settings, row: Row, now: Time, reply: Reply): (Row, Decision) {
    if !UsesToken(row) && Strip(row.purchaseCode) == "" then
      (Seal(s, Marked(row, now, Inactive, CredentialsMissing), now),
       Denied(Inactive, LicenseRequired, ActivateFirst))
    else if !UsesToken(row) && !CodeShapeValid(Strip(row.purchaseCode)) then
      (Seal(s, Marked(row, now, Invalid, CodeMalformed), now),
       Denied(Invalid, LicenseInvalid, CodeMalformed))
    else if !UrlConfigured(s) then
      Outage(s, row, now, NOT_CONFIGURED)
    else match reply
      case Answer(valid, data) => Answered(s, row, now, valid, data)
      case ServerError(_, _, _) => Outage(s, row, now, reply)
  }

  predicate ServedFromCache(w: World, now: Time, force: bool) {
    !force && w.cached.Some? && now < w.cached.value.expiresAt
  }

  function Validate(s: Settings, w: World, now: Time, force: bool, reply: Reply): (World, Decision) {
    if ServedFromCache(w, now, force) then
      (w, w.cached.value.value)
    else
      var (row, d) := Refresh(s, w.row, now, reply);
      (World(row, Some(Entry(d, now + s.cacheTtl as real))), d)
  }

  // ----- Specification: activation, heartbeat, product override -----

  function Begun(row: Row, now: Time, domain: string, productOverride: Option<string>): Row {
    row.(
      productOverride := if productOverride.Some? then Strip(productOverride.value) else row.productOverride,
      activatedDomain := if domain != "" then Strip(domain) else row.activatedDomain,
      activatedAt := Some(now), status := Inactive, lastError := NoNote)
  }

  function Activate(s: Settings, w: World, now: Time, purchaseCode: string, domain: string,
                    productOverride: Option<string>, gateway: ActivationReply, reply: Reply): (World, Decision) {
    var code := Strip(purchaseCode);
    var begun := Begun(w.row, now, domain, productOverride);
    if !s.gatewayConfigured then
      Validate(s, World(Signed(s, begun.(purchaseCode := code, activationToken := "")), None), now, true, reply)
    else
      GatewayActivation(s, begun, now, code, gateway, reply)
  }

  function GatewayActivation(s: Settings, begun: Row, now: Time, code: string, gateway: ActivationReply,
      reply: Reply): (World, Decision) {
    if !CodeShapeValid(code) then
      (World(Seal(s, begun.(lastError := CodeMalformed), now), None),
       Denied(Invalid, LicenseInvalid, CodeMalformed))
    else
      var keptCode := begun.(purchaseCode := code, activationToken := "");
      match gateway
      case ActivationError(message, rateLimited, retryAfter) =>
        (World(Seal(s, keptCode.(lastError := message), now), None),
         if rateLimited
         then Decision(false, Inactive, RateLimited, message, None, OrSixty(retryAfter))
         else Denied(Inactive, ActivationFailed, message))
      case Activated(data) =>
        var token := Strip(data.activationToken);
        if token == "" then
          var err := if data.message != "" then FromServer(data.message) else NoTokenReturned;
          (World(Seal(s, keptCode.(lastError := err), now), None), Denied(Inactive, ActivationFailed, err))
        else
          var row := Merged(s, begun.(purchaseCode := "", activationToken := token, lastError := NoNote), data, now);
          Validate(s, World(row, None), now, true, reply)
  }

  function Heartbeat(s: Settings, w: World, now: Time, data: Payload): World {
    if !data.ok then w else World(Bound(s, Merged(s, w.row, data, now), now), None)
  }

  function OverrideProduct(s: Settings, w: World, now: Time, value: string, reply: Reply): (World, Decision) {
    Validate(s, w.(row := Signed(s, w.row.(productOverride := Strip(value)))), now, true, reply)
  }

  /** Merging and sealing leave the outcome of a validation alone. */
  lemma SealLeavesOutcome(s: Settings, row: Row, now: Time)
    ensures var r := Seal(s, row, now);
            r.status == row.status && r.graceUntil == row.graceUntil && r.lastError == row.lastError
  {
  }

  lemma MergeLeavesOutcome(s: Settings, row: Row, data: Payload, now: Time)
    ensures var r := Merged(s, row, data, now);
            r.status == row.status && r.graceUntil == row.graceUntil && r.lastError == row.lastError
  {
    hide NormalizePlan;
  }

  lemma AcceptedOutcome(s: Settings, row: Row, now: Time, data: Payload)
    ensures var r := Accepted(s, row, now, data); r.status == Active && r.graceUntil == Some(now + Hours(s.graceHours))
  {
    hide Strip;
  }

  /** A merged row is already signed. */
  lemma MergedIsSigned(s: Settings, row: Row, data: Payload, now: Time)
    ensures Signed(s, Merged(s, row, data, now)) == Merged(s, row, data, now)
  {
    hide NormalizePlan;
  }

  // ----- The service -----

  class Service {
    const settings: Settings
    var stored: Row
    var cached: Option<Entry<Decision>>

    constructor (s: Settings)
      ensures settings == s && Now() == World(PRISTINE, None)
    {
      settings := s;
      stored := PRISTINE;
      cached := None;
    }

    function Now(): World
      reads this
    {
      World(stored, cached)
    }

    method InvalidateCache()
      modifies this`cached
      ensures Now() == old(Now()).(cached := None)
    {
      cached := None;
    }

    method Remember(d: Decision, now: Time)
      modifies this`cached
      ensures cached == Some(Entry(d, now + settings.cacheTtl as real))
    {
      cached := Some(Entry(d, now + settings.cacheTtl as real));
    }

    method Save(state: State, fields: set<Field>)
      modifies this`stored
      ensures stored == Overlay(old(stored), state.Snapshot(), fields)
    {
      stored := Overlay(stored, state.Snapshot(), fields);
    }

    method SaveAll(state: State)
      modifies this`stored
      ensures stored == state.Snapshot()
    {
      stored := state.Snapshot();
    }

    method ValidateLicense(now: Time, force: bool, reply: Reply) returns (decision: Decision)
      modifies this
      ensures (Now(), decision) == Validate(settings, old(Now()), now, force, reply)
    {
      hide Strip, CodeShapeValid, Answered, Outage;
      if !force && cached.Some? && now < cached.value.expiresAt {
        return cached.value.value;
      }
      var state := new State.Load(settings, stored);
      var token := Strip(state.activationToken);
      var purchase := Strip(state.purchaseCode);
      if token == "" && purchase == "" {
        decision := RefuseLocally(state, now, Inactive, CredentialsMissing, LicenseRequired, ActivateFirst);
      } else if token == "" && !CodeShapeValid(purchase) {
        decision := RefuseLocally(state, now, Invalid, CodeMalformed, LicenseInvalid, CodeMalformed);
      } else if !settings.gatewayConfigured && !settings.serverUrlConfigured {
        decision := HandleOutage(state, now, NOT_CONFIGURED);
      } else if reply.Answer? {
        decision := HandleAnswer(state, now, reply.valid, reply.data);
      } else {
        decision := HandleOutage(state, now, reply);
      }
      Remember(decision, now);
    }

    method RefuseLocally(state: State, now: Time, st: Status, error: Note, code: ErrorCode,
        message: Note) returns (decision: Decision)
      requires state.settings == settings && state.Snapshot() == stored
      modifies state, this`stored
      ensures stored == Seal(settings, Marked(old(stored), now, st, error), now)
      ensures decision == Denied(st, code, message)
    {
      hide Strip, Issue;
      state.status := st;
      state.lastError := error;
      state.lastValidationAt := Some(now);
      assert state.Snapshot() == Marked(stored, now, st, error);
      state.ApplyDomainBinding(now);
      state.TouchSignature();
      Save(state, {StatusF, LastErrorF, LastValidationF, JwtF, SignatureF});
      decision := Denied(st, code, message);
    }

    method HandleAnswer(state: State, now: Time, valid: bool, data: Payload) returns (decision: Decision)
      requires state.settings == settings && state.Snapshot() == stored
      modifies state, this`stored
      ensures (stored, decision) == Answered(settings, old(stored), now, valid, data)
    {
      hide Strip, Seal, Merged, Accepted;
      ghost var before := stored;
      if valid {
        RecordAcceptance(state, now, data);
        MergeLeavesOutcome(settings, Accepted(settings, before, now, data), data, now);
        AcceptedOutcome(settings, before, now, data);
      } else {
        state.status, state.lastValidationAt, state.lastError := Invalid, Some(now), NoNote;
        state.graceUntil := Some(now as real);
        assert state.Snapshot() ==
               before.(status := Invalid, lastValidationAt := Some(now), lastError := NoNote,
                       graceUntil := Some(now as real));
      }
      SealLeavesOutcome(settings, state.Snapshot(), now);
      SealAndSave(state, now);
      if valid {
        decision := Decision(true, state.status, NoError, LicenseIsActive, state.graceUntil, None);
      } else {
        decision := Decision(false, state.status, LicenseInvalid, FromServer(data.message), state.graceUntil, None);
      }
    }

    method RecordAcceptance(state: State, now: Time, data: Payload)
      requires state.settings == settings
      modifies state
      ensures state.Snapshot() == Merged(settings, Accepted(settings, old(state.Snapshot()), now, data), data, now)
    {
      hide Strip, Merged;
      ghost var accepted := Accepted(settings, state.Snapshot(), now, data);
      state.status, state.lastValidationAt, state.lastError := Active, Some(now), NoNote;
      state.lastSuccessAt := Some(now);
      state.graceUntil := Some(now + Hours(settings.graceHours));
      var dom := Strip(data.domain);
      if state.activatedDomain == "" && dom != "" {
        state.activatedDomain := dom;
      }
      assert state.Snapshot() == accepted;
      state.MergeGatewayPayload(data, now);
    }

    method HandleOutage(state: State, now: Time, err: Reply) returns (decision: Decision)
      requires err.ServerError?
      requires state.settings == settings && state.Snapshot() == stored
      modifies state, this`stored
      ensures (stored, decision) == Outage(settings, old(stored), now, err)
    {
      hide Strip, Bound, Signed;
      var retryAfter := if err.rateLimited then err.retryAfter else None;
      state.lastValidationAt := Some(now);
      state.lastError := err.message;
      if state.lastSuccessAt.Some? {
        var until := state.lastSuccessAt.value + Hours(settings.graceHours);
        state.graceUntil := Some(until);
        if now <= until {
          OpenGrace(state, now, err.message);
          return Decision(true, Grace, NoError, RunningInGrace, Some(until), retryAfter);
        }
      }
      CloseGrace(state, now, err.message);
      if err.rateLimited {
        decision := Decision(false, state.status, RateLimited, err.message, state.graceUntil, OrSixty(retryAfter));
      } else {
        decision := Decision(false, state.status, GraceOver,
                             GraceExpired, state.graceUntil, None);
      }
    }

    /** Grace: the window's end is written back with the status. */
    method OpenGrace(state: State, now: Time, error: Note)
      requires state.settings == settings
      requires state.Snapshot() == Marked(stored, now, stored.status, error).(graceUntil := state.graceUntil)
      modifies state, this`stored
      ensures stored ==
              Seal(settings, Marked(old(stored), now, Grace, error).(graceUntil := old(state.graceUntil)), now)
    {
      state.status := Grace;
      assert state.Snapshot() == Marked(stored, now, Grace, error).(graceUntil := state.graceUntil);
      state.ApplyDomainBinding(now);
      state.TouchSignature();
      Save(state, {StatusF, LastValidationF, LastErrorF, GraceUntilF, JwtF, SignatureF});
    }

    /** Grace is over: the window's end is not among the columns written back. */
    method CloseGrace(state: State, now: Time, error: Note)
      requires state.settings == settings
      requires state.Snapshot() == Marked(stored, now, stored.status, error).(graceUntil := state.graceUntil)
      modifies state, this`stored
      ensures stored == Seal(settings, Marked(old(stored), now, Invalid, error), now)
      ensures state.status == Invalid && state.graceUntil == old(state.graceUntil)
    {
      state.status := Invalid;
      assert state.Snapshot() == Marked(stored, now, Invalid, error).(graceUntil := state.graceUntil);
      state.ApplyDomainBinding(now);
      state.TouchSignature();
      Save(state, {StatusF, LastValidationF, LastErrorF, JwtF, SignatureF});
    }

    method BeginActivation(now: Time, domain: string, productOverride: Option<string>) returns (state: State)
      ensures fresh(state) && state.settings == settings
              && state.Snapshot() == Begun(stored, now, domain, productOverride)
    {
      hide Strip;
      state := new State.Load(settings, stored);
      if productOverride.Some? {
        state.productOverride := Strip(productOverride.value);
      }
      if domain != "" {
        state.activatedDomain := Strip(domain);
      }
      state.activatedAt := Some(now);
      state.status := Inactive;
      state.lastError := NoNote;
    }

    method ActivateLicense(now: Time, purchaseCode: string, domain: string, productOverride: Option<string>,
                           gateway: ActivationReply, reply: Reply) returns (decision: Decision)
      modifies this
      ensures (Now(), decision) ==
              Activate(settings, old(Now()), now, purchaseCode, domain, productOverride, gateway, reply)
    {
      hide Strip;
      var state := BeginActivation(now, domain, productOverride);
      var code := Strip(purchaseCode);
      ghost var begun := state.Snapshot();
      cached := None;
      if !settings.gatewayConfigured {
        state.purchaseCode := code;
        state.activationToken := "";
        assert state.Snapshot() == begun.(purchaseCode := code, activationToken := "");
        state.TouchSignature();
        SaveAll(state);
        decision := ValidateLicense(now, true, reply);
        return;
      }
      decision := ActivateThroughGateway(state, now, code, gateway, reply);
    }

    method ActivateThroughGateway(state: State, now: Time, code: string, gateway: ActivationReply, reply: Reply)
      returns (decision: Decision)
      requires state.settings == settings && cached == None
      modifies state, this
      ensures (Now(), decision) == GatewayActivation(settings, old(state.Snapshot()), now, code, gateway, reply)
    {
      hide Strip, CodeShapeValid, Validate, Merged, Seal;
      if !CodeShapeValid(code) {
        RecordMalformedCode(state, now);
        return Denied(Invalid, LicenseInvalid, CodeMalformed);
      }
      if gateway.ActivationError? {
        RecordFailedActivation(state, now, code, gateway.message);
        if gateway.rateLimited {
          return Decision(false, Inactive, RateLimited, gateway.message, None, OrSixty(gateway.retryAfter));
        }
        return Denied(Inactive, ActivationFailed, gateway.message);
      }
      var token := Strip(gateway.data.activationToken);
      if token == "" {
        var error := if gateway.data.message != "" then FromServer(gateway.data.message) else NoTokenReturned;
        RecordFailedActivation(state, now, code, error);
        return Denied(Inactive, ActivationFailed, state.lastError);
      }
      RecordToken(state, now, token, gateway.data);
      cached := None;
      decision := ValidateLicense(now, true, reply);
    }

    method RecordMalformedCode(state: State, now: Time)
      requires state.settings == settings
      modifies state, this`stored
      ensures stored == Seal(settings, old(state.Snapshot()).(lastError := CodeMalformed), now)
    {
      hide Seal;
      ghost var begun := state.Snapshot();
      state.lastError := CodeMalformed;
      assert state.Snapshot() == begun.(lastError := CodeMalformed);
      SealAndSave(state, now);
    }

    method RecordFailedActivation(state: State, now: Time, code: string, error: Note)
      requires state.settings == settings
      modifies state, this`stored
      ensures state.lastError == error
      ensures var kept := old(state.Snapshot()).(purchaseCode := code, activationToken := "", lastError := error);
              stored == Seal(settings, kept, now)
    {
      hide Seal;
      ghost var begun := state.Snapshot();
      state.purchaseCode, state.activationToken, state.lastError := code, "", error;
      assert state.Snapshot() == begun.(purchaseCode := code, activationToken := "", lastError := error);
      SealLeavesOutcome(settings, state.Snapshot(), now);
      SealAndSave(state, now);
    }

    method RecordToken(state: State, now: Time, token: string, data: Payload)
      requires state.settings == settings
      modifies state, this`stored
      ensures var begun := old(state.Snapshot()).(purchaseCode := "", activationToken := token, lastError := NoNote);
              stored == Merged(settings, begun, data, now)
    {
      hide Merged;
      ghost var begun := state.Snapshot();
      state.purchaseCode, state.activationToken, state.lastError := "", token, NoNote;
      assert state.Snapshot() == begun.(purchaseCode := "", activationToken := token, lastError := NoNote);
      MergedIsSigned(settings, state.Snapshot(), data, now);
      state.MergeGatewayPayload(data, now);
      state.TouchSignature();
      SaveAll(state);
    }

    method SealAndSave(state: State, now: Time)
      requires state.settings == settings
      modifies state, this`stored
      ensures stored == state.Snapshot() == Seal(settings, old(state.Snapshot()), now)
    {
      state.ApplyDomainBinding(now);
      state.TouchSignature();
      SaveAll(state);
    }

    method ApplyHeartbeat(now: Time, data: Payload)
      modifies this
      ensures Now() == Heartbeat(settings, old(Now()), now, data)
    {
      if !data.ok {
        return;
      }
      var state := new State.Load(settings, stored);
      state.MergeGatewayPayload(data, now);
      state.ApplyDomainBinding(now);
      Save(state, {PlanTypeF, FeaturesF, LastContactF, JwtF, SignatureF});
      cached := None;
    }

    method OverrideProductId(now: Time, value: string, reply: Reply) returns (decision: Decision)
      modifies this
      ensures (Now(), decision) == OverrideProduct(settings, old(Now()), now, value, reply)
    {
      var state := new State.Load(settings, stored);
      state.productOverride := Strip(value);
      state.TouchSignature();
      Save(state, {ProductOverrideF, SignatureF});
      decision := ValidateLicense(now, true, reply);
    }
  }
}
