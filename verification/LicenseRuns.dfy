/** Whole runs of the licence client: what every reachable row and cached decision satisfies. */
module LicenseRuns {
  import opened Basics
  import opened Text
  import opened TtlCache
  import opened DomainTokens
  import opened LicenseState
  import opened LicenseService

  datatype Event =
    | Validation(now: Time, force: bool, reply: Reply)
    | Activation(now: Time, code: string, domain: string, productOverride: Option<string>, gateway: ActivationReply,
      reply: Reply)
    | HeartbeatAnswer(now: Time, data: Payload)
    | ProductOverride(now: Time, value: string, reply: Reply)
    | CacheInvalidation(now: Time)

  function Returning(r: (World, Decision)): (World, Option<Decision>) {
    (r.0, Some(r.1))
  }

  function Step(s: Settings, w: World, e: Event): (World, Option<Decision>) {
    match e
    case Validation(now, force, reply) => Returning(Validate(s, w, now, force, reply))
    case Activation(now, code, domain, productOverride, gateway, reply) =>
      Returning(Activate(s, w, now, code, domain, productOverride, gateway, reply))
    case HeartbeatAnswer(now, data) => (Heartbeat(s, w, now, data), None)
    case ProductOverride(now, value, reply) => Returning(OverrideProduct(s, w, now, value, reply))
    case CacheInvalidation(_) => (w.(cached := None), None)
  }

  /** The client after `events`, from a first start. */
  function Run(s: Settings, events: seq<Event>): World {
    if events == [] then World(PRISTINE, None)
    else Step(s, Run(s, events[..|events| - 1]), events[|events| - 1]).0
  }

  predicate Chronological(events: seq<Event>) {
    forall i, j :: 0 <= i <= j < |events| ==> events[i].now <= events[j].now
  }

  /** The decision the `i`-th operation returned, if it returns one. */
  function Returned(s: Settings, events: seq<Event>, i: nat): Option<Decision>
    requires i < |events|
  {
    Step(s, Run(s, events[..i]), events[i]).1
  }

  // ----- Which operations were accepted by the server -----

  /** The row on which the operation asks the server, when it gets that far. */
  function AskedAbout(s: Settings, w: World, e: Event): (asked: Option<Row>)
    ensures asked.Some? ==> !e.HeartbeatAnswer? && !e.CacheInvalidation?
  {
    match e
    case Validation(now, force, _) =>
      if ServedFromCache(w, now, force) then None else Some(w.row)
    case Activation(now, code, domain, productOverride, gateway, _) =>
      var begun := Begun(w.row, now, domain, productOverride);
      if !s.gatewayConfigured then Some(Signed(s, begun.(purchaseCode := Strip(code), activationToken := "")))
      else if CodeShapeValid(Strip(code)) && gateway.Activated? && Strip(gateway.data.activationToken) != "" then
        var token := Strip(gateway.data.activationToken);
        Some(Merged(s, begun.(purchaseCode := "", activationToken := token, lastError := NoNote), gateway.data, now))
      else None
    case ProductOverride(_, value, _) => Some(Signed(s, w.row.(productOverride := Strip(value))))
    case _ => None
  }

  /** The server was asked and answered that the licence is valid. */
  predicate Accepts(s: Settings, w: World, e: Event) {
    var asked := AskedAbout(s, w, e);
    asked.Some? && Contacts(s, asked.value) && e.reply.Answer? && e.reply.valid
  }

  predicate AcceptedAt(s: Settings, events: seq<Event>, i: nat)
    requires i < |events|
  {
    Accepts(s, Run(s, events[..i]), events[i])
  }

  function LastAccepted(s: Settings, events: seq<Event>): (r: Option<nat>)
    ensures r.Some? ==> r.value < |events|
  {
    if events == [] then None
    else
      var n := |events| - 1;
      if AcceptedAt(s, events, n) then Some(n) else LastAccepted(s, events[..n])
  }

  lemma {:induction false} LastAcceptedIsAccepted(s: Settings, events: seq<Event>)
    requires LastAccepted(s, events).Some?
    ensures AcceptedAt(s, events, LastAccepted(s, events).value)
  {
    var n := |events| - 1;
    if !AcceptedAt(s, events, n) {
      LastAcceptedIsAccepted(s, events[..n]);
      SamePrefix(s, events, n, LastAccepted(s, events).value);
    }
  }

  lemma SamePrefix(s: Settings, events: seq<Event>, n: nat, j: nat)
    requires j < n <= |events|
    ensures AcceptedAt(s, events[..n], j) == AcceptedAt(s, events, j)
  {
    assert events[..n][..j] == events[..j];
  }

  // ----- Invariants of one stored row and cached decision -----

  /** A binding token is stored exactly while licensed with a domain, and it is for this domain and plan. */
  predicate BindingExact(row: Row) {
    var dom := Strip(row.activatedDomain);
    if Licensed(row.status) && dom != "" then
      row.jwt.Token?
      && row.jwt.claims.dom == NormalizeDomain(dom)
      && row.jwt.claims.plan ==
         (if |row.planType| <= PLAN_CLAIM_LENGTH then row.planType else row.planType[..PLAN_CLAIM_LENGTH])
    else row.jwt == Blank
  }

  predicate CacheAgrees(w: World) {
    w.cached.Some? ==>
      var d := w.cached.value.value;
      d.status == w.row.status && (d.allow <==> Licensed(w.row.status))
  }

  predicate Consistent(s: Settings, w: World) {
    BindingExact(w.row) && CacheAgrees(w) && (SignatureCurrent(s, w.row) || (w.row == PRISTINE && w.cached == None))
  }

  /** How long a decision may stay in force, counted from the success at `from`. */
  predicate Covers(s: Settings, d: Decision, from: Time, expiresAt: real) {
    && (d.status == Active ==> expiresAt <= from + s.cacheTtl as real)
    && (d.status == Grace ==> expiresAt <= from + Hours(s.graceHours) + s.cacheTtl as real)
  }

  predicate CacheBacked(s: Settings, w: World) {
    w.cached.Some? && w.cached.value.value.allow ==>
      w.row.lastSuccessAt.Some?
      && Covers(s, w.cached.value.value, w.row.lastSuccessAt.value, w.cached.value.expiresAt)
  }

  // ----- One step keeps them -----

  lemma SealedIsExact(s: Settings, row: Row, now: Time)
    ensures BindingExact(Seal(s, row, now)) && SignatureCurrent(s, Seal(s, row, now))
  {
  }

  /** What any row and decision left behind by a validation satisfy. */
  predicate Sound(s: Settings, row: Row, d: Decision, now: Time) {
    && BindingExact(row) && SignatureCurrent(s, row)
    && d.status == row.status && (d.allow <==> Licensed(row.status))
    && (d.status == Active ==> row.lastSuccessAt == Some(now))
    && (d.status == Grace ==> row.lastSuccessAt.Some? && now <= row.lastSuccessAt.value + Hours(s.graceHours))
  }

  lemma AnsweredIsSound(s: Settings, row: Row, now: Time, valid: bool, data: Payload)
    ensures var (row', d) := Answered(s, row, now, valid, data);
            Sound(s, row', d, now) && row'.lastSuccessAt == if valid then Some(now) else row.lastSuccessAt
  {
    hide Strip, BindingExact, SignatureCurrent, Bound, NormalizePlan;
    var unsealed := if valid then Merged(s, Accepted(s, row, now, data), data, now)
                    else row.(status := Invalid, lastValidationAt := Some(now), lastError := NoNote,
                              graceUntil := Some(now as real));
    SealedIsExact(s, unsealed, now);
    SealKeeps(s, unsealed, now);
  }

  lemma OutageIsSound(s: Settings, row: Row, now: Time, err: Reply)
    requires err.ServerError?
    ensures var (row', d) := Outage(s, row, now, err);
            Sound(s, row', d, now) && row'.lastSuccessAt == row.lastSuccessAt
  {
    hide Strip, BindingExact, SignatureCurrent, Bound;
    var until :=
      if row.lastSuccessAt.Some? then Some(row.lastSuccessAt.value + Hours(s.graceHours)) else row.graceUntil;
    var grace := Marked(row, now, Grace, err.message).(graceUntil := until);
    var closed := Marked(row, now, Invalid, err.message);
    SealedIsExact(s, grace, now);
    SealKeeps(s, grace, now);
    SealedIsExact(s, closed, now);
    SealKeeps(s, closed, now);
  }

  lemma SealKeeps(s: Settings, row: Row, now: Time)
    ensures Seal(s, row, now).status == row.status && Seal(s, row, now).lastSuccessAt == row.lastSuccessAt
  {
  }

  /** Every validation that is not served from the cache leaves a sealed row and a decision that agrees with it. */
  lemma RefreshIsSound(s: Settings, row: Row, now: Time, reply: Reply)
    ensures var (row', d) := Refresh(s, row, now, reply);
            && Sound(s, row', d, now)
            && row'.lastSuccessAt == (if Contacts(s, row) && reply.Answer? && reply.valid then Some(now)
                                      else row.lastSuccessAt)
  {
    hide Strip, BindingExact, SignatureCurrent, Bound, Answered, Outage, CodeShapeValid, Seal;
    var missing := Marked(row, now, Inactive, CredentialsMissing);
    SealedIsExact(s, missing, now);
    SealKeeps(s, missing, now);
    var malformed := Marked(row, now, Invalid, CodeMalformed);
    SealedIsExact(s, malformed, now);
    SealKeeps(s, malformed, now);
    OutageIsSound(s, row, now, if reply.ServerError? && UrlConfigured(s) then reply else NOT_CONFIGURED);
    if reply.Answer? {
      AnsweredIsSound(s, row, now, reply.valid, reply.data);
    }
  }

  lemma ForcedStep(s: Settings, w: World, e: Event)
    requires AskedAbout(s, w, e).Some?
    ensures var (row', d) := Refresh(s, AskedAbout(s, w, e).value, e.now, e.reply);
            Step(s, w, e) == (World(row', Some(Entry(d, e.now + s.cacheTtl as real))), Some(d))
  {
    hide Strip, CodeShapeValid, Refresh, Merged, Signed;
  }

  lemma HeartbeatIsExact(s: Settings, row: Row, data: Payload, now: Time)
    ensures var row' := Bound(s, Merged(s, row, data, now), now);
            BindingExact(row') && SignatureCurrent(s, row') && row'.lastSuccessAt == row.lastSuccessAt
  {
    hide Strip, NormalizePlan;
  }

  /** A row that changed without a validation is sealed, and nothing stays cached for it. */
  predicate Dropped(s: Settings, w': World) {
    w'.cached.None? && BindingExact(w'.row) && SignatureCurrent(s, w'.row)
  }

  lemma AbortedActivation(s: Settings, w: World, e: Event)
    requires e.Activation? && AskedAbout(s, w, e).None?
    ensures var (w', d) := Step(s, w, e);
            Dropped(s, w') && w'.row.lastSuccessAt == w.row.lastSuccessAt && d.Some? && !d.value.allow
  {
    hide Strip, CodeShapeValid, BindingExact, SignatureCurrent, Bound, Merged, Refresh;
    var begun := Begun(w.row, e.now, e.domain, e.productOverride);
    var kept := begun.(purchaseCode := Strip(e.code), activationToken := "");
    var error := if e.gateway.ActivationError? then e.gateway.message
                 else if e.gateway.data.message != "" then FromServer(e.gateway.data.message) else NoTokenReturned;
    SealedIsExact(s, begun.(lastError := CodeMalformed), e.now);
    SealKeeps(s, begun.(lastError := CodeMalformed), e.now);
    SealedIsExact(s, kept.(lastError := error), e.now);
    SealKeeps(s, kept.(lastError := error), e.now);
  }

  /** A step that does not ask the server keeps the last success, and allows only by the live cached decision. */
  lemma UnaskedStep(s: Settings, w: World, e: Event)
    requires AskedAbout(s, w, e).None?
    ensures var (w', d) := Step(s, w, e);
            && w'.row.lastSuccessAt == w.row.lastSuccessAt
            && (w' == w || w' == w.(cached := None) || Dropped(s, w'))
            && (d.Some? && d.value.allow ==>
               w.cached.Some? && d.value == w.cached.value.value && e.now < w.cached.value.expiresAt)
  {
    hide Strip, CodeShapeValid, BindingExact, SignatureCurrent, Bound, Merged, Refresh, Activate;
    match e
    case HeartbeatAnswer(now, data) => HeartbeatIsExact(s, w.row, data, now);
    case Activation(_, _, _, _, _, _) => AbortedActivation(s, w, e);
    case _ =>
  }

  lemma StepKeepsConsistent(s: Settings, w: World, e: Event)
    requires Consistent(s, w)
    ensures Consistent(s, Step(s, w, e).0)
  {
    hide BindingExact, SignatureCurrent, Step, AskedAbout, Refresh;
    if AskedAbout(s, w, e).Some? {
      ForcedStep(s, w, e);
      RefreshIsSound(s, AskedAbout(s, w, e).value, e.now, e.reply);
    } else {
      UnaskedStep(s, w, e);
    }
  }

  lemma AskedKeepsLastSuccess(s: Settings, w: World, e: Event)
    requires AskedAbout(s, w, e).Some?
    ensures AskedAbout(s, w, e).value.lastSuccessAt == w.row.lastSuccessAt
  {
    hide Strip, CodeShapeValid, NormalizePlan;
  }

  lemma StepKeepsCacheBacked(s: Settings, w: World, e: Event)
    requires CacheBacked(s, w)
    ensures CacheBacked(s, Step(s, w, e).0)
    ensures Step(s, w, e).0.row.lastSuccessAt == if Accepts(s, w, e) then Some(e.now) else w.row.lastSuccessAt
  {
    hide BindingExact, SignatureCurrent, Step, AskedAbout, Refresh, Contacts;
    if AskedAbout(s, w, e).Some? {
      ForcedStep(s, w, e);
      RefreshIsSound(s, AskedAbout(s, w, e).value, e.now, e.reply);
      AskedKeepsLastSuccess(s, w, e);
    } else {
      UnaskedStep(s, w, e);
    }
  }

  // ----- Every run -----

  /** After every operation of every run the row is signed, bound and cached as described. */
  lemma {:induction false} EveryRunIsConsistent(s: Settings, events: seq<Event>)
    ensures Consistent(s, Run(s, events))
  {
    if events != [] {
      var n := |events| - 1;
      EveryRunIsConsistent(s, events[..n]);
      StepKeepsConsistent(s, Run(s, events[..n]), events[n]);
    }
  }

  /** The stored time of the last success is exactly the time of the last accepted operation. */
  lemma {:induction false} LastSuccessIsLastAccepted(s: Settings, events: seq<Event>)
    ensures CacheBacked(s, Run(s, events))
    ensures var last := LastAccepted(s, events);
            Run(s, events).row.lastSuccessAt == if last.Some? then Some(events[last.value].now) else None
  {
    if events != [] {
      var n := |events| - 1;
      LastSuccessIsLastAccepted(s, events[..n]);
      StepKeepsCacheBacked(s, Run(s, events[..n]), events[n]);
    }
  }

  /** `t` lies within what an acceptance at `from` pays for, given the status of the decision. */
  predicate PaidFor(s: Settings, st: Status, from: Time, t: Time) {
    && from <= t
    && (st == Active ==> t == from || t < from + s.cacheTtl as real)
    && (st == Grace ==> t <= from + Hours(s.graceHours) || t < from + Hours(s.graceHours) + s.cacheTtl as real)
  }

  // ----- What the acceptance was for -----

  predicate SameCredentials(a: Row, b: Row) {
    a.purchaseCode == b.purchaseCode && a.activationToken == b.activationToken
  }

  /** The row the server accepted at `j` had the credentials of `row`, and its domain or none yet. */
  predicate AcceptedFor(s: Settings, events: seq<Event>, j: nat, row: Row)
    requires j < |events|
  {
    var asked := AskedAbout(s, Run(s, events[..j]), events[j]);
    && asked.Some? && SameCredentials(asked.value, row)
    && (asked.value.activatedDomain == row.activatedDomain || asked.value.activatedDomain == "")
  }

  predicate NoActivation(events: seq<Event>, j: nat, i: nat)
    requires i < |events|
  {
    forall k :: j < k <= i ==> !events[k].Activation?
  }

  lemma {:induction false} LastAcceptedIsLast(s: Settings, events: seq<Event>, k: nat)
    requires LastAccepted(s, events).Some? && LastAccepted(s, events).value < k < |events|
    ensures !AcceptedAt(s, events, k)
  {
    var n := |events| - 1;
    hide Accepts, Run;
    if k < n {
      LastAcceptedIsLast(s, events[..n], k);
      SamePrefix(s, events, n, k);
    }
  }

  lemma AnsweredKeepsIdentity(s: Settings, row: Row, now: Time, valid: bool, data: Payload)
    ensures var row' := Answered(s, row, now, valid, data).0;
            && SameCredentials(row', row)
            && (row'.activatedDomain == row.activatedDomain || (valid && row.activatedDomain == ""))
  {
    hide Strip, NormalizePlan, SignatureOf;
  }

  lemma OutageKeepsIdentity(s: Settings, row: Row, now: Time, err: Reply)
    requires err.ServerError?
    ensures var row' := Outage(s, row, now, err).0;
            SameCredentials(row', row) && row'.activatedDomain == row.activatedDomain
  {
    hide Strip, SignatureOf, Issue;
  }

  lemma RefreshKeepsIdentity(s: Settings, row: Row, now: Time, reply: Reply)
    ensures var row' := Refresh(s, row, now, reply).0;
            && SameCredentials(row', row)
            && (row'.activatedDomain == row.activatedDomain
                || (Contacts(s, row) && reply.Answer? && reply.valid && row.activatedDomain == ""))
  {
    hide Strip, CodeShapeValid, Answered, Outage, SignatureOf, Issue;
    OutageKeepsIdentity(s, row, now, if reply.ServerError? && UrlConfigured(s) then reply else NOT_CONFIGURED);
    if reply.Answer? {
      AnsweredKeepsIdentity(s, row, now, reply.valid, reply.data);
    }
  }

  /** Only an activation changes the credentials, and only an acceptance fills in a missing domain. */
  lemma StepKeepsIdentity(s: Settings, w: World, e: Event)
    requires !e.Activation?
    ensures var row' := Step(s, w, e).0.row;
            && SameCredentials(row', w.row)
            && (row'.activatedDomain == w.row.activatedDomain || (Accepts(s, w, e) && w.row.activatedDomain == ""))
  {
    if e.HeartbeatAnswer? {
      HeartbeatKeepsIdentity(s, w.row, e.data, e.now);
    }
    hide Strip, Refresh, Bound, Merged, Contacts;
    var asked := AskedAbout(s, w, e);
    if asked.Some? {
      ForcedStep(s, w, e);
      RefreshKeepsIdentity(s, asked.value, e.now, e.reply);
    }
  }

  lemma HeartbeatKeepsIdentity(s: Settings, row: Row, data: Payload, now: Time)
    ensures var row' := Bound(s, Merged(s, row, data, now), now);
            SameCredentials(row', row) && row'.activatedDomain == row.activatedDomain
  {
    hide Strip, NormalizePlan, SignatureOf, Issue;
  }

  lemma AcceptanceIsForItsRow(s: Settings, events: seq<Event>, j: nat)
    requires j < |events| && AcceptedAt(s, events, j)
    ensures AcceptedFor(s, events, j, Run(s, events[..j + 1]).row)
  {
    hide Strip, Refresh, Step, AskedAbout, Contacts;
    var w, e := Run(s, events[..j]), events[j];
    assert events[..j + 1][..j] == events[..j] && events[..j + 1][j] == e;
    assert Run(s, events[..j + 1]) == Step(s, w, e).0;
    ForcedStep(s, w, e);
    RefreshKeepsIdentity(s, AskedAbout(s, w, e).value, e.now, e.reply);
  }

  lemma RunUnfolds(s: Settings, events: seq<Event>, i: nat)
    requires i < |events|
    ensures Run(s, events[..i + 1]) == Step(s, Run(s, events[..i]), events[i]).0
  {
    hide Step;
    assert events[..i + 1][..i] == events[..i] && events[..i + 1][i] == events[i];
  }

  lemma AcceptedForCarriesOver(s: Settings, events: seq<Event>, j: nat, row: Row, row': Row)
    requires j < |events| && AcceptedFor(s, events, j, row)
    requires SameCredentials(row', row) && row'.activatedDomain == row.activatedDomain
    ensures AcceptedFor(s, events, j, row')
  {
    hide AskedAbout, Run;
  }

  /** Until the next activation or acceptance the row stays what the acceptance at `j` was for. */
  lemma {:induction false} AcceptanceStaysForTheRow(s: Settings, events: seq<Event>, j: nat, i: nat)
    requires j <= i < |events| && AcceptedAt(s, events, j) && NoActivation(events, j, i)
    requires forall k :: j < k <= i ==> !AcceptedAt(s, events, k)
    ensures AcceptedFor(s, events, j, Run(s, events[..i + 1]).row)
  {
    if i == j {
      AcceptanceIsForItsRow(s, events, j);
    } else {
      AcceptanceStaysForTheRow(s, events, j, i - 1);
      assert !Accepts(s, Run(s, events[..i]), events[i]) by {
        assert !AcceptedAt(s, events, i);
      }
      hide Step, Accepts, AcceptedFor, AcceptedAt, Run, SameCredentials;
      RunUnfolds(s, events, i);
      var before := Run(s, events[..i]);
      StepKeepsIdentity(s, before, events[i]);
      AcceptedForCarriesOver(s, events, j, before.row, Run(s, events[..i + 1]).row);
    }
  }

  /**
   Without the gateway, an activation during an outage takes over the grace of whatever was accepted before: for any
   well-formed code and any domain the client runs in grace, and issues itself a binding token for that domain.
   */
  lemma ActivationInOutageBindsAnyDomain(s: Settings, w: World, now: Time, code: string, domain: string,
                                         gateway: ActivationReply, err: Reply)
    requires !s.gatewayConfigured && CodeShapeValid(Strip(code)) && Strip(domain) != "" && err.ServerError?
    requires w.row.lastSuccessAt.Some? && now <= w.row.lastSuccessAt.value + Hours(s.graceHours)
    ensures var (w', d) := Activate(s, w, now, code, domain, None, gateway, err);
            && d.allow && d.status == Grace && w'.row.purchaseCode == Strip(code)
            && w'.row.activatedDomain == Strip(domain) && w'.row.jwt.Token?
            && w'.row.jwt.claims.dom == NormalizeDomain(Strip(domain))
  {
    StripTrims(code);
    StripIsIdentityExactlyOnTrimmed(Strip(code));
    StripTrims(domain);
    StripIsIdentityExactlyOnTrimmed(Strip(domain));
    assert domain != "" && Strip(code) != "" && Strip("") == "";
    hide Strip, CodeShapeValid, NormalizeDomain, SignatureOf;
  }

  /**
   Every allow ever returned is backed by an acceptance: an active one is that very moment or younger
   than the cache timeout, a grace one is within the grace window plus the cache timeout. Unless there was an
   activation since, the acceptance was for the credentials and the domain the row still has.
   */
  lemma EveryAllowIsBacked(s: Settings, events: seq<Event>, i: nat)
    requires Chronological(events) && i < |events|
    requires Returned(s, events, i).Some? && Returned(s, events, i).value.allow
    ensures var d := Returned(s, events, i).value;
            && Licensed(d.status)
            && exists j :: 0 <= j <= i && AcceptedAt(s, events, j) && PaidFor(s, d.status, events[j].now, events[i].now)
                 && (NoActivation(events, j, i) ==> AcceptedFor(s, events, j, Run(s, events[..i + 1]).row))
  {
    hide BindingExact, SignatureCurrent, Step, AskedAbout, Refresh, Contacts, AcceptedAt, Strip, AcceptedFor;
    var before, e := events[..i], events[i];
    var w := Run(s, before);
    EveryRunIsConsistent(s, before);
    LastSuccessIsLastAccepted(s, before);
    var upTo := events[..i + 1];
    assert upTo[..i] == before && upTo[i] == e;
    LastSuccessIsLastAccepted(s, upTo);
    if AskedAbout(s, w, e).Some? {
      ForcedStep(s, w, e);
      RefreshIsSound(s, AskedAbout(s, w, e).value, e.now, e.reply);
    } else {
      UnaskedStep(s, w, e);
    }
    assert Run(s, upTo) == Step(s, w, e).0;
    LastAcceptedIsAccepted(s, upTo);
    var j := LastAccepted(s, upTo).value;
    SamePrefix(s, events, i + 1, j);
    if NoActivation(events, j, i) {
      forall k | j < k <= i ensures !AcceptedAt(s, events, k) {
        LastAcceptedIsLast(s, upTo, k);
        SamePrefix(s, events, i + 1, k);
      }
      AcceptanceStaysForTheRow(s, events, j, i);
    }
  }

  // ----- Exactly when a validation that asks allows -----

  /**
   A validation that is not served from the cache allows exactly on an acceptance or inside the grace window of
   an outage.
   */
  lemma FreshAllowIff(s: Settings, w: World, now: Time, force: bool, reply: Reply)
    requires !ServedFromCache(w, now, force)
    ensures Validate(s, w, now, force, reply).1.allow <==>
            var hasCredentials :=
              UsesToken(w.row) || (Strip(w.row.purchaseCode) != "" && CodeShapeValid(Strip(w.row.purchaseCode)));
            hasCredentials &&
            if UrlConfigured(s) && reply.Answer? then reply.valid
            else w.row.lastSuccessAt.Some? && now <= w.row.lastSuccessAt.value + Hours(s.graceHours)
  {
  }

  /**
   A refusal does not end the grace window: after acceptance, refusal and outage, in that order, the
   outage is allowed exactly while the first acceptance is within its grace hours.
   */
  lemma RefusalThenOutage(s: Settings, w: World, t0: Time, t1: Time, t2: Time, data: Payload, refusal: Payload,
      err: Reply)
    requires Contacts(s, w.row) && err.ServerError?
    ensures var w1 := Validate(s, w, t0, true, Answer(true, data)).0;
            var w2 := Validate(s, w1, t1, true, Answer(false, refusal)).0;
            w2.row.status == Invalid &&
            (Validate(s, w2, t2, true, err).1.allow <==> t2 <= t0 + Hours(s.graceHours))
  {
  }

  /** A closed grace window is reported with its end, while the stored end stays what it was. */
  lemma ClosedGraceIsNotWrittenBack(s: Settings, w: World, now: Time, err: Reply)
    requires Contacts(s, w.row) && err.ServerError? && w.row.lastSuccessAt.Some?
    requires now > w.row.lastSuccessAt.value + Hours(s.graceHours)
    ensures var (w', d) := Validate(s, w, now, true, err);
            w'.row.graceUntil == w.row.graceUntil && w'.row.status == Invalid
            && d.graceUntil == Some(w.row.lastSuccessAt.value + Hours(s.graceHours))
  {
  }
}
