/**
 Licence enforcement on a request: the decision, the domain binding with one re-issue of an expired
 token, and the tiers for a stale gateway contact.
 */
module Middleware {
  import opened Basics
  import opened Text
  import opened DomainTokens
  import LS = LicenseState
  import opened LicenseService
  import LR = LicenseRuns

  const API_PREFIX := "/api/"
  const EXEMPT_PREFIXES := [
    "/api/setup/", "/api/auth/login/", "/api/auth/signup/", "/api/auth/token/", "/api/auth/token/refresh/",
    "/api/license/", "/api/license-registry/", "/api/schema/", "/api/docs/", "/api/redoc/"]

  datatype Tier = Warn | ReadOnly | AdminOnly

  datatype Rejection = DomainMismatched | ReadOnlyTier | AdminOnlyTier | LicenceDenied(code: ErrorCode)

  datatype Response = Admitted | Rejected(why: Rejection)

  /** The parts of a request that enforcement reads. */
  datatype Facts = Facts(path: string, host: string, safeMethod: bool, authenticated: bool, developer: bool)

  /** Headers that enforcement sets for the views behind it. */
  datatype Marks = Marks(grace: bool, stale: bool)

  class Request {
    const facts: Facts
    var refreshTried: bool
    var marks: Marks

    constructor (f: Facts)
      ensures facts == f && !refreshTried && marks == Marks(false, false)
    {
      facts := f;
      refreshTried := false;
      marks := Marks(false, false);
    }
  }

  predicate Gated(f: Facts) {
    API_PREFIX <= f.path && (forall i :: 0 <= i < |EXEMPT_PREFIXES| ==> !(EXEMPT_PREFIXES[i] <= f.path))
      && f.authenticated
  }

  /** How stale the last gateway contact is, for an active licence only. */
  function StaleTier(s: LS.Settings, row: LS.Row, now: Time): Option<Tier> {
    if !s.enforcement || !s.staleEnforcement || row.status != LS.Active || row.lastContactAt.None? then None
    else
      var days := (now - row.lastContactAt.value) / 86400.0;
      if days <= 0.0 then None
      else if days <= s.warnDays then Some(Warn)
      else if days <= s.readonlyDays then Some(ReadOnly)
      else Some(AdminOnly)
  }

  // ----- Specification -----

  /** The row after issuing a missing token for a licensed row with a domain. */
  function WithToken(s: LS.Settings, row: LS.Row, now: Time): LS.Row {
    var dom := Strip(row.activatedDomain);
    if row.jwt == Blank && dom != "" then row.(jwt := Issue(s.jwtTtlHours, dom, row.planType, now)) else row
  }

  function CheckBinding(s: LS.Settings, w: World, now: Time, host: string, tried: bool, reply: Reply): (World, bool) {
    if !s.domainBinding || !s.enforcement || !LS.Licensed(w.row.status) then (w, true)
    else
      var w1 := w.(row := WithToken(s, w.row, now));
      var verdict := Verify(w1.row.jwt, host, now);
      if verdict == Expired && !tried then
        var w2 := Validate(s, w1.(cached := None), now, true, reply).0;
        (w2, Verify(w2.row.jwt, host, now) == Verified)
      else (w1, verdict == Verified)
  }

  /** The token a request is checked against has expired. */
  predicate TokenExpired(s: LS.Settings, w: World, now: Time, host: string) {
    && s.domainBinding && s.enforcement && LS.Licensed(w.row.status)
    && Verify(WithToken(s, w.row, now).jwt, host, now) == Expired
  }

  function Process(s: LS.Settings, w: World, now: Time, f: Facts, tried: bool, first: Reply, second: Reply): (World,
      Response) {
    if !s.enforcement || !Gated(f) then (w, Admitted)
    else
      var (w1, d) := Validate(s, w, now, false, first);
      if !d.allow then (w1, Rejected(LicenceDenied(if d.errorCode == NoError then LicenseInvalid else d.errorCode)))
      else
        var (w2, bound) := CheckBinding(s, w1, now, f.host, tried, second);
        if !bound then (w2, Rejected(DomainMismatched))
        else
          var tier := if d.status == LS.Grace then None else StaleTier(s, w2.row, now);
          if tier == Some(ReadOnly) && !f.safeMethod then (w2, Rejected(ReadOnlyTier))
          else if tier == Some(AdminOnly) && !f.developer then (w2, Rejected(AdminOnlyTier))
          else (w2, Admitted)
  }

  /** An admitted request is marked for a grace licence, or for a contact that is becoming stale. */
  function MarksAfter(s: LS.Settings, w: World, now: Time, f: Facts, tried: bool, first: Reply, second: Reply,
      m: Marks): Marks {
    var (w', response) := Process(s, w, now, f, tried, first, second);
    if !s.enforcement || !Gated(f) || response != Admitted then m
    else if Validate(s, w, now, false, first).1.status == LS.Grace then m.(grace := true)
    else if StaleTier(s, w'.row, now) == Some(Warn) then m.(stale := true)
    else m
  }

  // ----- The middleware -----

  method VerifyDomainBinding(service: Service, request: Request, now: Time, reply: Reply) returns (ok: bool)
    modifies service, request`refreshTried
    ensures (service.Now(), ok) ==
            CheckBinding(service.settings, old(service.Now()), now, request.facts.host, old(request.refreshTried),
              reply)
    ensures request.refreshTried <==>
            old(request.refreshTried) || TokenExpired(service.settings, old(service.Now()), now, request.facts.host)
  {
    hide Strip, Verify, Issue, Refresh;
    var s := service.settings;
    if !s.domainBinding || !s.enforcement {
      return true;
    }
    var state := new LS.State.Load(s, service.stored);
    if state.status != LS.Active && state.status != LS.Grace {
      return true;
    }
    var dom := Strip(state.activatedDomain);
    if state.jwt == Blank && dom != "" {
      state.jwt := Issue(s.jwtTtlHours, dom, state.planType, now);
      service.Save(state, {LS.JwtF, LS.SignatureF});
    }
    var verdict := Verify(state.jwt, request.facts.host, now);
    if verdict == Expired && !request.refreshTried {
      request.refreshTried := true;
      service.InvalidateCache();
      var _ := service.ValidateLicense(now, true, reply);
      return Verify(service.stored.jwt, request.facts.host, now) == Verified;
    }
    ok := verdict == Verified;
  }

  method ProcessRequest(service: Service, request: Request, now: Time, first: Reply,
      second: Reply) returns (response: Response)
    modifies service, request
    ensures (service.Now(), response) ==
            Process(service.settings, old(service.Now()), now, request.facts, old(request.refreshTried), first, second)
    ensures request.marks ==
            MarksAfter(service.settings, old(service.Now()), now, request.facts, old(request.refreshTried), first,
              second, old(request.marks))
    ensures old(request.refreshTried) ==> request.refreshTried
    ensures request.refreshTried && !old(request.refreshTried) ==>
              var (w1, d) := Validate(service.settings, old(service.Now()), now, false, first);
              d.allow && TokenExpired(service.settings, w1, now, request.facts.host)
  {
    hide Strip, Gated, Validate, CheckBinding, Refresh, TokenExpired;
    var s := service.settings;
    if !s.enforcement || !Gated(request.facts) {
      return Admitted;
    }
    var decision := service.ValidateLicense(now, false, first);
    if decision.allow {
      var bound := VerifyDomainBinding(service, request, now, second);
      if !bound {
        return Rejected(DomainMismatched);
      }
      if decision.status == LS.Grace {
        request.marks := request.marks.(grace := true);
      } else {
        var tier := StaleTier(s, service.stored, now);
        if tier == Some(Warn) {
          request.marks := request.marks.(stale := true);
        } else if tier == Some(ReadOnly) {
          if !request.facts.safeMethod {
            return Rejected(ReadOnlyTier);
          }
        } else if tier == Some(AdminOnly) {
          if !request.facts.developer {
            return Rejected(AdminOnlyTier);
          }
        }
      }
      return Admitted;
    }
    response := Rejected(LicenceDenied(if decision.errorCode == NoError then LicenseInvalid else decision.errorCode));
  }

  // ----- What admission guarantees -----

  /** A validation step of the client is a step of its runs. */
  lemma ValidateKeepsConsistent(s: LS.Settings, w: World, now: Time, force: bool, reply: Reply)
    requires LR.Consistent(s, w)
    ensures var (w', d) := Validate(s, w, now, force, reply);
            LR.Consistent(s, w') && (d.allow ==> LS.Licensed(w'.row.status))
  {
    hide Strip, LR.BindingExact, LS.SignatureCurrent, Refresh;
    LR.StepKeepsConsistent(s, w, LR.Validation(now, force, reply));
    if !ServedFromCache(w, now, force) {
      LR.RefreshIsSound(s, w.row, now, reply);
    }
  }

  /** In a consistent row nothing is missing, so no token is ever issued outside a licence operation. */
  lemma TokenNeverMissing(s: LS.Settings, w: World, now: Time)
    requires LR.Consistent(s, w) && LS.Licensed(w.row.status)
    ensures WithToken(s, w.row, now) == w.row
  {
    hide Strip, Issue, NormalizeDomain;
  }

  /** A verified token of a consistent row names the row's own domain. */
  lemma VerifiedMeansRowDomain(s: LS.Settings, w: World, host: string, now: Time)
    requires LR.Consistent(s, w) && Verify(w.row.jwt, host, now) == Verified
    ensures var dom := Strip(w.row.activatedDomain);
            && LS.Licensed(w.row.status) && dom != ""
            && NormalizeDomain(host) == NormalizeDomain(NormalizeDomain(dom)) && NormalizeDomain(host) != ""
  {
    hide Strip, NormalizeDomain, LS.SignatureCurrent;
  }

  lemma CheckBindingIsSound(s: LS.Settings, w: World, now: Time, host: string, tried: bool, reply: Reply)
    requires LR.Consistent(s, w) && s.domainBinding && s.enforcement && LS.Licensed(w.row.status)
    ensures var (w', ok) := CheckBinding(s, w, now, host, tried, reply);
            LR.Consistent(s, w') && (ok <==> Verify(w'.row.jwt, host, now) == Verified)
  {
    hide Strip, Verify, LR.BindingExact, LS.SignatureCurrent, Validate, WithToken;
    TokenNeverMissing(s, w, now);
    ValidateKeepsConsistent(s, w.(cached := None), now, true, reply);
  }

  /**
   After any history, a gated request is admitted only on a host that normalises to the row's own domain,
   normalised twice. That is the domain's own normal form exactly when the domain exposes no space. A request is
   turned away for its host only if the stored token does not verify there.
   */
  lemma {:induction false} AdmittedHostIsTheLicensedDomain(s: LS.Settings, past: seq<LR.Event>, now: Time, f: Facts,
      tried: bool, first: Reply, second: Reply)
    requires s.enforcement && s.domainBinding && Gated(f)
    ensures var (w', response) := Process(s, LR.Run(s, past), now, f, tried, first, second);
            var dom := Strip(w'.row.activatedDomain);
            && LR.Consistent(s, w')
            && (response == Admitted ==>
                && LS.Licensed(w'.row.status)
                && NormalizeDomain(f.host) != "" && NormalizeDomain(f.host) == NormalizeDomain(NormalizeDomain(dom))
                && (NormalizeDomain(f.host) == NormalizeDomain(dom) <==> !ExposesSpace(dom)))
            && (response == Rejected(DomainMismatched) ==> Verify(w'.row.jwt, f.host, now) != Verified)
  {
    hide Strip, Verify, LR.BindingExact, LS.SignatureCurrent, Validate, CheckBinding, Gated, LR.Run, NormalizeDomain,
         ExposesSpace, StaleTier;
    var w := LR.Run(s, past);
    LR.EveryRunIsConsistent(s, past);
    ValidateKeepsConsistent(s, w, now, false, first);
    var (w1, d) := Validate(s, w, now, false, first);
    if d.allow {
      CheckBindingIsSound(s, w1, now, f.host, tried, second);
      var (w2, ok) := CheckBinding(s, w1, now, f.host, tried, second);
      if ok {
        VerifiedMeansRowDomain(s, w2, f.host, now);
        var dom := Strip(w2.row.activatedDomain);
        NormalizeIdempotentIff(dom);
      }
    }
  }

  /** A row that a validation leaves licensed carries a token issued at that moment for its domain. */
  lemma SealIssues(s: LS.Settings, row: LS.Row, now: Time)
    ensures var row' := Seal(s, row, now);
            && row'.activatedDomain == row.activatedDomain && row'.status == row.status && row'.planType == row.planType
            && (LS.Licensed(row.status) && Strip(row.activatedDomain) != "" ==>
                  row'.jwt == Issue(s.jwtTtlHours, Strip(row.activatedDomain), row.planType, now))
  {
    hide Strip, Issue, LS.SignatureOf;
  }

  lemma RefreshIssues(s: LS.Settings, row: LS.Row, now: Time, reply: Reply)
    requires Strip(row.activatedDomain) != ""
    ensures var (row', d) := Refresh(s, row, now, reply);
            && row'.activatedDomain == row.activatedDomain
            && (d.allow ==> row'.jwt == Issue(s.jwtTtlHours, Strip(row.activatedDomain), row'.planType, now))
  {
    hide Issue, Seal, CodeShapeValid, Answered, Outage;
    assert row.activatedDomain != "";
    hide Strip;
    if !UsesToken(row) && Strip(row.purchaseCode) == "" {
      SealIssues(s, Marked(row, now, LS.Inactive, LS.CredentialsMissing), now);
    } else if !UsesToken(row) && !CodeShapeValid(Strip(row.purchaseCode)) {
      SealIssues(s, Marked(row, now, LS.Invalid, LS.CodeMalformed), now);
    } else if UrlConfigured(s) && reply.Answer? {
      AnsweredIssues(s, row, now, reply.valid, reply.data);
    } else {
      OutageIssues(s, row, now, if UrlConfigured(s) then reply else NOT_CONFIGURED);
    }
  }

  lemma AnsweredIssues(s: LS.Settings, row: LS.Row, now: Time, valid: bool, data: LS.Payload)
    requires row.activatedDomain != "" && Strip(row.activatedDomain) != ""
    ensures var (row', d) := Answered(s, row, now, valid, data);
            && row'.activatedDomain == row.activatedDomain
            && (d.allow ==> row'.jwt == Issue(s.jwtTtlHours, Strip(row.activatedDomain), row'.planType, now))
  {
    hide Issue, Seal, Strip, LS.NormalizePlan;
    SealIssues(s, if valid then LS.Merged(s, Accepted(s, row, now, data), data, now)
                  else row.(status := LS.Invalid, lastValidationAt := Some(now), lastError := LS.NoNote,
                            graceUntil := Some(now as real)), now);
  }

  lemma OutageIssues(s: LS.Settings, row: LS.Row, now: Time, err: Reply)
    requires err.ServerError? && Strip(row.activatedDomain) != ""
    ensures var (row', d) := Outage(s, row, now, err);
            && row'.activatedDomain == row.activatedDomain
            && (d.allow ==> row'.jwt == Issue(s.jwtTtlHours, Strip(row.activatedDomain), row'.planType, now))
  {
    hide Issue, Seal, Strip;
    var until :=
      if row.lastSuccessAt.Some? then Some(row.lastSuccessAt.value + Hours(s.graceHours)) else row.graceUntil;
    SealIssues(s, Marked(row, now, LS.Grace, err.message).(graceUntil := until), now);
    SealIssues(s, Marked(row, now, LS.Invalid, err.message), now);
  }

  /** On the licensed host the binding check fails only when the token has expired and validating again denies. */
  lemma LicensedHostIsBlockedOnlyByDenial(s: LS.Settings, w: World, now: Time, host: string, reply: Reply)
    requires LR.Consistent(s, w) && s.domainBinding && s.enforcement && LS.Licensed(w.row.status)
    requires var dom := Strip(w.row.activatedDomain);
             dom != "" && NormalizeDomain(host) != "" && NormalizeDomain(host) == NormalizeDomain(NormalizeDomain(dom))
    ensures CheckBinding(s, w, now, host, false, reply).1 <==>
            Verify(w.row.jwt, host, now) == Verified || Validate(s, w.(cached := None), now, true, reply).1.allow
  {
    var dom := Strip(w.row.activatedDomain);
    TokenNeverMissing(s, w, now);
    RefreshIssues(s, w.row, now, reply);
    LR.RefreshIsSound(s, w.row, now, reply);
    IssuedTokenLifetime(s.jwtTtlHours, dom, Refresh(s, w.row, now, reply).0.planType, now, host, now);
    assert Verify(w.row.jwt, host, now) == Verified || Verify(w.row.jwt, host, now) == Expired;
    hide Strip, Issue, NormalizeDomain, Refresh, LR.Consistent, WithToken;
  }

  // ----- Exactly which requests are admitted -----

  /** The prefixes under which the API is open without a licence. */
  predicate OpenPath(path: string) {
    || "/api/setup/" <= path || "/api/auth/login/" <= path || "/api/auth/signup/" <= path
    || "/api/auth/token/" <= path || "/api/auth/token/refresh/" <= path || "/api/license/" <= path
    || "/api/license-registry/" <= path || "/api/schema/" <= path || "/api/docs/" <= path || "/api/redoc/" <= path
  }

  /** Enforcement looks at authenticated requests to the API outside these ten prefixes. */
  lemma GatedIff(f: Facts)
    ensures Gated(f) <==> "/api/" <= f.path && !OpenPath(f.path) && f.authenticated
  {
    var all := EXEMPT_PREFIXES;
    assert all[0] == "/api/setup/" && all[1] == "/api/auth/login/" && all[2] == "/api/auth/signup/";
    assert all[3] == "/api/auth/token/" && all[4] == "/api/auth/token/refresh/" && all[5] == "/api/license/";
    assert all[6] == "/api/license-registry/" && all[7] == "/api/schema/" && all[8] == "/api/docs/";
    assert all[9] == "/api/redoc/";
  }

  /** Every other request passes without a look at the licence. */
  lemma OthersPassUntouched(s: LS.Settings, w: World, now: Time, f: Facts, tried: bool, first: Reply, second: Reply,
                            m: Marks)
    requires !s.enforcement || !f.authenticated || !("/api/" <= f.path) || OpenPath(f.path)
    ensures Process(s, w, now, f, tried, first, second) == (w, Admitted)
            && MarksAfter(s, w, now, f, tried, first, second, m) == m
  {
    GatedIff(f);
    hide Validate, CheckBinding, StaleTier, Gated, OpenPath;
  }

  /**
   An active licence serves a request when the gateway was heard of within the warning limit, for reading also within
   the read-only limit, and past that for developers alone.
   */
  predicate RecentEnough(s: LS.Settings, row: LS.Row, now: Time, f: Facts) {
    s.staleEnforcement && row.status == LS.Active && row.lastContactAt.Some? && row.lastContactAt.value < now ==>
      var days := (now - row.lastContactAt.value) / 86400.0;
      days <= s.warnDays || (if days <= s.readonlyDays then f.safeMethod else f.developer)
  }

  /** The binding check asks the server once more, exactly for an expired token and only the first time. */
  lemma ExpiredTokenAsksOnce(s: LS.Settings, w: World, now: Time, host: string, tried: bool, reply: Reply)
    requires LR.Consistent(s, w) && s.domainBinding && s.enforcement && LS.Licensed(w.row.status)
    ensures CheckBinding(s, w, now, host, tried, reply).0 ==
            if Verify(w.row.jwt, host, now) == Expired && !tried then Validate(s, w, now, true, reply).0 else w
  {
    TokenNeverMissing(s, w, now);
    hide Strip, Verify, LR.Consistent, WithToken, Refresh;
  }

  /**
   After any history a request to the gated API is admitted exactly when the decision allows it, the token the row
   then holds verifies on its host, and the gateway was heard of recently enough for it. Otherwise the first of these
   that fails is the reason, and the request is marked only when it is admitted.
   */
  lemma {:induction false} AdmittedIff(s: LS.Settings, past: seq<LR.Event>, now: Time, f: Facts, tried: bool,
                                       first: Reply, second: Reply, m: Marks)
    requires s.enforcement && "/api/" <= f.path && !OpenPath(f.path) && f.authenticated
    ensures var w := LR.Run(s, past);
            var (w', response) := Process(s, w, now, f, tried, first, second);
            var d := Validate(s, w, now, false, first).1;
            var verified := !s.domainBinding || Verify(w'.row.jwt, f.host, now) == Verified;
            var recent := d.status == LS.Grace || RecentEnough(s, w'.row, now, f);
            && (response == Admitted <==> d.allow && verified && recent)
            && (response.Rejected? && response.why.LicenceDenied? <==> !d.allow)
            && (response == Rejected(DomainMismatched) <==> d.allow && !verified)
            && (response == Rejected(ReadOnlyTier) || response == Rejected(AdminOnlyTier) <==>
                  d.allow && verified && !recent)
            && (response == Rejected(ReadOnlyTier) ==> !f.safeMethod)
            && (response == Rejected(AdminOnlyTier) ==> !f.developer)
            && (!d.allow ==>
                  && w' == Validate(s, w, now, false, first).0
                  && response.why.code == if d.errorCode == NoError then LicenseInvalid else d.errorCode)
  {
    GatedIff(f);
    hide Strip, Verify, LR.BindingExact, LS.SignatureCurrent, Validate, CheckBinding, Gated, OpenPath, LR.Run;
    var w := LR.Run(s, past);
    LR.EveryRunIsConsistent(s, past);
    ValidateKeepsConsistent(s, w, now, false, first);
    var (w1, d) := Validate(s, w, now, false, first);
    if d.allow && s.domainBinding {
      CheckBindingIsSound(s, w1, now, f.host, tried, second);
    } else {
      BindingOff(s, w1, now, f.host, tried, second);
    }
  }

  lemma BindingOff(s: LS.Settings, w: World, now: Time, host: string, tried: bool, reply: Reply)
    ensures !s.domainBinding ==> CheckBinding(s, w, now, host, tried, reply) == (w, true)
  {
  }

  /** The headers of a gated request: set only on admission, one for grace, one for a contact that has aged. */
  lemma MarkedIff(s: LS.Settings, w: World, now: Time, f: Facts, tried: bool, first: Reply, second: Reply, m: Marks)
    requires s.enforcement && "/api/" <= f.path && !OpenPath(f.path) && f.authenticated
    ensures var (w', response) := Process(s, w, now, f, tried, first, second);
            var grace := Validate(s, w, now, false, first).1.status == LS.Grace;
            var aged := && s.staleEnforcement && w'.row.status == LS.Active && w'.row.lastContactAt.Some?
                        && w'.row.lastContactAt.value < now <= w'.row.lastContactAt.value + 86400.0 * s.warnDays;
            MarksAfter(s, w, now, f, tried, first, second, m) ==
            Marks(m.grace || (response == Admitted && grace), m.stale || (response == Admitted && !grace && aged))
  {
    GatedIff(f);
    var row := Process(s, w, now, f, tried, first, second).0.row;
    assert StaleTier(s, row, now) == Some(Warn) <==>
           s.staleEnforcement && row.status == LS.Active && row.lastContactAt.Some?
             && row.lastContactAt.value < now <= row.lastContactAt.value + 86400.0 * s.warnDays;
    assert m == Marks(m.grace, m.stale);
    hide Validate, CheckBinding, Gated, OpenPath, Process, StaleTier;
  }

  /**
   Behind an active licence, writes need a contact within the warning limit, or a developer past the read-only
   limit; anyone else needs one within either limit.
   */
  lemma StaleContactLimits(s: LS.Settings, w: World, now: Time, f: Facts, tried: bool, first: Reply, second: Reply)
    requires s.enforcement && s.staleEnforcement && Gated(f)
    requires Process(s, w, now, f, tried, first, second).1 == Admitted
    requires Validate(s, w, now, false, first).1.status != LS.Grace
    ensures var row := Process(s, w, now, f, tried, first, second).0.row;
            row.status == LS.Active && row.lastContactAt.Some? && row.lastContactAt.value < now ==>
              var days := (now - row.lastContactAt.value) / 86400.0;
              && (f.safeMethod || days <= s.warnDays || (f.developer && s.readonlyDays < days))
              && (f.developer || days <= s.warnDays || days <= s.readonlyDays)
  {
    hide Strip, Validate, CheckBinding, Gated;
  }
}
