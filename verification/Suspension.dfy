/**
 The licence client composed with the registry it asks: an accepted activation makes the client active,
 and once an installation is suspended the client that holds its token is refused, at the latest when
 the decision it had cached runs out.
 */
module Suspension {
  import opened Basics
  import opened Text
  import opened TtlCache
  import LS = LicenseState
  import opened LicenseService
  import LR = LicenseRuns
  import Registry
  import RR = RegistryRuns

  datatype System = System(client: World, tables: Registry.Tables)

  /**
   What the gateway yields when the client asks it: an outage in which nothing comes back, or an answer. The answer
   about a token is the registry's, to which the client tells its version; the answer about a purchase code, which
   the registry asks the marketplace for, is arbitrary.
   */
  datatype Network =
    | Answering(version: string, byCode: bool, data: LS.Payload)
    | Down(message: LS.Note, rateLimited: bool, retryAfter: Option<int>)

  /**
   What the client and the rest of the world do after the suspension. A heartbeat whose answer is lost is one at
   the registry, and an activation the client attempts ends as `gateway` says.
   */
  datatype Event =
    | Validates(now: Time, force: bool, net: Network)
    | Overrides(now: Time, value: string, net: Network)
    | Beats(now: Time, domain: string, version: string, data: LS.Payload)
    | Attempts(now: Time, code: string, domain: string, productOverride: Option<string>, gateway: ActivationReply,
               net: Network)
    | Invalidates(now: Time)
    | AtRegistry(now: Time, event: RR.Event)

  function Secret(w: World): string {
    Strip(w.row.activationToken)
  }

  /** `bool(valid or status in {"active", "valid"})` as the client reads an answer. */
  predicate ReadAsValid(answer: Registry.TokenAnswer)
    requires answer.TokenAnswer?
  {
    answer.valid || answer.status == Registry.Shown(Registry.Active)
  }

  /** The gateway answering a validation of this row by its token; everything but validity is arbitrary. */
  function GatewayReply(c: Registry.Config, t: Registry.Tables, row: LS.Row, version: string, now: Time,
                        data: LS.Payload): Reply
  {
    var token, domain := Strip(row.activationToken), Strip(row.activatedDomain);
    var answer := Registry.ValidateByToken(c, t, token, domain, version, now);
    if answer.Crashed? then ServerError(LS.ServerFailed, false, None) else Answer(ReadAsValid(answer), data)
  }

  function ReplyOver(c: Registry.Config, t: Registry.Tables, row: LS.Row, now: Time, net: Network): Reply {
    match net
    case Answering(version, byCode, data) =>
      if UsesToken(row) then GatewayReply(c, t, row, version, now, data) else Answer(byCode, data)
    case Down(message, rateLimited, retryAfter) => ServerError(message, rateLimited, retryAfter)
  }

  function Step(s: LS.Settings, c: Registry.Config, sys: System, e: Event): (System, Option<Decision>) {
    match e
    case Validates(now, force, net) =>
      var (w, d) := Validate(s, sys.client, now, force, ReplyOver(c, sys.tables, sys.client.row, now, net));
      (sys.(client := w), Some(d))
    case Overrides(now, value, net) =>
      var (w, d) := OverrideProduct(s, sys.client, now, value, ReplyOver(c, sys.tables, sys.client.row, now, net));
      (sys.(client := w), Some(d))
    case Beats(now, domain, version, data) =>
      var k := Registry.FindToken(sys.tables.installations, Registry.TokenHash(c, Secret(sys.client)));
      var r := Registry.HeartbeatTables(c, sys.tables, Secret(sys.client), domain, version, now);
      if r.Refused? then (sys, None)
      else if Registry.VersionCrashes(c, version) then (sys.(tables := r.value), None)
      else (System(Heartbeat(s, sys.client, now, data.(ok := !sys.tables.installations[k].suspended)), r.value), None)
    case Attempts(now, code, domain, productOverride, gateway, net) =>
      var attempt := LR.Activation(now, code, domain, productOverride, gateway, Answer(false, LS.NO_PAYLOAD));
      var asked := LR.AskedAbout(s, sys.client, attempt);
      var reply := if asked.Some? then ReplyOver(c, sys.tables, asked.value, now, net) else attempt.reply;
      var (w, d) := Activate(s, sys.client, now, code, domain, productOverride, gateway, reply);
      (sys.(client := w), Some(d))
    case Invalidates(_) => (sys.(client := sys.client.(cached := None)), None)
    case AtRegistry(_, event) => (sys.(tables := RR.Step(c, sys.tables, event)), None)
  }

  function Run(s: LS.Settings, c: Registry.Config, start: System, events: seq<Event>): System {
    if events == [] then start
    else Step(s, c, Run(s, c, start, events[..|events| - 1]), events[|events| - 1]).0
  }

  /** The client never gets to ask for an activation: the code it attempts one with is malformed. */
  predicate KeepsToken(e: Event) {
    e.Attempts? ==> !CodeShapeValid(Strip(e.code))
  }

  /** Nobody lifts the suspension of row `k`, the registry never issues `secret` again, and the client keeps it. */
  predicate Allowed(e: Event, k: nat, secret: string) {
    && KeepsToken(e)
    && (e.AtRegistry? ==>
          && (e.event.Reactivate? ==> e.event.row != k)
          && (e.event.Activate? ==> e.event.token != secret))
  }

  /** The gateway answers, if the client asks it, and can read the version the client tells it. */
  predicate Answered(c: Registry.Config, e: Event) {
    e.Validates? || e.Overrides? ==> e.net.Answering? && !Registry.VersionCrashes(c, e.net.version)
  }

  predicate Forced(e: Event) {
    e.Overrides? || (e.Validates? && e.force)
  }

  predicate Chronological(events: seq<Event>, from: Time) {
    && (forall i :: 0 <= i < |events| ==> from <= events[i].now)
    && (forall i, j :: 0 <= i <= j < |events| ==> events[i].now <= events[j].now)
  }

  // ----- The invariant after the suspension -----

  /** No row but a suspended row `k` answers to the hash. */
  predicate OnlySuspendedRow(rows: seq<Registry.Installation>, hash: string, k: nat) {
    k < |rows| && forall j :: 0 <= j < |rows| && rows[j].tokenHash == hash ==> j == k && rows[j].suspended
  }

  predicate AllowRunsOutBy(w: World, deadline: real) {
    w.cached.Some? && w.cached.value.value.allow ==> w.cached.value.expiresAt <= deadline
  }

  predicate LastSuccessBy(w: World, since: Time) {
    w.row.lastSuccessAt.Some? ==> w.row.lastSuccessAt.value <= since
  }

  predicate CutOff(c: Registry.Config, sys: System, secret: string, k: nat, since: Time, deadline: real) {
    && secret != "" && Secret(sys.client) == secret
    && OnlySuspendedRow(sys.tables.installations, Registry.TokenHash(c, secret), k)
    && LastSuccessBy(sys.client, since) && AllowRunsOutBy(sys.client, deadline)
  }

  lemma SuspendedTokenReadsInvalid(c: Registry.Config, t: Registry.Tables, secret: string, k: nat, domain: string,
                                   version: string, now: Time)
    requires OnlySuspendedRow(t.installations, Registry.TokenHash(c, secret), k)
    ensures var answer := Registry.ValidateByToken(c, t, secret, domain, version, now);
            if answer.Crashed? then Registry.VersionCrashes(c, version) else !ReadAsValid(answer)
  {
    hide Strip, Lower, Registry.VersionCrashes;
  }

  lemma RegistryStepKeepsRow(c: Registry.Config, t: Registry.Tables, e: RR.Event, secret: string, k: nat)
    requires RR.CollisionFree(c.sha)
    requires OnlySuspendedRow(t.installations, Registry.TokenHash(c, secret), k)
    requires e.Reactivate? ==> e.row != k
    requires e.Activate? ==> e.token != secret
    ensures OnlySuspendedRow(RR.Step(c, t, e).installations, Registry.TokenHash(c, secret), k)
  {
    hide Strip, Lower, Registry.HasSibling, Registry.ActivationRefusal;
    if e.Activate? {
      assert Registry.TokenHash(c, e.token) != Registry.TokenHash(c, secret);
    }
  }

  /**
   Asking keeps the token; without an acceptance it keeps the last success and allows only in the grace of an
   outage.
   */
  lemma UnacceptedValidation(s: LS.Settings, row: LS.Row, now: Time, reply: Reply)
    requires s.gatewayConfigured && Strip(row.activationToken) != "" && (reply.Answer? ==> !reply.valid)
    ensures var (row', d) := Refresh(s, row, now, reply);
            && row'.activationToken == row.activationToken && row'.lastSuccessAt == row.lastSuccessAt
            && (d.allow ==> reply.ServerError? && row.lastSuccessAt.Some?
                            && now <= row.lastSuccessAt.value + Hours(s.graceHours))
  {
    hide Strip, CodeShapeValid;
  }

  lemma HeartbeatKeepsSecret(s: LS.Settings, w: World, now: Time, data: LS.Payload)
    ensures Heartbeat(s, w, now, data).row.activationToken == w.row.activationToken
    ensures Heartbeat(s, w, now, data).row.lastSuccessAt == w.row.lastSuccessAt
  {
    hide Strip, LS.NormalizePlan;
  }

  /** What the network makes of a row that holds the suspended token: a refusal, or an outage. */
  lemma CutOffReply(c: Registry.Config, sys: System, row: LS.Row, now: Time, net: Network, secret: string, k: nat,
                    since: Time, deadline: real)
    requires CutOff(c, sys, secret, k, since, deadline) && row.activationToken == sys.client.row.activationToken
    ensures var reply := ReplyOver(c, sys.tables, row, now, net);
            && (reply.Answer? ==> !reply.valid)
            && (reply.ServerError? ==> net.Down? || Registry.VersionCrashes(c, net.version))
  {
    hide Strip, Registry.ValidateByToken, Registry.VersionCrashes, OnlySuspendedRow;
    if net.Answering? {
      SuspendedTokenReadsInvalid(c, sys.tables, secret, k, Strip(row.activatedDomain), net.version, now);
    }
  }

  /** A row that is asked about under the suspension, and what comes of it. */
  lemma AskedWhileCutOff(s: LS.Settings, c: Registry.Config, sys: System, row: LS.Row, asked: LS.Row, now: Time,
                         net: Network, secret: string, k: nat, since: Time, deadline: real)
    requires s.gatewayConfigured && CutOff(c, sys, secret, k, since, deadline)
    requires row.activationToken == asked.activationToken == sys.client.row.activationToken
    requires asked.lastSuccessAt == sys.client.row.lastSuccessAt
    requires net.Down? || Registry.VersionCrashes(c, net.version) ==>
               since as real + Hours(s.graceHours) + s.cacheTtl as real <= deadline
    ensures var (row', d) := Refresh(s, asked, now, ReplyOver(c, sys.tables, row, now, net));
            var w' := World(row', Some(Entry(d, now + s.cacheTtl as real)));
            && CutOff(c, sys.(client := w'), secret, k, since, deadline)
            && (d.allow ==>
                  (net.Down? || Registry.VersionCrashes(c, net.version)) && now <= since + Hours(s.graceHours))
  {
    hide Strip, Refresh, ReplyOver, Registry.VersionCrashes, OnlySuspendedRow;
    CutOffReply(c, sys, row, now, net, secret, k, since, deadline);
    UnacceptedValidation(s, asked, now, ReplyOver(c, sys.tables, row, now, net));
  }

  /** An attempt with a malformed code is turned away at home. */
  lemma MalformedAttempt(s: LS.Settings, c: Registry.Config, sys: System, e: Event)
    requires s.gatewayConfigured && e.Attempts? && KeepsToken(e)
    ensures var (sys', d) := Step(s, c, sys, e);
            && sys'.tables == sys.tables && sys'.client.cached == None && d.Some? && !d.value.allow
            && sys'.client.row.activationToken == sys.client.row.activationToken
            && sys'.client.row.lastSuccessAt == sys.client.row.lastSuccessAt
  {
    hide Strip, CodeShapeValid, ReplyOver, Refresh, LS.Merged;
  }

  lemma StepKeepsCutOff(s: LS.Settings, c: Registry.Config, sys: System, e: Event, secret: string, k: nat, since: Time,
                        deadline: real)
    requires RR.CollisionFree(c.sha) && s.gatewayConfigured
    requires CutOff(c, sys, secret, k, since, deadline) && Allowed(e, k, secret)
    requires Answered(c, e) || since as real + Hours(s.graceHours) + s.cacheTtl as real <= deadline
    ensures var (sys', d) := Step(s, c, sys, e);
            var over := Answered(c, e) || since + Hours(s.graceHours) < e.now;
            && CutOff(c, sys', secret, k, since, deadline)
            && (d.Some? && (deadline <= e.now || Forced(e)) && over ==> !d.value.allow)
  {
    hide Strip, Refresh, ReplyOver, OnlySuspendedRow, RR.Step, RR.CollisionFree, CodeShapeValid;
    hide Registry.VersionCrashes;
    match e
    case Validates(now, _, net) =>
      AskedWhileCutOff(s, c, sys, sys.client.row, sys.client.row, now, net, secret, k, since, deadline);
    case Overrides(now, value, net) =>
      var overridden := LS.Signed(s, sys.client.row.(productOverride := Strip(value)));
      AskedWhileCutOff(s, c, sys, sys.client.row, overridden, now, net, secret, k, since, deadline);
    case Beats(now, domain, version, data) =>
      BeatKeepsCutOff(s, c, sys, e, secret, k, since, deadline);
    case Attempts(_, _, _, _, _, _) =>
      hide Activate;
      MalformedAttempt(s, c, sys, e);
    case Invalidates(_) =>
    case AtRegistry(_, event) =>
      RegistryStepKeepsRow(c, sys.tables, event, secret, k);
  }

  lemma BeatKeepsCutOff(s: LS.Settings, c: Registry.Config, sys: System, e: Event, secret: string, k: nat, since: Time,
                        deadline: real)
    requires RR.CollisionFree(c.sha) && CutOff(c, sys, secret, k, since, deadline) && e.Beats?
    ensures CutOff(c, Step(s, c, sys, e).0, secret, k, since, deadline)
  {
    hide Strip, Registry.HeartbeatTables, OnlySuspendedRow, RR.CollisionFree, Registry.VersionCrashes;
    var beat := RR.Heartbeat(secret, e.domain, e.version, e.now);
    RegistryStepKeepsRow(c, sys.tables, beat, secret, k);
    HeartbeatKeepsSecret(s, sys.client, e.now, e.data.(ok := true));
    HeartbeatKeepsSecret(s, sys.client, e.now, e.data.(ok := false));
  }

  lemma {:induction false} RunKeepsCutOff(s: LS.Settings, c: Registry.Config, start: System, events: seq<Event>,
                                          secret: string, k: nat, since: Time, deadline: real)
    requires RR.CollisionFree(c.sha) && s.gatewayConfigured
    requires CutOff(c, start, secret, k, since, deadline)
    requires forall i :: 0 <= i < |events| ==> Allowed(events[i], k, secret)
    requires (forall i :: 0 <= i < |events| ==> Answered(c, events[i]))
             || since as real + Hours(s.graceHours) + s.cacheTtl as real <= deadline
    ensures CutOff(c, Run(s, c, start, events), secret, k, since, deadline)
  {
    hide Step, CutOff, Allowed, Answered;
    if events != [] {
      var n := |events| - 1;
      RunKeepsCutOff(s, c, start, events[..n], secret, k, since, deadline);
      assert Allowed(events[n], k, secret);
      StepKeepsCutOff(s, c, Run(s, c, start, events[..n]), events[n], secret, k, since, deadline);
    }
  }

  // ----- From any history on both sides -----

  lemma {:induction false} CachedDecisionsExpire(s: LS.Settings, events: seq<LR.Event>, now: Time)
    requires forall i :: 0 <= i < |events| ==> events[i].now <= now
    ensures var w := LR.Run(s, events);
            w.cached.Some? ==> w.cached.value.expiresAt <= now + s.cacheTtl as real
  {
    if events != [] {
      hide Strip, LR.Step, Refresh, LR.AskedAbout;
      var n := |events| - 1;
      CachedDecisionsExpire(s, events[..n], now);
      var w := LR.Run(s, events[..n]);
      if LR.AskedAbout(s, w, events[n]).Some? {
        LR.ForcedStep(s, w, events[n]);
      } else {
        LR.UnaskedStep(s, w, events[n]);
      }
    }
  }

  /** In a registry run with fresh tokens no two rows carry the same token hash. */
  lemma TokenHashesDiffer(c: Registry.Config, past: seq<RR.Event>, j: nat, k: nat)
    requires RR.CollisionFree(c.sha) && RR.TokensFresh(past)
    requires j < |RR.Run(c, past).installations| && k < |RR.Run(c, past).installations| && j != k
    ensures RR.Run(c, past).installations[j].tokenHash != RR.Run(c, past).installations[k].tokenHash
  {
    hide Strip, Lower, RR.Step;
    RR.RowsFollowLastActivation(c, past);
    RR.EveryRunIsWellKept(c, past);
    var rows := RR.Run(c, past).installations;
    assert RR.TokenIsLast(c, past, rows[j]) && RR.TokenIsLast(c, past, rows[k]);
  }

  /** Row `k` of the registry holds the token of the client. */
  predicate Holds(s: LS.Settings, c: Registry.Config, clientPast: seq<LR.Event>, registryPast: seq<RR.Event>, k: nat) {
    var secret, rows := Secret(LR.Run(s, clientPast)), RR.Run(c, registryPast).installations;
    secret != "" && k < |rows| && rows[k].tokenHash == Registry.TokenHash(c, secret)
  }

  /** Client and registry with their histories, at the moment row `k` is suspended. */
  function Suspended(s: LS.Settings, c: Registry.Config, clientPast: seq<LR.Event>, registryPast: seq<RR.Event>, k: nat,
                     reason: string): System
  {
    System(LR.Run(s, clientPast), RR.Step(c, RR.Run(c, registryPast), RR.Suspend(k, reason)))
  }

  lemma SuspensionCutsOff(s: LS.Settings, c: Registry.Config, clientPast: seq<LR.Event>, registryPast: seq<RR.Event>,
                          k: nat, reason: string, since: Time, deadline: real)
    requires RR.CollisionFree(c.sha) && RR.TokensFresh(registryPast) && Holds(s, c, clientPast, registryPast, k)
    requires forall j :: 0 <= j < |clientPast| ==> clientPast[j].now <= since
    requires since as real + s.cacheTtl as real <= deadline
    ensures CutOff(c, Suspended(s, c, clientPast, registryPast, k, reason), Secret(LR.Run(s, clientPast)), k, since,
            deadline)
  {
    hide Strip, LR.Run, RR.CollisionFree, RR.TokensFresh, RR.Run;
    CachedDecisionsExpire(s, clientPast, since);
    LR.LastSuccessIsLastAccepted(s, clientPast);
    var secret := Secret(LR.Run(s, clientPast));
    var rows := RR.Run(c, registryPast).installations;
    forall j | 0 <= j < |rows| && j != k ensures rows[j].tokenHash != rows[k].tokenHash {
      TokenHashesDiffer(c, registryPast, j, k);
    }
    assert OnlySuspendedRow(Suspended(s, c, clientPast, registryPast, k, reason).tables.installations,
      Registry.TokenHash(c, secret), k);
  }

  /**
   Client and registry have any histories, row `k` holds the client's token and is suspended at `since`. As long as
   the client keeps that token, nobody reactivates row `k`, and the gateway answers and can read the client's version,
   every decision from `since` plus the cache timeout on is a denial, and a forced one is a denial at once, whatever
   was cached and whatever else client and registry do.
   */
  lemma {:induction false} SuspensionTakesHold(s: LS.Settings, c: Registry.Config, clientPast: seq<LR.Event>,
                                               registryPast: seq<RR.Event>, k: nat, reason: string, since: Time,
                                               events: seq<Event>, i: nat)
    requires RR.CollisionFree(c.sha) && RR.TokensFresh(registryPast) && s.gatewayConfigured
    requires Holds(s, c, clientPast, registryPast, k)
    requires forall j :: 0 <= j < |clientPast| ==> clientPast[j].now <= since
    requires Chronological(events, since) && i < |events|
    requires forall j :: 0 <= j < |events| ==>
             Allowed(events[j], k, Secret(LR.Run(s, clientPast))) && Answered(c, events[j])
    ensures var start := Suspended(s, c, clientPast, registryPast, k, reason);
            var d := Step(s, c, Run(s, c, start, events[..i]), events[i]).1;
            d.Some? && (since + s.cacheTtl as real <= events[i].now || Forced(events[i])) ==> !d.value.allow
  {
    hide Strip, Step, LR.Run, RR.CollisionFree, RR.TokensFresh, Allowed, CutOff, Holds, Suspended, Answered, Forced;
    var secret := Secret(LR.Run(s, clientPast));
    var deadline := since + s.cacheTtl as real;
    var start := Suspended(s, c, clientPast, registryPast, k, reason);
    SuspensionCutsOff(s, c, clientPast, registryPast, k, reason, since, deadline);
    RunKeepsCutOff(s, c, start, events[..i], secret, k, since, deadline);
    StepKeepsCutOff(s, c, Run(s, c, start, events[..i]), events[i], secret, k, since, deadline);
  }

  /**
   The same with the gateway answering or not as it likes, while the client keeps its token: every decision from
   `since` plus the grace hours plus the cache timeout on is a denial. With a timeout of zero that excludes the last
   instant of grace, and a forced decision is a denial as soon as the grace hours are over.
   */
  lemma {:induction false} SuspensionOutlastsOutages(s: LS.Settings, c: Registry.Config, clientPast: seq<LR.Event>,
                                                     registryPast: seq<RR.Event>, k: nat, reason: string, since: Time,
                                                     events: seq<Event>, i: nat)
    requires RR.CollisionFree(c.sha) && RR.TokensFresh(registryPast) && s.gatewayConfigured
    requires Holds(s, c, clientPast, registryPast, k)
    requires forall j :: 0 <= j < |clientPast| ==> clientPast[j].now <= since
    requires Chronological(events, since) && i < |events|
    requires forall j :: 0 <= j < |events| ==> Allowed(events[j], k, Secret(LR.Run(s, clientPast)))
    ensures var start := Suspended(s, c, clientPast, registryPast, k, reason);
            var d := Step(s, c, Run(s, c, start, events[..i]), events[i]).1;
            var grace := if s.graceHours < 0 then 0.0 else Hours(s.graceHours);
            var t := events[i].now;
            var deadline := since + grace + s.cacheTtl as real;
            && (d.Some? && deadline <= t && (s.cacheTtl > 0 || since + grace < t) ==> !d.value.allow)
            && (d.Some? && Forced(events[i]) && since + grace < t ==> !d.value.allow)
  {
    hide Strip, Step, LR.Run, RR.CollisionFree, RR.TokensFresh, Allowed, CutOff, Holds, Suspended, Answered, Forced;
    var secret := Secret(LR.Run(s, clientPast));
    var grace := if s.graceHours < 0 then 0.0 else Hours(s.graceHours);
    var deadline := since + grace + s.cacheTtl as real;
    var start := Suspended(s, c, clientPast, registryPast, k, reason);
    SuspensionCutsOff(s, c, clientPast, registryPast, k, reason, since, deadline);
    RunKeepsCutOff(s, c, start, events[..i], secret, k, since, deadline);
    StepKeepsCutOff(s, c, Run(s, c, start, events[..i]), events[i], secret, k, since, deadline);
  }

  /**
   No earlier bound holds: a client whose last success was at `since` is allowed, the gateway being down, at every
   moment short of it from the last instant of grace on.
   */
  lemma OutageReachesTheBound(s: LS.Settings, w: World, since: Time, last: Time, now: Time, err: Reply, reply: Reply)
    requires Contacts(s, w.row) && w.row.lastSuccessAt == Some(since) && err.ServerError?
    requires last as real == since + Hours(s.graceHours) && last <= now < last + s.cacheTtl as real
    ensures Validate(s, Validate(s, w, last, true, err).0, now, false, reply).1.allow
  {
    hide Strip, CodeShapeValid, Seal;
    LR.FreshAllowIff(s, w, last, true, err);
  }

  /**
   A beat always reaches the row of its token. It counts as contact for the client, and drops its cached decision,
   exactly when that row is not suspended and the version can be read; otherwise the client learns nothing.
   */
  lemma SuspendedClientLosesContact(s: LS.Settings, c: Registry.Config, sys: System, e: Event, k: nat)
    requires e.Beats? && c.enabled && k < |sys.tables.installations|
    requires forall j :: 0 <= j < |sys.tables.installations| ==>
             (sys.tables.installations[j].tokenHash == c.sha(Secret(sys.client)) <==> j == k)
    ensures var sys' := Step(s, c, sys, e).0;
            var heard := !sys.tables.installations[k].suspended && Registry.CanCompare(c, e.version);
            && |sys'.tables.installations| == |sys.tables.installations|
            && sys'.tables.installations[k].lastHeartbeatAt == Some(e.now)
            && (heard ==> sys'.client.row.lastContactAt == Some(e.now) && sys'.client.cached == None)
            && (!heard ==> sys'.client == sys.client)
  {
    Registry.CrashesIff(c, e.version);
    assert sys.tables.installations[k].tokenHash == Registry.TokenHash(c, Secret(sys.client));
    BeatReachesRow(c, sys.tables, Secret(sys.client), e.domain, e.version, e.now, k);
    hide Registry.HeartbeatTables, Registry.VersionCrashes, Registry.CanCompare, Secret;
    hide Strip, LS.NormalizePlan, LS.AllEnabled, LS.SignatureOf;
  }

  lemma BeatReachesRow(c: Registry.Config, t: Registry.Tables, token: string, domain: string, version: string,
                       now: Time, k: nat)
    requires c.enabled && k < |t.installations|
    requires Registry.FindToken(t.installations, Registry.TokenHash(c, token)) == k
    ensures var r := Registry.HeartbeatTables(c, t, token, domain, version, now);
            && r.Done? && |r.value.installations| == |t.installations|
            && r.value.installations[k].lastHeartbeatAt == Some(now)
  {
    hide Strip, Lower, Registry.HasSibling;
  }

  /**
   A version that cannot be read makes the validation of a known token an outage, suspended or not: it allows exactly
   while grace lasts.
   */
  lemma UnreadableVersionIsAnOutage(s: LS.Settings, c: Registry.Config, sys: System, now: Time, version: string,
                                    byCode: bool, data: LS.Payload)
    requires s.gatewayConfigured && c.enabled && Secret(sys.client) != "" && !Registry.CanCompare(c, version)
    requires exists row :: row in sys.tables.installations && row.tokenHash == c.sha(Secret(sys.client))
    ensures var (sys', d) := Step(s, c, sys, Validates(now, true, Answering(version, byCode, data)));
            var last := sys.client.row.lastSuccessAt;
            && d.Some?
            && (d.value.allow <==> last.Some? && now <= last.value + 3600.0 * s.graceHours as real)
            && sys'.client.row.lastSuccessAt == last && sys'.client.row.lastError == LS.ServerFailed
  {
    Registry.CrashesIff(c, version);
    LR.FreshAllowIff(s, sys.client, now, true, ServerError(LS.ServerFailed, false, None));
    hide Strip, CodeShapeValid, Registry.VersionCrashes, Registry.CanCompare, LS.SignatureOf, DomainTokens.Issue;
  }

  // ----- The way around -----

  /** The activation the client attempted brought no token. */
  predicate Failed(gateway: ActivationReply) {
    gateway.ActivationError? || Strip(gateway.data.activationToken) == ""
  }

  /** A failed attempt leaves the registry alone. The client keeps its token exactly when the code was malformed. */
  lemma FailedAttemptKeepsTokenIff(s: LS.Settings, c: Registry.Config, sys: System, e: Event)
    requires s.gatewayConfigured && e.Attempts? && Failed(e.gateway) && sys.client.row.activationToken != ""
    ensures var sys' := Step(s, c, sys, e).0;
            && sys'.tables == sys.tables
            && (sys'.client.row.activationToken == sys.client.row.activationToken <==> KeepsToken(e))
            && (!KeepsToken(e) ==>
                  sys'.client.row.activationToken == "" && sys'.client.row.purchaseCode == Strip(e.code))
  {
    hide Strip, CodeShapeValid, ReplyOver, Refresh, LS.Merged;
  }

  /**
   A failed attempt with a well-formed code lifts the cut-off. The suspended client forgets its token and is from then
   on validated by its purchase code, about which the registry does not look at the suspension: an answer that the
   code is valid makes the client active again.
   */
  lemma FailedAttemptEscapesSuspension(s: LS.Settings, c: Registry.Config, sys: System, e: Event, secret: string,
                                       k: nat, later: Time, version: string, data: LS.Payload)
    requires s.gatewayConfigured && secret != "" && Secret(sys.client) == secret
    requires OnlySuspendedRow(sys.tables.installations, Registry.TokenHash(c, secret), k)
    requires e.Attempts? && Failed(e.gateway) && CodeShapeValid(Strip(e.code))
    ensures var sys1 := Step(s, c, sys, e).0;
            var (sys2, d) := Step(s, c, sys1, Validates(later, true, Answering(version, true, data)));
            && OnlySuspendedRow(sys2.tables.installations, Registry.TokenHash(c, secret), k)
            && d.Some? && d.value.allow && sys2.client.row.status == LS.Active
  {
    StripTrims(e.code);
    StripIsIdentityExactlyOnTrimmed(Strip(e.code));
    var sys1 := Step(s, c, sys, e).0;
    SecretIsSome(sys.client);
    FailedAttemptKeepsTokenIff(s, c, sys, e);
    StripOfNothing();
    hide Strip, Step, OnlySuspendedRow, Failed;
    ActiveByCode(s, c, sys1, later, version, data);
  }

  lemma SecretIsSome(w: World)
    requires Secret(w) != ""
    ensures w.row.activationToken != ""
  {
    StripOfNothing();
    hide Strip;
  }

  lemma StripOfNothing()
    ensures Strip("") == ""
  {
  }

  lemma ActiveByCode(s: LS.Settings, c: Registry.Config, sys: System, now: Time, version: string, data: LS.Payload)
    requires s.gatewayConfigured && Strip(sys.client.row.activationToken) == ""
    requires Strip(sys.client.row.purchaseCode) != "" && CodeShapeValid(Strip(sys.client.row.purchaseCode))
    ensures var (sys', d) := Step(s, c, sys, Validates(now, true, Answering(version, true, data)));
            sys'.tables == sys.tables && d.Some? && d.value.allow && sys'.client.row.status == LS.Active
  {
    hide Strip, CodeShapeValid, LS.NormalizePlan;
  }

  // ----- The way in -----

  /** Right after an activation the new token is known, is not suspended, and reads as valid on its own domain. */
  lemma IssuedTokenReadsValid(c: Registry.Config, t: Registry.Tables, code: string, domain: string, item: Option<int>,
                              version: string, token: string, now: Time)
    requires c.enabled && !Registry.VersionCrashes(c, version) && RR.PairsUnique(t)
    requires forall j :: 0 <= j < |t.installations| ==> t.installations[j].tokenHash != Registry.TokenHash(c, token)
    ensures var t' := Registry.ActivatedTables(c, t, code, domain, item, version, token, now);
            var answer := Registry.ValidateByToken(c, t', token, domain, version, now);
            answer.TokenAnswer? && answer.valid
  {
    hide Strip, Lower, Registry.HasSibling, Registry.VersionCrashes;
    var fp, dom := Registry.Fingerprint(c, code), Registry.NormalizedDomain(domain);
    var rows' := Registry.ActivatedTables(c, t, code, domain, item, version, token, now).installations;
    var marked := Registry.MarkedSiblings(t.installations, fp, dom);
    var k := Registry.FindPair(marked, fp, dom);
    assert rows'[k].tokenHash == Registry.TokenHash(c, token);
    assert Registry.FindToken(rows', Registry.TokenHash(c, token)) == k;
  }

  /**
   Whatever state client and registry are in, an activation the registry accepts, followed by the validation
   the client makes at once, leaves the client active with the token that was issued.
   */
  lemma ActivationTakesHold(s: LS.Settings, c: Registry.Config, w: World, t: Registry.Tables, code: string,
                            domain: string, item: Option<int>, version: string, now: Time, data: LS.Payload,
                            answer: LS.Payload)
    requires s.gatewayConfigured && c.enabled && !Registry.VersionCrashes(c, version) && RR.PairsUnique(t)
    requires Strip(domain) != "" && CodeShapeValid(Strip(code))
    requires var token := data.activationToken;
             token != "" && Strip(token) == token
             && forall j :: 0 <= j < |t.installations| ==> t.installations[j].tokenHash != Registry.TokenHash(c, token)
    ensures var t' :=
            Registry.ActivatedTables(c, t, Strip(code), Strip(domain), item, version, data.activationToken, now);
            var asked :=
              LR.AskedAbout(s, w, LR.Activation(now, code, domain, None, Activated(data), Answer(true, answer)));
            && asked.Some?
            && var reply := GatewayReply(c, t', asked.value, version, now, answer);
               var (w', d) := Activate(s, w, now, code, domain, None, Activated(data), reply);
               && d.allow && d.status == LS.Active
               && w'.row.status == LS.Active && w'.row.activationToken == data.activationToken
                  && w'.row.purchaseCode == ""
               && w'.row.activatedDomain == Strip(domain) && w'.row.lastSuccessAt == Some(now)
  {
    var token := data.activationToken;
    var t' := Registry.ActivatedTables(c, t, Strip(code), Strip(domain), item, version, token, now);
    IssuedTokenReadsValid(c, t, Strip(code), Strip(domain), item, version, token, now);
    AskedWithToken(s, w, now, code, domain, data, Answer(true, answer));
    TokenIsValidated(s, w, now, code, domain, data, Answer(true, answer));
    WithTokenKeepsIdentity(s, w, now, domain, data);
    var row := WithToken(s, w, now, domain, data);
    hide WithToken, Strip, CodeShapeValid, LR.AskedAbout, Activate, Refresh;
    hide Registry.ActivatedTables, Registry.ValidateByToken, Registry.VersionCrashes;
    assert GatewayReply(c, t', row, version, now, answer) == Answer(true, answer);
    ForcedValidation(s, row, now, Answer(true, answer));
    ActiveAfterAnswer(s, row, now, answer);
  }

  /** The row the client validates right after the gateway handed out a token. */
  function WithToken(s: LS.Settings, w: World, now: Time, domain: string, data: LS.Payload): LS.Row {
    var begun := Begun(w.row, now, domain, None);
    LS.Merged(s, begun.(purchaseCode := "", activationToken := data.activationToken, lastError := LS.NoNote), data, now)
  }

  lemma WithTokenKeepsIdentity(s: LS.Settings, w: World, now: Time, domain: string, data: LS.Payload)
    requires Strip(domain) != ""
    ensures var row := WithToken(s, w, now, domain, data);
            && row.activationToken == data.activationToken && row.purchaseCode == ""
            && row.activatedDomain == Strip(domain) && Strip(row.activatedDomain) == Strip(domain)
  {
    StripTrims(domain);
    StripIsIdentityExactlyOnTrimmed(Strip(domain));
    assert domain != "";
    hide Strip, LS.NormalizePlan, LS.SignatureOf;
  }

  lemma AskedWithToken(s: LS.Settings, w: World, now: Time, code: string, domain: string, data: LS.Payload,
      reply: Reply)
    requires s.gatewayConfigured && CodeShapeValid(Strip(code))
    requires data.activationToken != "" && Strip(data.activationToken) == data.activationToken
    ensures LR.AskedAbout(s, w, LR.Activation(now, code, domain, None, Activated(data), reply)) ==
            Some(WithToken(s, w, now, domain, data))
  {
    hide Strip, CodeShapeValid, LS.Merged, Begun;
  }

  lemma ForcedValidation(s: LS.Settings, row: LS.Row, now: Time, reply: Reply)
    ensures var (row', d) := Refresh(s, row, now, reply);
            Validate(s, World(row, None), now, true, reply) ==
              (World(row', Some(Entry(d, now + s.cacheTtl as real))), d)
  {
    hide Refresh;
  }

  lemma TokenIsValidated(s: LS.Settings, w: World, now: Time, code: string, domain: string, data: LS.Payload,
      reply: Reply)
    requires s.gatewayConfigured && CodeShapeValid(Strip(code))
    requires data.activationToken != "" && Strip(data.activationToken) == data.activationToken
    ensures Activate(s, w, now, code, domain, None, Activated(data), reply) ==
            Validate(s, World(WithToken(s, w, now, domain, data), None), now, true, reply)
  {
    hide Strip, CodeShapeValid, LS.Merged, Begun, Validate;
  }

  lemma ActiveAfterAnswer(s: LS.Settings, row: LS.Row, now: Time, answer: LS.Payload)
    requires s.gatewayConfigured && Strip(row.activationToken) != ""
    ensures var (row', d) := Refresh(s, row, now, Answer(true, answer));
            && d.allow && d.status == LS.Active && row'.status == LS.Active && row'.lastSuccessAt == Some(now)
            && row'.activationToken == row.activationToken && row'.purchaseCode == row.purchaseCode
            && (row.activatedDomain != "" ==> row'.activatedDomain == row.activatedDomain)
            && (row.activatedDomain == "" ==> row'.activatedDomain == Strip(answer.domain))
  {
    hide Strip, CodeShapeValid, LS.NormalizePlan;
  }
}
