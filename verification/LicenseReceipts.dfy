/**
 What the client has been told by the gateway: every run's last contact, plan and features are those of the answers
 that reached it, and of nothing else.
 */
module LicenseReceipts {
  import opened Basics
  import opened Text
  import opened LicenseState
  import opened LicenseService
  import opened LicenseRuns

  // ----- A purchase code, and when the server is asked -----

  predicate HexDigits(s: string, n: nat) {
    |s| == n && forall c :: c in s ==> '0' <= c <= '9' || 'a' <= c <= 'f' || 'A' <= c <= 'F'
  }

  /** A well-formed code is five groups of hexadecimal digits with hyphens between them, in any surrounding space. */
  lemma CodeShapeIff(code: string)
    ensures var s := Strip(code);
            CodeShapeValid(code) <==>
              && |s| == 36 && s[8] == s[13] == s[18] == s[23] == '-'
              && HexDigits(s[..8], 8) && HexDigits(s[9..13], 4) && HexDigits(s[14..18], 4) && HexDigits(s[19..23], 4)
              && HexDigits(s[24..], 12)
  {
    hide Strip;
    var s := Strip(code);
    if |s| == 36 && HexDigits(s[..8], 8) && HexDigits(s[9..13], 4) && HexDigits(s[14..18], 4)
       && HexDigits(s[19..23], 4) && HexDigits(s[24..], 12) {
      forall i | 0 <= i < 36 && i !in {8, 13, 18, 23} ensures IsHex(s[i]) {
        if i < 8 {
          assert s[i] in s[..8];
        } else if i < 13 {
          assert s[i] in s[9..13];
        } else if i < 18 {
          assert s[i] in s[14..18];
        } else if i < 23 {
          assert s[i] in s[19..23];
        } else {
          assert s[i] in s[24..];
        }
      }
    }
  }

  predicate HasCredentials(row: Row) {
    Strip(row.activationToken) != "" || (Strip(row.purchaseCode) != "" && CodeShapeValid(row.purchaseCode))
  }

  /** The gateway hands the client a token. */
  predicate BringsToken(s: Settings, e: Event) {
    && e.Activation? && s.gatewayConfigured && CodeShapeValid(e.code)
    && e.gateway.Activated? && Strip(e.gateway.data.activationToken) != ""
  }

  /** The operation asks the licence server, which needs an address, something to ask about, and no live decision. */
  predicate Asks(s: Settings, w: World, e: Event) {
    && (s.gatewayConfigured || s.serverUrlConfigured)
    && match e
       case Validation(now, force, _) =>
         (force || w.cached.None? || w.cached.value.expiresAt <= now) && HasCredentials(w.row)
       case ProductOverride(_, _, _) => HasCredentials(w.row)
       case Activation(_, code, _, _, _, _) => if s.gatewayConfigured then BringsToken(s, e) else CodeShapeValid(code)
       case _ => false
  }

  lemma StripTwice(t: string)
    ensures Strip(Strip(t)) == Strip(t)
    ensures CodeShapeValid(Strip(t)) == CodeShapeValid(t)
    ensures CodeShapeValid(t) ==> Strip(t) != ""
  {
    StripTrims(t);
    StripIsIdentityExactlyOnTrimmed(Strip(t));
  }

  /** Acceptance, said by the settings, the stored row and the replies alone. */
  lemma AcceptsIff(s: Settings, w: World, e: Event)
    ensures Accepts(s, w, e) <==> Asks(s, w, e) && e.reply.Answer? && e.reply.valid
  {
    StripTwice(w.row.purchaseCode);
    match e
    case Activation(_, code, _, _, gateway, _) =>
      StripTwice(code);
      if gateway.Activated? {
        StripTwice(gateway.data.activationToken);
      }
      assert Strip("") == "";
      hide Strip, CodeShapeValid, NormalizePlan, SignatureOf, AllEnabled;
    case _ =>
      hide Strip, CodeShapeValid, SignatureOf;
  }

  // ----- Answers received -----

  datatype Receipt = Receipt(at: Time, data: Payload)

  /** What comes with a token. */
  function WithToken(s: Settings, e: Event): seq<Receipt> {
    if BringsToken(s, e) then [Receipt(e.now, e.gateway.data)] else []
  }

  /** What an operation brings: the token's payload, an acceptance, or a heartbeat answer that is not a refusal. */
  function Brought(s: Settings, w: World, e: Event): seq<Receipt> {
    WithToken(s, e)
    + (if Asks(s, w, e) && e.reply.Answer? && e.reply.valid then [Receipt(e.now, e.reply.data)] else [])
    + (if e.HeartbeatAnswer? && e.data.ok then [Receipt(e.now, e.data)] else [])
  }

  function Receipts(s: Settings, events: seq<Event>): seq<Receipt> {
    if events == [] then []
    else
      var front, last := events[..|events| - 1], events[|events| - 1];
      Receipts(s, front) + Brought(s, Run(s, front), last)
  }

  /** The last plan that reads "basic" or "saas" apart from case and surrounding space. */
  function LastPlan(receipts: seq<Receipt>): string {
    if receipts == [] then ""
    else
      var plan := Lower(Strip(receipts[|receipts| - 1].data.plan));
      if plan in {"basic", "saas"} then plan else LastPlan(receipts[..|receipts| - 1])
  }

  /** The last features that came as a table, or as a list of names to enable; a snapshot stands in for none. */
  function LastFeatures(receipts: seq<Receipt>): map<string, bool> {
    if receipts == [] then map[]
    else
      var data := receipts[|receipts| - 1].data;
      var told := if data.features == Absent then data.featuresSnapshot else data.features;
      if told.Table? then told.flags
      else if told.Names? then map name | name in told.names :: true
      else LastFeatures(receipts[..|receipts| - 1])
  }

  /** Contact time, plan and features of the row are what the receipts say. */
  predicate Knows(row: Row, receipts: seq<Receipt>) {
    && row.lastContactAt == (if receipts == [] then None else Some(receipts[|receipts| - 1].at))
    && row.planType == LastPlan(receipts)
    && row.features == LastFeatures(receipts)
  }

  predicate SameKnowledge(row: Row, row': Row) {
    row'.lastContactAt == row.lastContactAt && row'.planType == row.planType && row'.features == row.features
  }

  lemma MergeLearns(s: Settings, row: Row, data: Payload, now: Time, receipts: seq<Receipt>)
    requires Knows(row, receipts)
    ensures Knows(Merged(s, row, data, now), receipts + [Receipt(now, data)])
  {
    var receipts' := receipts + [Receipt(now, data)];
    assert receipts'[..|receipts|] == receipts;
    hide Strip, Lower, SignatureOf;
  }

  lemma SealTeachesNothing(s: Settings, row: Row, now: Time)
    ensures SameKnowledge(row, Seal(s, row, now)) && SameKnowledge(row, Bound(s, row, now))
  {
    hide Strip, DomainTokens.Issue, SignatureOf;
  }

  lemma AnswerTeaches(s: Settings, row: Row, now: Time, valid: bool, data: Payload, receipts: seq<Receipt>)
    requires Knows(row, receipts)
    ensures Knows(Answered(s, row, now, valid, data).0, receipts + if valid then [Receipt(now, data)] else [])
  {
    var unsealed := if valid then Merged(s, Accepted(s, row, now, data), data, now)
                    else row.(status := Invalid, lastValidationAt := Some(now), lastError := NoNote,
                              graceUntil := Some(now as real));
    SealTeachesNothing(s, unsealed, now);
    assert receipts + [] == receipts;
    AcceptanceKeepsKnowledge(s, row, now, data);
    hide Strip, Seal, Merged, LastPlan, LastFeatures, Accepted;
    if valid {
      MergeLearns(s, Accepted(s, row, now, data), data, now, receipts);
    }
  }

  lemma AcceptanceKeepsKnowledge(s: Settings, row: Row, now: Time, data: Payload)
    ensures SameKnowledge(row, Accepted(s, row, now, data))
  {
    hide Strip;
  }

  lemma OutageTeachesNothing(s: Settings, row: Row, now: Time, err: Reply)
    requires err.ServerError?
    ensures SameKnowledge(row, Outage(s, row, now, err).0)
  {
    hide Strip, DomainTokens.Issue, SignatureOf;
  }

  lemma UnansweredTeachesNothing(s: Settings, row: Row, now: Time, reply: Reply)
    requires !(Contacts(s, row) && reply.Answer?)
    ensures SameKnowledge(row, Refresh(s, row, now, reply).0)
  {
    SealTeachesNothing(s, Marked(row, now, Inactive, CredentialsMissing), now);
    SealTeachesNothing(s, Marked(row, now, Invalid, CodeMalformed), now);
    OutageTeachesNothing(s, row, now, if reply.ServerError? && UrlConfigured(s) then reply else NOT_CONFIGURED);
    hide Strip, CodeShapeValid, Answered, Outage, Seal;
  }

  lemma RefreshTeaches(s: Settings, row: Row, now: Time, reply: Reply, receipts: seq<Receipt>)
    requires Knows(row, receipts)
    ensures Knows(Refresh(s, row, now, reply).0,
                  receipts
                  + if Contacts(s, row) && reply.Answer? && reply.valid then [Receipt(now, reply.data)] else [])
  {
    assert receipts + [] == receipts;
    if Contacts(s, row) && reply.Answer? {
      hide Strip, CodeShapeValid, Answered, Outage, Seal, Knows;
      AnswerTeaches(s, row, now, reply.valid, reply.data, receipts);
    } else {
      hide LastPlan, LastFeatures;
      UnansweredTeachesNothing(s, row, now, reply);
      hide Strip, CodeShapeValid, Refresh, Contacts;
    }
  }

  /** The row the server is asked about already knows what the gateway's token came with. */
  lemma AskedKnows(s: Settings, w: World, e: Event, receipts: seq<Receipt>)
    requires Knows(w.row, receipts) && AskedAbout(s, w, e).Some?
    ensures Knows(AskedAbout(s, w, e).value,
                  receipts + WithToken(s, e))
  {
    assert receipts + [] == receipts;
    if e.Activation? {
      StripTwice(e.code);
      hide Strip, CodeShapeValid, Merged, LastPlan, LastFeatures, SignatureOf;
      var begun := Begun(w.row, e.now, e.domain, e.productOverride);
      if BringsToken(s, e) {
        var token := Strip(e.gateway.data.activationToken);
        MergeLearns(s, begun.(purchaseCode := "", activationToken := token, lastError := NoNote), e.gateway.data, e.now,
                    receipts);
      }
    } else {
      hide Strip, CodeShapeValid, LastPlan, LastFeatures, SignatureOf;
    }
  }

  lemma BroughtByAsking(s: Settings, w: World, e: Event)
    requires AskedAbout(s, w, e).Some?
    ensures Brought(s, w, e) ==
            WithToken(s, e)
            + if Contacts(s, AskedAbout(s, w, e).value) && e.reply.Answer? && e.reply.valid
              then [Receipt(e.now, e.reply.data)] else []
  {
    AcceptsIff(s, w, e);
    hide Asks, WithToken, AskedAbout, Contacts;
  }

  lemma AskedStepLearns(s: Settings, w: World, e: Event, receipts: seq<Receipt>)
    requires Knows(w.row, receipts) && AskedAbout(s, w, e).Some?
    ensures Knows(Step(s, w, e).0.row, receipts + Brought(s, w, e))
  {
    hide Asks, WithToken, Brought, AskedAbout, Accepts, Step, Refresh, Contacts, Knows;
    var asked := AskedAbout(s, w, e).value;
    var first := WithToken(s, e);
    var second := if Contacts(s, asked) && e.reply.Answer? && e.reply.valid then [Receipt(e.now, e.reply.data)] else [];
    AskedKnows(s, w, e, receipts);
    ForcedStep(s, w, e);
    BroughtByAsking(s, w, e);
    assert receipts + (first + second) == receipts + first + second;
    RefreshTeaches(s, asked, e.now, e.reply, receipts + first);
  }

  lemma UnaskedStepLearns(s: Settings, w: World, e: Event, receipts: seq<Receipt>)
    requires Knows(w.row, receipts) && AskedAbout(s, w, e).None?
    ensures Knows(Step(s, w, e).0.row, receipts + Brought(s, w, e))
  {
    AcceptsIff(s, w, e);
    assert receipts + [] == receipts;
    match e
    case HeartbeatAnswer(now, data) =>
      hide Merged, Bound, LastPlan, LastFeatures;
      if data.ok {
        MergeLearns(s, w.row, data, now, receipts);
        SealTeachesNothing(s, Merged(s, w.row, data, now), now);
        assert Brought(s, w, e) == [Receipt(now, data)] by { hide Knows; }
      }
    case Activation(now, code, domain, productOverride, gateway, _) =>
      StripTwice(code);
      hide Strip, CodeShapeValid, Merged, Bound, LastPlan, LastFeatures, SignatureOf, Asks;
      AbortedActivationTeachesNothing(s, w, e);
      assert Brought(s, w, e) == [];
    case Validation(_, _, _) =>
      hide Refresh, LastPlan, LastFeatures, Strip, CodeShapeValid;
      assert Brought(s, w, e) == [];
    case CacheInvalidation(_) =>
      assert Brought(s, w, e) == [];
    case ProductOverride(_, _, _) =>
  }

  lemma AbortedActivationTeachesNothing(s: Settings, w: World, e: Event)
    requires e.Activation? && AskedAbout(s, w, e).None?
    ensures SameKnowledge(w.row, Step(s, w, e).0.row)
  {
    hide Strip, CodeShapeValid, Merged, SignatureOf, DomainTokens.Issue;
  }

  /**
   In every run the last contact is the time of the last answer received, None before the first; the plan is the last
   recognised one told, and the features are the last usable ones told.
   */
  lemma {:induction false} RowsKnowTheirReceipts(s: Settings, events: seq<Event>)
    ensures var receipts, row := Receipts(s, events), Run(s, events).row;
            && row.lastContactAt == (if receipts == [] then None else Some(receipts[|receipts| - 1].at))
            && row.planType == LastPlan(receipts)
            && row.features == LastFeatures(receipts)
  {
    if events != [] {
      var front, last := events[..|events| - 1], events[|events| - 1];
      RowsKnowTheirReceipts(s, front);
      assert Knows(Run(s, front).row, Receipts(s, front));
      hide Step, AskedAbout, Brought, LastPlan, LastFeatures;
      if AskedAbout(s, Run(s, front), last).Some? {
        AskedStepLearns(s, Run(s, front), last, Receipts(s, front));
      } else {
        UnaskedStepLearns(s, Run(s, front), last, Receipts(s, front));
      }
    }
  }
}
