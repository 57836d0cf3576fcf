/** Whole runs of the registry: uniqueness of rows, what a token resolves to, and suspicious siblings. */
module RegistryRuns {
  import opened Basics
  import opened Text
  import opened Registry

  datatype Event =
    | Activate(code: string, domain: string, productItem: Option<int>, version: string, sale: Option<Sale>,
      token: string, now: Time)
    | Heartbeat(token: string, domain: string, version: string, now: Time)
    | Suspend(row: nat, reason: string)
    | Reactivate(row: nat)

  predicate Succeeds(c: Config, e: Event) {
    e.Activate? && ActivationRefusal(c, e.domain, e.productItem, e.sale, e.version).None?
  }

  function Step(c: Config, t: Tables, e: Event): Tables {
    match e
    case Activate(code, domain, _, version, sale, token, now) =>
      if Succeeds(c, e) then ActivatedTables(c, t, code, domain, sale.value.itemId, version, token, now) else t
    case Heartbeat(token, domain, version, now) =>
      var r := HeartbeatTables(c, t, token, domain, version, now);
      if r.Done? then r.value else t
    case Suspend(k, reason) => t.(installations := SuspendedRows(t.installations, k, reason))
    case Reactivate(k) => t.(installations := ReactivatedRows(t.installations, k))
  }

  function Run(c: Config, events: seq<Event>): Tables {
    if events == [] then Tables([], [])
    else Step(c, Run(c, events[..|events| - 1]), events[|events| - 1])
  }

  // ----- Uniqueness and suspicious siblings -----

  predicate PurchasesUnique(t: Tables) {
    forall i, j :: 0 <= i < j < |t.purchases| ==> t.purchases[i].fingerprint != t.purchases[j].fingerprint
  }

  predicate PairsUnique(t: Tables) {
    forall i, j :: 0 <= i < j < |t.installations| ==>
      t.installations[i].fingerprint != t.installations[j].fingerprint
        || t.installations[i].domain != t.installations[j].domain
  }

  predicate PurchaseKnown(t: Tables, fingerprint: string) {
    exists p :: 0 <= p < |t.purchases| && t.purchases[p].fingerprint == fingerprint
  }

  predicate InstallationsHavePurchases(t: Tables) {
    forall i :: 0 <= i < |t.installations| ==> PurchaseKnown(t, t.installations[i].fingerprint)
  }

  /** Of two installations of one purchase, the older is suspicious. */
  predicate OlderSiblingsSuspicious(t: Tables) {
    var rows := t.installations;
    forall i, j :: 0 <= i < j < |rows| && rows[i].fingerprint == rows[j].fingerprint ==> rows[i].suspicious
  }

  predicate WellKept(t: Tables) {
    PurchasesUnique(t) && PairsUnique(t) && InstallationsHavePurchases(t) && OlderSiblingsSuspicious(t)
  }

  /** Rows keep their pair, and suspicion is never lifted. */
  predicate RowsKept(rows: seq<Installation>, rows': seq<Installation>) {
    |rows| <= |rows'| &&
    forall i :: 0 <= i < |rows| ==>
      rows'[i].fingerprint == rows[i].fingerprint && rows'[i].domain == rows[i].domain
        && (rows[i].suspicious ==> rows'[i].suspicious)
  }

  lemma ActivationKeepsRows(c: Config, t: Tables, e: Event)
    requires Succeeds(c, e) && WellKept(t)
    ensures var t' := Step(c, t, e); var rows' := t'.installations;
            && RowsKept(t.installations, rows')
            && (forall i :: 0 <= i < |t.purchases| ==> PurchaseKnown(t', t.purchases[i].fingerprint))
            && PurchaseKnown(t', Fingerprint(c, e.code))
            && (|rows'| == |t.installations| ||
                (|rows'| == |t.installations| + 1
                  && IsPair(rows'[|rows'| - 1], Fingerprint(c, e.code), NormalizedDomain(e.domain))
                 && (forall i :: 0 <= i < |t.installations| ==>
                     !IsPair(t.installations[i], Fingerprint(c, e.code), NormalizedDomain(e.domain))
                     && (t.installations[i].fingerprint == Fingerprint(c, e.code) ==> rows'[i].suspicious))))
  {
    hide Strip, Lower, UpsertPurchase, Placed, MarkedSiblings, PurchaseKnown, WellKept;
    var fp, dom := Fingerprint(c, e.code), NormalizedDomain(e.domain);
    var t' := Step(c, t, e);
    UpsertKeepsKnown(t.purchases, Purchase(fp, e.sale.value.itemId, c.planForItem(e.sale.value.itemId)), t');
    MarkingKeepsRows(t.installations, fp, dom);
    PlacingKeepsRows(t.installations, MarkedSiblings(t.installations, fp, dom), fp, dom, TokenHash(c, e.token),
      Clip(e.version), e.now);
  }

  lemma UpsertKeepsKnown(rows: seq<Purchase>, p: Purchase, t': Tables)
    requires t'.purchases == UpsertPurchase(rows, p)
    ensures PurchaseKnown(t', p.fingerprint)
    ensures forall i :: 0 <= i < |rows| ==> PurchaseKnown(t', rows[i].fingerprint)
  {
    assert t'.purchases[FindPurchase(rows, p.fingerprint)].fingerprint == p.fingerprint;
    forall i | 0 <= i < |rows| ensures PurchaseKnown(t', rows[i].fingerprint) {
      assert t'.purchases[i].fingerprint == rows[i].fingerprint;
    }
  }

  /** Marking keeps the rows, and leaves no sibling of a pair without a row unsuspected. */
  lemma MarkingKeepsRows(rows: seq<Installation>, fp: string, dom: string)
    ensures var marked := MarkedSiblings(rows, fp, dom);
            && |marked| == |rows| && RowsKept(rows, marked)
            && forall i :: 0 <= i < |rows| && rows[i].fingerprint == fp && rows[i].domain != dom ==>
               marked[i].suspicious
  {
  }

  lemma PlacingKeepsRows(rows: seq<Installation>, marked: seq<Installation>, fp: string, dom: string, hash: string,
                         version: string, now: Time)
    requires |marked| == |rows| && RowsKept(rows, marked)
    requires forall i :: 0 <= i < |rows| && rows[i].fingerprint == fp && rows[i].domain != dom ==> marked[i].suspicious
    ensures var rows' := Placed(marked, fp, dom, hash, version, now);
            && RowsKept(rows, rows')
            && (|rows'| == |rows| ||
                (|rows'| == |rows| + 1 && IsPair(rows'[|rows'| - 1], fp, dom)
                 && (forall i :: 0 <= i < |rows| ==>
                     !IsPair(rows[i], fp, dom) && (rows[i].fingerprint == fp ==> rows'[i].suspicious))))
  {
    var rows' := Placed(marked, fp, dom, hash, version, now);
    if FindPair(marked, fp, dom) == |marked| {
      forall i | 0 <= i < |rows|
        ensures !IsPair(rows[i], fp, dom) && (rows[i].fingerprint == fp ==> rows'[i].suspicious)
      {
        assert !IsPair(marked[i], fp, dom);
      }
    }
  }

  lemma HeartbeatKeepsRows(c: Config, t: Tables, e: Event)
    requires e.Heartbeat?
    ensures Step(c, t, e).purchases == t.purchases
    ensures RowsKept(t.installations, Step(c, t, e).installations) && |Step(c, t, e).installations| == |t.installations|
  {
    hide Strip, Lower;
  }

  lemma ActivationKeepsPurchases(c: Config, t: Tables, e: Event)
    requires Succeeds(c, e) && PurchasesUnique(t)
    ensures PurchasesUnique(Step(c, t, e))
  {
    hide Strip, Lower, Placed, MarkedSiblings;
  }

  lemma ActivationKeepsWellKept(c: Config, t: Tables, e: Event)
    requires Succeeds(c, e) && WellKept(t)
    ensures WellKept(Step(c, t, e))
  {
    ActivationKeepsPurchases(c, t, e);
    ActivationKeepsRows(c, t, e);
    hide Strip, Lower, Step, PurchasesUnique;
    var t' := Step(c, t, e);
    forall i | 0 <= i < |t'.installations| ensures PurchaseKnown(t', t'.installations[i].fingerprint) {
      if i < |t.installations| {
        var p :| 0 <= p < |t.purchases| && t.purchases[p].fingerprint == t.installations[i].fingerprint;
        assert PurchaseKnown(t', t.purchases[p].fingerprint);
      }
    }
  }

  lemma StepKeepsWellKept(c: Config, t: Tables, e: Event)
    requires WellKept(t)
    ensures WellKept(Step(c, t, e))
  {
    hide Strip, Lower, PurchasesUnique, PairsUnique, InstallationsHavePurchases, OlderSiblingsSuspicious;
    var t' := Step(c, t, e);
    match e
    case Activate(_, _, _, _, _, _, _) =>
      if Succeeds(c, e) {
        ActivationKeepsWellKept(c, t, e);
      }
    case Heartbeat(_, _, _, _) =>
      HeartbeatKeepsRows(c, t, e);
      SameShape(t, t');
    case Suspend(_, _) => SameShape(t, t');
    case Reactivate(_) => SameShape(t, t');
  }

  lemma SameShape(t: Tables, t': Tables)
    requires WellKept(t) && t'.purchases == t.purchases
    requires RowsKept(t.installations, t'.installations) && |t'.installations| == |t.installations|
    ensures WellKept(t')
  {
    forall i | 0 <= i < |t'.installations| ensures PurchaseKnown(t', t'.installations[i].fingerprint) {
      assert PurchaseKnown(t, t.installations[i].fingerprint);
    }
  }

  /**
   In every run: one purchase per fingerprint, one row per purchase and domain, and only the newest sibling
   unsuspected.
   */
  lemma {:induction false} EveryRunIsWellKept(c: Config, events: seq<Event>)
    ensures WellKept(Run(c, events))
  {
    if events != [] {
      var n := |events| - 1;
      EveryRunIsWellKept(c, events[..n]);
      StepKeepsWellKept(c, Run(c, events[..n]), events[n]);
    }
  }

  /** With a collision-free hash, one purchase row stands for one normalised code. */
  lemma PurchaseRowPerCode(c: Config, events: seq<Event>, code1: string, code2: string)
    requires CollisionFree(c.sha)
    ensures var rows := Run(c, events).purchases;
            var k1 := FindPurchase(rows, Fingerprint(c, code1)); var k2 := FindPurchase(rows, Fingerprint(c, code2));
            k1 < |rows| && k2 < |rows| ==> (k1 == k2 <==> Lower(Strip(code1)) == Lower(Strip(code2)))
  {
    hide Strip, Lower;
    EveryRunIsWellKept(c, events);
    var rows := Run(c, events).purchases;
    var k1 := FindPurchase(rows, Fingerprint(c, code1));
    var k2 := FindPurchase(rows, Fingerprint(c, code2));
    if k1 == k2 < |rows| {
      assert c.sha(Lower(Strip(code1))) == c.sha(Lower(Strip(code2)));
    }
  }

  /** Among the installations of one purchase at most one is unsuspected, and no later row belongs to that purchase. */
  lemma OnlyTheNewestIsUnsuspected(c: Config, events: seq<Event>, k: nat, i: nat)
    requires var rows := Run(c, events).installations;
             k < |rows| && i < |rows| && i != k && rows[i].fingerprint == rows[k].fingerprint && !rows[k].suspicious
    ensures i < k && Run(c, events).installations[i].suspicious
  {
    EveryRunIsWellKept(c, events);
  }

  // ----- What a token resolves to -----

  ghost predicate CollisionFree(sha: string -> string) {
    forall x, y :: sha(x) == sha(y) ==> x == y
  }

  predicate TokensFresh(events: seq<Event>) {
    forall i, j :: 0 <= i < j < |events| && events[i].Activate? && events[j].Activate? ==>
      events[i].token != events[j].token
  }

  predicate ActivatesPair(c: Config, e: Event, fingerprint: string, domain: string) {
    Succeeds(c, e) && Fingerprint(c, e.code) == fingerprint && NormalizedDomain(e.domain) == domain
  }

  function LastActivation(c: Config, events: seq<Event>, fingerprint: string, domain: string): (r: Option<nat>)
    ensures r.Some? ==> r.value < |events| && ActivatesPair(c, events[r.value], fingerprint, domain)
  {
    if events == [] then None
    else
      var n := |events| - 1;
      if ActivatesPair(c, events[n], fingerprint, domain) then Some(n)
      else LastActivation(c, events[..n], fingerprint, domain)
  }

  /** No later event activates the pair, and no event at all does when there is no last one. */
  lemma {:induction false} LastActivationIsLast(c: Config, events: seq<Event>, fingerprint: string, domain: string)
    ensures var last := LastActivation(c, events, fingerprint, domain);
            forall i :: (if last.Some? then last.value else -1) < i < |events| ==>
              !ActivatesPair(c, events[i], fingerprint, domain)
  {
    hide ActivatesPair;
    if events != [] {
      LastActivationIsLast(c, events[..|events| - 1], fingerprint, domain);
    }
  }

  /** The row carries the hash of the token of the last activation of its pair. */
  predicate TokenIsLast(c: Config, events: seq<Event>, row: Installation) {
    var last := LastActivation(c, events, row.fingerprint, row.domain);
    last.Some? && row.tokenHash == TokenHash(c, events[last.value].token)
  }

  /** Every row carries the hash of the token of the last activation of its own pair. */
  predicate TokensAreLast(c: Config, events: seq<Event>, rows: seq<Installation>) {
    forall k :: 0 <= k < |rows| ==> TokenIsLast(c, events, rows[k])
  }

  /** Every pair that was ever activated has a row. */
  ghost predicate PairsHaveRows(c: Config, events: seq<Event>, rows: seq<Installation>) {
    forall fp, dom :: LastActivation(c, events, fp, dom).Some? ==> FindPair(rows, fp, dom) < |rows|
  }

  predicate SamePairsAndTokens(rows: seq<Installation>, rows': seq<Installation>) {
    |rows| == |rows'| &&
    forall i :: 0 <= i < |rows| ==>
      rows'[i].fingerprint == rows[i].fingerprint && rows'[i].domain == rows[i].domain
        && rows'[i].tokenHash == rows[i].tokenHash
  }

  lemma SamePairsFound(rows: seq<Installation>, rows': seq<Installation>, fp: string, dom: string)
    requires |rows| <= |rows'|
    requires forall i :: 0 <= i < |rows| ==>
             rows'[i].fingerprint == rows[i].fingerprint && rows'[i].domain == rows[i].domain
    requires FindPair(rows, fp, dom) < |rows|
    ensures FindPair(rows', fp, dom) < |rows'|
  {
    var k := FindPair(rows, fp, dom);
    assert IsPair(rows'[k], fp, dom);
  }

  lemma QuietStep(c: Config, t: Tables, e: Event)
    requires !Succeeds(c, e)
    ensures SamePairsAndTokens(t.installations, Step(c, t, e).installations)
  {
    hide Strip, Lower, HeartbeatTables;
    if e.Heartbeat? {
      HeartbeatKeepsTokens(c, t, e);
    }
  }

  lemma HeartbeatKeepsTokens(c: Config, t: Tables, e: Event)
    requires e.Heartbeat?
    ensures SamePairsAndTokens(t.installations, Step(c, t, e).installations)
  {
    hide Strip, Lower, HasSibling;
  }

  lemma ActivationPlacesToken(c: Config, t: Tables, e: Event)
    requires Succeeds(c, e) && PairsUnique(t)
    ensures var rows, rows' := t.installations, Step(c, t, e).installations;
            var fp, dom := Fingerprint(c, e.code), NormalizedDomain(e.domain);
            && |rows| <= |rows'| <= |rows| + 1
            && (forall i :: 0 <= i < |rows| ==>
                  rows'[i].fingerprint == rows[i].fingerprint && rows'[i].domain == rows[i].domain
                  && rows'[i].tokenHash ==
                     if IsPair(rows[i], fp, dom) then TokenHash(c, e.token) else rows[i].tokenHash)
            && (|rows'| > |rows| ==> IsPair(rows'[|rows|], fp, dom) && rows'[|rows|].tokenHash == TokenHash(c, e.token))
            && FindPair(rows', fp, dom) < |rows'|
  {
    hide Strip, Lower, HasSibling;
    var fp, dom := Fingerprint(c, e.code), NormalizedDomain(e.domain);
    var marked := MarkedSiblings(t.installations, fp, dom);
    var k := FindPair(marked, fp, dom);
    var rows' := Step(c, t, e).installations;
    assert IsPair(rows'[k], fp, dom);
    forall i | 0 <= i < |t.installations| && IsPair(t.installations[i], fp, dom) ensures i == k {
      assert IsPair(marked[i], fp, dom);
    }
  }

  lemma TokenStepIsLast(c: Config, events: seq<Event>, k: nat)
    requires events != [] && k < |Run(c, events).installations|
    requires var n := |events| - 1; TokensAreLast(c, events[..n], Run(c, events[..n]).installations)
    ensures TokenIsLast(c, events, Run(c, events).installations[k])
  {
    hide Strip, Lower, Step, ActivationRefusal, FindPair;
    hide PairsUnique, PurchasesUnique, InstallationsHavePurchases, OlderSiblingsSuspicious;
    var n := |events| - 1;
    var t := Run(c, events[..n]);
    EveryRunIsWellKept(c, events[..n]);
    if k < |t.installations| {
      assert TokenIsLast(c, events[..n], t.installations[k]);
    }
    if Succeeds(c, events[n]) {
      ActivationPlacesToken(c, t, events[n]);
    } else {
      QuietStep(c, t, events[n]);
    }
  }

  lemma PairsStepHaveRows(c: Config, events: seq<Event>, fp: string, dom: string)
    requires events != [] && LastActivation(c, events, fp, dom).Some?
    requires var n := |events| - 1; PairsHaveRows(c, events[..n], Run(c, events[..n]).installations)
    ensures FindPair(Run(c, events).installations, fp, dom) < |Run(c, events).installations|
  {
    hide Strip, Lower, Step, ActivationRefusal, FindPair;
    hide PairsUnique, PurchasesUnique, InstallationsHavePurchases, OlderSiblingsSuspicious;
    var n := |events| - 1;
    var t := Run(c, events[..n]);
    EveryRunIsWellKept(c, events[..n]);
    if Succeeds(c, events[n]) {
      ActivationPlacesToken(c, t, events[n]);
    } else {
      QuietStep(c, t, events[n]);
    }
    if !ActivatesPair(c, events[n], fp, dom) {
      SamePairsFound(t.installations, Run(c, events).installations, fp, dom);
    }
  }

  lemma {:induction false} RowsFollowLastActivation(c: Config, events: seq<Event>)
    ensures TokensAreLast(c, events, Run(c, events).installations)
    ensures PairsHaveRows(c, events, Run(c, events).installations)
  {
    if events != [] {
      RowsFollowLastActivation(c, events[..|events| - 1]);
      forall k | 0 <= k < |Run(c, events).installations|
        ensures TokenIsLast(c, events, Run(c, events).installations[k])
      {
        TokenStepIsLast(c, events, k);
      }
      forall fp, dom | LastActivation(c, events, fp, dom).Some?
        ensures FindPair(Run(c, events).installations, fp, dom) < |Run(c, events).installations|
      {
        PairsStepHaveRows(c, events, fp, dom);
      }
    }
  }

  /**
   The token issued by activation `i` resolves, at the end of any run, to the row of its own purchase
   and domain exactly when no later activation of that same pair succeeded; otherwise it resolves to nothing.
   */
  lemma TokenResolvesUntilNextActivation(c: Config, events: seq<Event>, i: nat)
    requires CollisionFree(c.sha) && TokensFresh(events)
    requires i < |events| && Succeeds(c, events[i])
    ensures var rows := Run(c, events).installations;
            var k := FindToken(rows, TokenHash(c, events[i].token));
            var fp, dom := Fingerprint(c, events[i].code), NormalizedDomain(events[i].domain);
            && (k < |rows| ==> IsPair(rows[k], fp, dom))
            && (k < |rows| <==> forall j :: i < j < |events| ==> !ActivatesPair(c, events[j], fp, dom))
  {
    hide Strip, Lower, Step, ActivationRefusal;
    RowsFollowLastActivation(c, events);
    var rows := Run(c, events).installations;
    var hash := TokenHash(c, events[i].token);
    var k := FindToken(rows, hash);
    var fp, dom := Fingerprint(c, events[i].code), NormalizedDomain(events[i].domain);
    assert ActivatesPair(c, events[i], fp, dom);
    LastActivationIsLast(c, events, fp, dom);
    var last := LastActivation(c, events, fp, dom).value;
    if k < |rows| {
      assert TokenIsLast(c, events, rows[k]);
      var m := LastActivation(c, events, rows[k].fingerprint, rows[k].domain).value;
      assert events[m].token == events[i].token;
      assert m == i;
    }
    if last == i {
      var p := FindPair(rows, fp, dom);
      assert TokenIsLast(c, events, rows[p]);
    }
  }

  // ----- Validation by token, decided from the row -----

  /**
   A token validates exactly when its row exists, the version can be read, the row is not suspended, matches the
   domain, and has beaten recently enough.
   */
  lemma ValidByTokenIff(c: Config, t: Tables, token: string, domain: string, version: string, now: Time)
    ensures (var answer := ValidateByToken(c, t, token, domain, version, now); answer.TokenAnswer? && answer.valid) <==>
            exists k :: 0 <= k < |t.installations| && k == FindToken(t.installations, TokenHash(c, token)) && c.enabled
              && !VersionCrashes(c, version) && !t.installations[k].suspended
              && (domain == "" || NormalizedDomain(domain) == t.installations[k].domain)
              && (c.maxHeartbeatAgeHours <= 0 || t.installations[k].lastHeartbeatAt.None?
                  || now <= t.installations[k].lastHeartbeatAt.value + Hours(c.maxHeartbeatAgeHours))
  {
    hide Strip, Lower, VersionCrashes;
    assert FindToken(t.installations, TokenHash(c, token)) <= |t.installations|;
  }
}
