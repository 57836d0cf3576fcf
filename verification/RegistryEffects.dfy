/** What each operation of the registry does to the two tables, said in terms of the request and the rows alone. */
module RegistryEffects {
  import opened Basics
  import opened Text
  import opened Registry
  import opened RegistryRuns

  /** A version text as the column holds it. */
  function FirstChars(text: string, n: nat): (r: string)
    ensures |r| == (if |text| < n then |text| else n) && r <= text
  {
    if |text| < n then text else text[..n]
  }

  /** Some row of the purchase stands on another domain. */
  predicate Elsewhere(rows: seq<Installation>, fingerprint: string, domain: string) {
    exists row :: row in rows && row.fingerprint == fingerprint && row.domain != domain
  }

  lemma ElsewhereIsSibling(rows: seq<Installation>, fingerprint: string, domain: string)
    ensures HasSibling(rows, fingerprint, domain) <==> Elsewhere(rows, fingerprint, domain)
  {
    if HasSibling(rows, fingerprint, domain) {
      var i :| 0 <= i < |rows| && rows[i].fingerprint == fingerprint && rows[i].domain != domain;
      assert rows[i] in rows;
    }
  }

  // ----- Activation -----

  /** Everything an activation needs: the settings, a domain, a sale of a permitted and matching item, a version. */
  ghost predicate Entitled(c: Config, e: Event)
    requires e.Activate?
  {
    && c.enabled && c.envatoConfigured && Strip(e.domain) != "" && e.sale.Some?
    && (c.allowedItems == {} || (e.sale.value.itemId.Some? && e.sale.value.itemId.value in c.allowedItems))
    && (e.productItem.None? || e.sale.value.itemId.None? || e.productItem.value == e.sale.value.itemId.value)
    && CanCompare(c, e.version)
  }

  lemma SucceedsIff(c: Config, e: Event)
    requires e.Activate?
    ensures Succeeds(c, e) <==> Entitled(c, e)
  {
    CrashesIff(c, e.version);
    assert |NormalizedDomain(e.domain)| == |Strip(e.domain)|;
    hide Strip, Lower, VersionCrashes, CanCompare;
  }

  /** How an activation leaves a row that was there before. */
  predicate ActivatedRow(c: Config, e: Event, elsewhere: bool, row: Installation, row': Installation)
    requires e.Activate?
  {
    var fp, dom := c.sha(Lower(Strip(e.code))), Lower(Strip(e.domain));
    if row.fingerprint == fp && row.domain == dom then
      row' == Installation(fp, dom, c.sha(e.token), FirstChars(e.version, 128), Some(e.now), false, "",
                           row.suspicious || elsewhere)
    else if row.fingerprint == fp then row' == row.(suspicious := row.suspicious || elsewhere)
    else row' == row
  }

  /** Marking the siblings and then placing the pair, row by row. */
  lemma PlacedRows(c: Config, rows: seq<Installation>, e: Event)
    requires e.Activate? && PairsUnique(Tables([], rows))
    ensures var fp, dom := c.sha(Lower(Strip(e.code))), Lower(Strip(e.domain));
            var rows' := Placed(MarkedSiblings(rows, fp, dom), fp, dom, TokenHash(c, e.token), Clip(e.version), e.now);
            var known := exists row :: row in rows && row.fingerprint == fp && row.domain == dom;
            && |rows'| == |rows| + (if known then 0 else 1)
            && (forall i :: 0 <= i < |rows| ==> ActivatedRow(c, e, Elsewhere(rows, fp, dom), rows[i], rows'[i]))
            && (!known ==> rows'[|rows|] == Installation(fp, dom, c.sha(e.token), FirstChars(e.version, 128),
                                                         Some(e.now), false, "", false))
  {
    hide Strip, Lower, HasSibling, Elsewhere;
    var fp, dom := c.sha(Lower(Strip(e.code))), Lower(Strip(e.domain));
    ElsewhereIsSibling(rows, fp, dom);
    var marked := MarkedSiblings(rows, fp, dom);
    var k := FindPair(marked, fp, dom);
    if k < |rows| {
      assert rows[k] in rows && rows[k].fingerprint == fp && rows[k].domain == dom;
    } else {
      forall row | row in rows ensures !(row.fingerprint == fp && row.domain == dom) {
        var i :| 0 <= i < |rows| && rows[i] == row;
        assert !IsPair(marked[i], fp, dom);
      }
    }
  }

  /**
   An activation that is not entitled changes nothing. Any other leaves one unsuspended row for its pair with the hash
   of the new token, makes every row of a purchase suspicious that is installed elsewhere too, except a row it
   creates, and touches no row of another purchase.
   */
  lemma ActivationEffect(c: Config, t: Tables, e: Event)
    requires e.Activate? && PairsUnique(t)
    ensures var fp, dom := c.sha(Lower(Strip(e.code))), Lower(Strip(e.domain));
            var rows, rows' := t.installations, Step(c, t, e).installations;
            var known := exists row :: row in rows && row.fingerprint == fp && row.domain == dom;
            if !Entitled(c, e) then Step(c, t, e) == t
            else
              && |rows'| == |rows| + (if known then 0 else 1)
              && (forall i :: 0 <= i < |rows| ==> ActivatedRow(c, e, Elsewhere(rows, fp, dom), rows[i], rows'[i]))
              && (!known ==> rows'[|rows|] == Installation(fp, dom, c.sha(e.token), FirstChars(e.version, 128),
                                                           Some(e.now), false, "", false))
  {
    SucceedsIff(c, e);
    hide Strip, Lower, Entitled, ActivationRefusal, UpsertPurchase, Elsewhere, Placed, MarkedSiblings, ActivatedRow;
    if Entitled(c, e) {
      PlacedRows(c, t.installations, e);
    }
  }

  /** The purchase carries the item and plan of its last sale, and no other purchase changes. */
  lemma ActivationEffectOnPurchases(c: Config, t: Tables, e: Event)
    requires e.Activate? && PurchasesUnique(t) && Entitled(c, e)
    ensures var item := e.sale.value.itemId;
            var bought := Purchase(c.sha(Lower(Strip(e.code))), item, c.planForItem(item));
            var rows, rows' := t.purchases, Step(c, t, e).purchases;
            var known := exists row :: row in rows && row.fingerprint == bought.fingerprint;
            && |rows'| == |rows| + (if known then 0 else 1)
            && (forall i :: 0 <= i < |rows| ==>
                  rows'[i] == if rows[i].fingerprint == bought.fingerprint then bought else rows[i])
            && (!known ==> rows'[|rows|] == bought)
  {
    SucceedsIff(c, e);
    hide Strip, Lower, Entitled, ActivationRefusal, Placed, MarkedSiblings;
    var fp := c.sha(Lower(Strip(e.code)));
    var rows := t.purchases;
    var k := FindPurchase(rows, fp);
    if k < |rows| {
      assert rows[k] in rows;
    } else {
      forall row | row in rows ensures row.fingerprint != fp {
        var i :| 0 <= i < |rows| && rows[i] == row;
      }
    }
  }

  // ----- Heartbeat -----

  /**
   A beat with a known token: the row gets the contact time, and the version if one is told. If it comes from another
   domain, the row and all rows of the same purchase become suspicious; otherwise no suspicion changes. Any other beat
   changes nothing.
   */
  lemma HeartbeatEffect(c: Config, t: Tables, e: Event, k: nat)
    requires e.Heartbeat? && k < |t.installations|
    requires t.installations[k].tokenHash == c.sha(e.token)
    requires forall i :: 0 <= i < |t.installations| && i != k ==> t.installations[i].tokenHash != c.sha(e.token)
    ensures var rows, rows' := t.installations, Step(c, t, e).installations;
            var moved := Strip(e.domain) != "" && Lower(Strip(e.domain)) != rows[k].domain;
            && Step(c, t, e).purchases == t.purchases
            && (!c.enabled ==> rows' == rows)
            && (c.enabled ==>
                  && |rows'| == |rows|
                  && (forall i :: 0 <= i < |rows| && i != k ==>
                        rows'[i] == rows[i].(suspicious := rows[i].suspicious
                                               || (moved && rows[i].fingerprint == rows[k].fingerprint)))
                  && rows'[k] == rows[k].(
                       suspicious := rows[k].suspicious || moved, lastHeartbeatAt := Some(e.now),
                       appVersion := if e.version == "" then rows[k].appVersion else FirstChars(e.version, 128)))
  {
    assert |NormalizedDomain(e.domain)| == |Strip(e.domain)|;
    hide Strip, Lower;
    assert FindToken(t.installations, TokenHash(c, e.token)) == k;
  }

  lemma UnknownBeatIsIgnored(c: Config, t: Tables, e: Event)
    requires e.Heartbeat? && forall row :: row in t.installations ==> row.tokenHash != c.sha(e.token)
    ensures Step(c, t, e) == t
  {
    hide Strip, Lower;
  }

  // ----- The operator -----

  /** Suspending and reactivating write flag and reason of one existing row, and undo each other's flag. */
  lemma OperatorEffect(c: Config, t: Tables, k: nat, reason: string)
    ensures var rows := t.installations;
            var suspended, reactivated := Step(c, t, Suspend(k, reason)), Step(c, t, Reactivate(k));
            if k >= |rows| then suspended == t && reactivated == t
            else
              && suspended.purchases == reactivated.purchases == t.purchases
              && |suspended.installations| == |reactivated.installations| == |rows|
              && (forall i :: 0 <= i < |rows| && i != k ==>
                    suspended.installations[i] == reactivated.installations[i] == rows[i])
              && reactivated.installations[k] == rows[k].(suspended := false, suspendedReason := "")
              && suspended.installations[k] == rows[k].(
                   suspended := true,
                   suspendedReason := if Strip(reason) == "" then "Suspended by operator"
                                      else FirstChars(Strip(reason), 2000))
              && Step(c, suspended, Reactivate(k)) == reactivated
  {
    hide Strip;
  }

  // ----- What the answer shows -----

  /**
   Why a token is not accepted. An unreadable version comes before the suspension, and both before the domain and the
   age of the last contact.
   */
  lemma RejectedTokenIff(c: Config, t: Tables, token: string, domain: string, version: string, now: Time, k: nat)
    requires k == FindToken(t.installations, c.sha(token))
    ensures var answer := ValidateByToken(c, t, token, domain, version, now);
            var known := c.enabled && k < |t.installations|;
            var readable := CanCompare(c, version);
            var suspended := known && t.installations[k].suspended;
            var there := known && (domain == "" || Lower(Strip(domain)) == t.installations[k].domain);
            && (answer == Crashed <==> known && !readable)
            && (answer == TokenAnswer(false, Shown(Suspended)) <==> readable && suspended)
            && (answer == TokenAnswer(false, InvalidAnswer) <==> !known || (readable && !suspended && !there))
            && (answer == TokenAnswer(false, Shown(Inactive)) <==>
                  && readable && there && !suspended
                  && c.maxHeartbeatAgeHours > 0 && t.installations[k].lastHeartbeatAt.Some?
                  && t.installations[k].lastHeartbeatAt.value + 3600.0 * c.maxHeartbeatAgeHours as real < now)
  {
    CrashesIff(c, version);
    hide Strip, Lower, VersionCrashes, CanCompare;
  }

  /**
   An accepted token is shown as suspicious if its row is; else as pending, inactive or active by its last contact, with
   seventy-two hours for a setting of zero.
   */
  lemma ShownStatus(c: Config, t: Tables, token: string, domain: string, version: string, now: Time, k: nat)
    requires k < |t.installations| && k == FindToken(t.installations, c.sha(token))
    requires var answer := ValidateByToken(c, t, token, domain, version, now); answer.TokenAnswer? && answer.valid
    ensures var row := t.installations[k];
            var hours := if c.inactiveAfterHours == 0 then 72 else c.inactiveAfterHours;
            var shown := ValidateByToken(c, t, token, domain, version, now).status;
            && (shown == Shown(Suspicious) <==> row.suspicious)
            && (shown == Shown(Pending) <==> !row.suspicious && row.lastHeartbeatAt.None?)
            && (shown == Shown(Active) <==> !row.suspicious && row.lastHeartbeatAt.Some?
                                            && now <= row.lastHeartbeatAt.value + 3600.0 * hours as real)
            && (shown == Shown(Inactive) <==> !row.suspicious && row.lastHeartbeatAt.Some?
                                              && row.lastHeartbeatAt.value + 3600.0 * hours as real < now)
  {
    hide Strip, Lower, VersionCrashes;
  }
}
