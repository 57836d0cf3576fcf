/**
 The operator's licence registry: purchases by code fingerprint, one installation row per site,
 activation that rotates the token, heartbeats, validation by token, suspension and reactivation.
 */
module Registry {
  import opened Basics
  import opened Text
  import Versions

  datatype Purchase = Purchase(fingerprint: string, itemId: Option<int>, plan: string)

  datatype Installation = Installation(
    fingerprint: string,
    domain: string,
    tokenHash: string,
    appVersion: string,
    lastHeartbeatAt: Option<Time>,
    suspended: bool,
    suspendedReason: string,
    suspicious: bool)

  /** Both tables, rows in order of creation; a row's position is its primary key. */
  datatype Tables = Tables(purchases: seq<Purchase>, installations: seq<Installation>)

  /** Registry settings, with SHA-256 as an arbitrary function. */
  datatype Config = Config(
    sha: string -> string,
    enabled: bool,
    envatoConfigured: bool,
    allowedItems: set<int>,
    planForItem: Option<int> -> string,
    maxHeartbeatAgeHours: int,
    inactiveAfterHours: int,
    digits: Versions.Table,
    latestVersion: string)

  datatype Sale = Sale(itemId: Option<int>)

  datatype Refusal =
    | Disabled | NotConfigured | DomainRequired | SaleLookupFailed | ItemNotPermitted | ProductMismatch | UnknownToken
    | VersionUnreadable

  datatype Result<+T> = Done(value: T) | Refused(why: Refusal)

  datatype DisplayStatus = Pending | Active | Inactive | Suspended | Suspicious

  function Fingerprint(c: Config, code: string): string {
    c.sha(Lower(Strip(code)))
  }

  function TokenHash(c: Config, token: string): string {
    c.sha(token)
  }

  function NormalizedDomain(domain: string): string {
    Lower(Strip(domain))
  }

  // ----- Queries -----

  predicate IsPair(row: Installation, fingerprint: string, domain: string) {
    row.fingerprint == fingerprint && row.domain == domain
  }

  /** Position of the first row for the pair, or the length of the table. */
  function FindPair(rows: seq<Installation>, fingerprint: string, domain: string): (k: nat)
    ensures k <= |rows|
    ensures k < |rows| ==> IsPair(rows[k], fingerprint, domain)
    ensures forall i :: 0 <= i < k ==> !IsPair(rows[i], fingerprint, domain)
  {
    if rows == [] || IsPair(rows[0], fingerprint, domain) then 0 else 1 + FindPair(rows[1..], fingerprint, domain)
  }

  function FindToken(rows: seq<Installation>, hash: string): (k: nat)
    ensures k <= |rows|
    ensures k < |rows| ==> rows[k].tokenHash == hash
    ensures forall i :: 0 <= i < k ==> rows[i].tokenHash != hash
  {
    if rows == [] || rows[0].tokenHash == hash then 0 else 1 + FindToken(rows[1..], hash)
  }

  function FindPurchase(rows: seq<Purchase>, fingerprint: string): (k: nat)
    ensures k <= |rows|
    ensures k < |rows| ==> rows[k].fingerprint == fingerprint
    ensures forall i :: 0 <= i < k ==> rows[i].fingerprint != fingerprint
  {
    if rows == [] || rows[0].fingerprint == fingerprint then 0 else 1 + FindPurchase(rows[1..], fingerprint)
  }

  predicate HasSibling(rows: seq<Installation>, fingerprint: string, domain: string) {
    exists i :: 0 <= i < |rows| && rows[i].fingerprint == fingerprint && rows[i].domain != domain
  }

  // ----- Updates -----

  /** `update_or_create` by fingerprint. */
  function UpsertPurchase(rows: seq<Purchase>, p: Purchase): seq<Purchase> {
    var k := FindPurchase(rows, p.fingerprint);
    if k < |rows| then rows[k := p] else rows + [p]
  }

  function AllSuspicious(rows: seq<Installation>, fingerprint: string): (r: seq<Installation>)
    ensures |r| == |rows|
    ensures forall i :: 0 <= i < |rows| ==>
              r[i] == if rows[i].fingerprint == fingerprint then rows[i].(suspicious := true) else rows[i]
  {
    seq(|rows|, i requires 0 <= i < |rows| =>
      if rows[i].fingerprint == fingerprint then rows[i].(suspicious := true) else rows[i])
  }

  /** When the purchase is installed on another domain, every one of its rows becomes suspicious. */
  function MarkedSiblings(rows: seq<Installation>, fingerprint: string, domain: string): seq<Installation> {
    if HasSibling(rows, fingerprint, domain) then AllSuspicious(rows, fingerprint) else rows
  }

  /** Activation of a pair: rotate the token and lift suspension on its row, or create a clean row. */
  function Placed(rows: seq<Installation>, fingerprint: string, domain: string, hash: string, version: string,
      now: Time): seq<Installation> {
    var k := FindPair(rows, fingerprint, domain);
    if k < |rows| then
      rows[k := rows[k].(tokenHash := hash, appVersion := version, lastHeartbeatAt := Some(now),
                         suspended := false, suspendedReason := "")]
    else
      rows + [Installation(fingerprint, domain, hash, version, Some(now), false, "", false)]
  }

  function Clip(version: string): string {
    if |version| <= 128 then version else version[..128]
  }

  // ----- Activation -----

  /** Comparing the version with the latest one raises, so that whatever asked for it fails. */
  predicate VersionCrashes(c: Config, version: string) {
    Versions.UpdateAvailable(c.digits, version, c.latestVersion).None?
  }

  /** Both versions can be read, part by part, or one of them is blank. */
  ghost predicate CanCompare(c: Config, version: string) {
    || Strip(version) == "" || Strip(c.latestVersion) == ""
    || forall part :: part in Versions.Split(Strip(version)) || part in Versions.Split(Strip(c.latestVersion)) ==>
         Versions.Readable(c.digits, part)
  }

  lemma CrashesIff(c: Config, version: string)
    ensures VersionCrashes(c, version) <==> !CanCompare(c, version)
  {
    hide Strip, Versions.Split, Versions.Readable, Versions.VersionOf, Versions.UpdateAvailable;
    Versions.UpdateIsAnsweredIff(c.digits, version, c.latestVersion);
    Versions.FourComponentsIff(c.digits, version);
    Versions.FourComponentsIff(c.digits, c.latestVersion);
  }

  /** Why a request is refused before anything is written: decided by the request and the sale, never by the tables. */
  function RequestRefusal(c: Config, domain: string, productItem: Option<int>, sale: Option<Sale>): Option<Refusal> {
    if !c.enabled then Some(Disabled)
    else if !c.envatoConfigured then Some(NotConfigured)
    else if NormalizedDomain(domain) == "" then Some(DomainRequired)
    else if sale.None? then Some(SaleLookupFailed)
    else
      var item := sale.value.itemId;
      if c.allowedItems != {} && (item.None? || item.value !in c.allowedItems) then Some(ItemNotPermitted)
      else if productItem.Some? && item.Some? && item != productItem then Some(ProductMismatch)
      else None
  }

  /** Why an activation is refused, if it is. An unreadable version is noticed last and rolls everything back. */
  function ActivationRefusal(c: Config, domain: string, productItem: Option<int>, sale: Option<Sale>,
                             version: string): Option<Refusal>
  {
    var why := RequestRefusal(c, domain, productItem, sale);
    if why.Some? then why else if VersionCrashes(c, version) then Some(VersionUnreadable) else None
  }

  function ActivatedTables(c: Config, t: Tables, code: string, domain: string, item: Option<int>, version: string,
      token: string, now: Time): Tables {
    var fp := Fingerprint(c, code);
    var dom := NormalizedDomain(domain);
    Tables(
      UpsertPurchase(t.purchases, Purchase(fp, item, c.planForItem(item))),
      Placed(MarkedSiblings(t.installations, fp, dom), fp, dom, TokenHash(c, token), Clip(version), now))
  }

  // ----- Heartbeat -----

  function HeartbeatTables(c: Config, t: Tables, token: string, domain: string, version: string,
      now: Time): Result<Tables> {
    if !c.enabled then Refused(Disabled)
    else
      var k := FindToken(t.installations, TokenHash(c, token));
      if k == |t.installations| then Refused(UnknownToken)
      else
        var inst := t.installations[k];
        var dom := NormalizedDomain(domain);
        var moved := dom != "" && inst.domain != dom;
        var rows := if moved then MarkedSiblings(t.installations, inst.fingerprint, dom) else t.installations;
        Done(t.(installations := rows[k := rows[k].(
          lastHeartbeatAt := Some(now),
          appVersion := if version != "" then Clip(version) else inst.appVersion,
          suspicious := inst.suspicious || moved)]))
  }

  // ----- Validation by token -----

  function DisplayStatusOf(c: Config, inst: Installation, now: Time): DisplayStatus {
    if inst.suspended then Suspended
    else if inst.suspicious then Suspicious
    else
      var hours := if c.inactiveAfterHours == 0 then 72 else c.inactiveAfterHours;
      match inst.lastHeartbeatAt
      case None => Pending
      case Some(last) => if last < now - Hours(hours) then Inactive else Active
  }

  datatype AnswerStatus = InvalidAnswer | Shown(status: DisplayStatus)

  /** `Crashed` is the server error that an unreadable version causes. */
  datatype TokenAnswer = TokenAnswer(valid: bool, status: AnswerStatus) | Crashed

  function ValidateByToken(c: Config, t: Tables, token: string, domain: string, version: string, now: Time): TokenAnswer
  {
    if !c.enabled then TokenAnswer(false, InvalidAnswer)
    else
      var k := FindToken(t.installations, TokenHash(c, token));
      if k == |t.installations| then TokenAnswer(false, InvalidAnswer)
      else
        var inst := t.installations[k];
        if VersionCrashes(c, version) then Crashed
        else if inst.suspended then TokenAnswer(false, Shown(Suspended))
        else if domain != "" && NormalizedDomain(domain) != inst.domain then TokenAnswer(false, InvalidAnswer)
        else if c.maxHeartbeatAgeHours > 0 && inst.lastHeartbeatAt.Some?
                && inst.lastHeartbeatAt.value < now - Hours(c.maxHeartbeatAgeHours)
        then TokenAnswer(false, Shown(Inactive))
        else TokenAnswer(true, Shown(DisplayStatusOf(c, inst, now)))
  }

  // ----- The registry object -----

  class LicenseRegistry {
    const config: Config
    var purchases: seq<Purchase>
    var installations: seq<Installation>

    constructor (c: Config)
      ensures config == c && Contents() == Tables([], [])
    {
      config := c;
      purchases, installations := [], [];
    }

    function Contents(): Tables
      reads this
    {
      Tables(purchases, installations)
    }

    method MarkSuspiciousSiblings(fingerprint: string, domain: string)
      modifies this`installations
      ensures installations == MarkedSiblings(old(installations), fingerprint, domain)
    {
      if HasSibling(installations, fingerprint, domain) {
        installations := AllSuspicious(installations, fingerprint);
      }
    }

    method ActivateInstallation(code: string, domain: string, productItem: Option<int>, version: string,
                                sale: Option<Sale>, token: string, now: Time) returns (r: Result<nat>)
      modifies this
      ensures var why := ActivationRefusal(config, domain, productItem, sale, version);
              if why.Some? then r == Refused(why.value) && Contents() == old(Contents())
              else
                && Contents() ==
                   ActivatedTables(config, old(Contents()), code, domain, sale.value.itemId, version, token, now)
                && r.Done? && r.value < |installations|
                && IsPair(installations[r.value], Fingerprint(config, code), NormalizedDomain(domain))
                && installations[r.value].tokenHash == TokenHash(config, token)
      ensures var open := config.enabled && config.envatoConfigured;
              var named := open && Strip(domain) != "";
              var sold := named && sale.Some?;
              var item := if sale.Some? then sale.value.itemId else None;
              var permitted := sold && (config.allowedItems == {} || (item.Some? && item.value in config.allowedItems));
              var matching := permitted && (productItem.None? || item.None? || productItem.value == item.value);
              && (r.Done? <==> matching && CanCompare(config, version))
              && (r == Refused(Disabled) <==> !config.enabled)
              && (r == Refused(NotConfigured) <==> config.enabled && !config.envatoConfigured)
              && (r == Refused(DomainRequired) <==> open && !named)
              && (r == Refused(SaleLookupFailed) <==> named && !sold)
              && (r == Refused(ItemNotPermitted) <==> sold && !permitted)
              && (r == Refused(ProductMismatch) <==> permitted && !matching)
              && (r == Refused(VersionUnreadable) <==> matching && !CanCompare(config, version))
    {
      CrashesIff(config, version);
      assert |NormalizedDomain(domain)| == |Strip(domain)|;
      hide Strip, Lower, VersionCrashes, CanCompare, Clip, Fingerprint, TokenHash, HasSibling;
      var before := Contents();
      var why := RequestRefusal(config, domain, productItem, sale);
      if why.Some? {
        return Refused(why.value);
      }
      var item := sale.value.itemId;
      var fp := Fingerprint(config, code);
      var dom := NormalizedDomain(domain);
      var p := FindPurchase(purchases, fp);
      var purchase := Purchase(fp, item, config.planForItem(item));
      if p < |purchases| {
        purchases := purchases[p := purchase];
      } else {
        purchases := purchases + [purchase];
      }
      MarkSuspiciousSiblings(fp, dom);
      var hash := TokenHash(config, token);
      var k := FindPair(installations, fp, dom);
      if k < |installations| {
        var row := installations[k].(tokenHash := hash, appVersion := Clip(version), lastHeartbeatAt := Some(now));
        installations := installations[k := row.(suspended := false, suspendedReason := "")];
      } else {
        installations := installations + [Installation(fp, dom, hash, Clip(version), Some(now), false, "", false)];
      }
      if VersionCrashes(config, version) {
        purchases, installations := before.purchases, before.installations;
        return Refused(VersionUnreadable);
      }
      r := Done(k);
    }

    method RecordHeartbeat(token: string, domain: string, version: string, now: Time) returns (r: Result<nat>)
      modifies this
      ensures var result := HeartbeatTables(config, old(Contents()), token, domain, version, now);
              if result.Refused? then r == Refused(result.why) && Contents() == old(Contents())
              else r == Done(FindToken(old(installations), TokenHash(config, token))) && Contents() == result.value
      ensures var known := exists row :: row in old(installations) && row.tokenHash == config.sha(token);
              && (r == Refused(Disabled) <==> !config.enabled)
              && (r == Refused(UnknownToken) <==> config.enabled && !known)
              && (r.Done? <==> config.enabled && known)
    {
      hide Strip, Lower;
      if !config.enabled {
        return Refused(Disabled);
      }
      var k := FindToken(installations, TokenHash(config, token));
      if k == |installations| {
        return Refused(UnknownToken);
      }
      var inst := installations[k];
      var dom := NormalizedDomain(domain);
      if dom != "" && inst.domain != dom {
        inst := inst.(suspicious := true);
        MarkSuspiciousSiblings(inst.fingerprint, dom);
      }
      inst := inst.(lastHeartbeatAt := Some(now));
      if version != "" {
        inst := inst.(appVersion := Clip(version));
      }
      var stored := installations[k];
      stored := stored.(lastHeartbeatAt := inst.lastHeartbeatAt, appVersion := inst.appVersion);
      stored := stored.(suspicious := inst.suspicious);
      installations := installations[k := stored];
      r := Done(k);
    }

    /** A row that does not exist is a 404 and changes nothing. */
    method Suspend(k: nat, reason: string) returns (found: bool)
      modifies this`installations
      ensures found <==> k < old(|installations|)
      ensures installations == SuspendedRows(old(installations), k, reason)
    {
      if k >= |installations| {
        return false;
      }
      var inst := installations[k].(suspended := true);
      var given := Strip(reason);
      given := if |given| <= 2000 then given else given[..2000];
      inst := inst.(suspendedReason := if given != "" then given else DEFAULT_REASON);
      installations := installations[k := inst];
      found := true;
    }

    method Reactivate(k: nat) returns (found: bool)
      modifies this`installations
      ensures found <==> k < old(|installations|)
      ensures installations == ReactivatedRows(old(installations), k)
    {
      if k >= |installations| {
        return false;
      }
      installations := installations[k := installations[k].(suspended := false, suspendedReason := "")];
      found := true;
    }
  }

  const DEFAULT_REASON := "Suspended by operator"

  /** The stripped reason, cut to the length the column is given, or the default one. */
  function ReasonFor(reason: string): string {
    var given := Strip(reason);
    if given == "" then DEFAULT_REASON else if |given| <= 2000 then given else given[..2000]
  }

  function SuspendedRows(rows: seq<Installation>, k: nat, reason: string): seq<Installation> {
    if k < |rows| then rows[k := rows[k].(suspended := true, suspendedReason := ReasonFor(reason))] else rows
  }

  function ReactivatedRows(rows: seq<Installation>, k: nat): seq<Installation> {
    if k < |rows| then rows[k := rows[k].(suspended := false, suspendedReason := "")] else rows
  }
}
