/**
 The single licence row of a self-hosted installation: its fields, its signature, its domain binding,
 and the in-memory object whose `save(update_fields=...)` writes back only the named columns.
 */
module LicenseState {
  import opened Basics
  import opened Text
  import opened DomainTokens

  datatype Status = Inactive | Active | Invalid | Grace

  datatype Row = Row(
    purchaseCode: string,
    activationToken: string,
    jwt: Jwt,
    activatedDomain: string,
    activatedAt: Option<Time>,
    status: Status,
    lastValidationAt: Option<Time>,
    lastSuccessAt: Option<Time>,
    graceUntil: Option<real>,
    lastError: Note,
    productOverride: string,
    signature: string,
    planType: string,
    features: map<string, bool>,
    lastContactAt: Option<Time>)

  /** Message texts: the fixed ones by name, the server's own as received. */
  datatype Note =
    | NoNote | CredentialsMissing | ActivateFirst | CodeMalformed | ServerNotConfigured | ServerFailed | NoTokenReturned
    | LicenseIsActive | RunningInGrace | GraceExpired | FromServer(text: string)

  /** The row `get_or_create` makes the first time. */
  const PRISTINE := Row("", "", Blank, "", None, Inactive, None, None, None, NoNote, "", "", "", map[], None)

  /** Deployment settings, with the keyed hash of the joined row values as an arbitrary function. */
  datatype Settings = Settings(
    hmac: SignedFields -> string,
    cacheTtl: int,
    graceHours: int,
    gatewayConfigured: bool,
    serverUrlConfigured: bool,
    jwtTtlHours: int,
    enforcement: bool,
    domainBinding: bool,
    staleEnforcement: bool,
    warnDays: real,
    readonlyDays: real)

  datatype Features = Absent | Table(flags: map<string, bool>) | Names(names: seq<string>) | Unusable

  /** The fields read from a gateway answer. */
  datatype Payload = Payload(
    domain: string,
    plan: string,
    features: Features,
    featuresSnapshot: Features,
    message: string,
    activationToken: string,
    ok: bool)

  /** An answer without any of these fields. */
  const NO_PAYLOAD := Payload("", "", Absent, Absent, "", "", true)

  predicate Licensed(st: Status) {
    st == Active || st == Grace
  }

  /** The six values whose joined text is signed; a missing success counts as second 0. */
  datatype SignedFields = SignedFields(
    purchaseCode: string, tokenPrefix: string, domain: string, status: Status, successSecond: int,
      productOverride: string)

  function SignaturePayload(row: Row): SignedFields {
    SignedFields(
      row.purchaseCode,
      if |row.activationToken| <= 16 then row.activationToken else row.activationToken[..16],
      row.activatedDomain,
      row.status,
      if row.lastSuccessAt.Some? then row.lastSuccessAt.value.Floor else 0,
      row.productOverride)
  }

  function SignatureOf(s: Settings, row: Row): string {
    s.hmac(SignaturePayload(row))
  }

  predicate SignatureCurrent(s: Settings, row: Row) {
    row.signature == SignatureOf(s, row)
  }

  function Signed(s: Settings, row: Row): Row {
    row.(signature := SignatureOf(s, row))
  }

  function Bound(s: Settings, row: Row, now: Time): Row {
    var dom := Strip(row.activatedDomain);
    row.(jwt := if Licensed(row.status) && dom != "" then Issue(s.jwtTtlHours, dom, row.planType, now) else Blank)
  }

  function NormalizePlan(value: string): string {
    var t := Lower(Strip(value));
    if t == "basic" || t == "saas" then t else ""
  }

  function AllEnabled(names: seq<string>): map<string, bool> {
    map k | k in names :: true
  }

  function Merged(s: Settings, row: Row, data: Payload, now: Time): Row {
    var plan := NormalizePlan(data.plan);
    var feat := if data.features.Absent? then data.featuresSnapshot else data.features;
    Signed(s, row.(
      lastContactAt := Some(now),
      planType := if plan != "" then plan else row.planType,
      features := match feat
                  case Table(flags) => flags
                  case Names(names) => AllEnabled(names)
                  case _ => row.features))
  }

  /** The columns that `save` can be restricted to (the automatic update stamp is not modelled). */
  datatype Field =
    | PurchaseCodeF | ActivationTokenF | JwtF | ActivatedDomainF | ActivatedAtF | StatusF | LastValidationF
    | LastSuccessF | GraceUntilF | LastErrorF | ProductOverrideF | SignatureF | PlanTypeF | FeaturesF | LastContactF

  /** The stored row after writing the columns `fields` of `mem` over `stored`. */
  function Overlay(stored: Row, mem: Row, fields: set<Field>): Row {
    Row(
      if PurchaseCodeF in fields then mem.purchaseCode else stored.purchaseCode,
      if ActivationTokenF in fields then mem.activationToken else stored.activationToken,
      if JwtF in fields then mem.jwt else stored.jwt,
      if ActivatedDomainF in fields then mem.activatedDomain else stored.activatedDomain,
      if ActivatedAtF in fields then mem.activatedAt else stored.activatedAt,
      if StatusF in fields then mem.status else stored.status,
      if LastValidationF in fields then mem.lastValidationAt else stored.lastValidationAt,
      if LastSuccessF in fields then mem.lastSuccessAt else stored.lastSuccessAt,
      if GraceUntilF in fields then mem.graceUntil else stored.graceUntil,
      if LastErrorF in fields then mem.lastError else stored.lastError,
      if ProductOverrideF in fields then mem.productOverride else stored.productOverride,
      if SignatureF in fields then mem.signature else stored.signature,
      if PlanTypeF in fields then mem.planType else stored.planType,
      if FeaturesF in fields then mem.features else stored.features,
      if LastContactF in fields then mem.lastContactAt else stored.lastContactAt)
  }

  /** The object a request works on: a private copy of the stored row. */
  class State {
    const settings: Settings
    var purchaseCode: string
    var activationToken: string
    var jwt: Jwt
    var activatedDomain: string
    var activatedAt: Option<Time>
    var status: Status
    var lastValidationAt: Option<Time>
    var lastSuccessAt: Option<Time>
    var graceUntil: Option<real>
    var lastError: Note
    var productOverride: string
    var signature: string
    var planType: string
    var features: map<string, bool>
    var lastContactAt: Option<Time>

    constructor Load(s: Settings, row: Row)
      ensures settings == s && Snapshot() == row
    {
      settings := s;
      purchaseCode, activationToken, jwt := row.purchaseCode, row.activationToken, row.jwt;
      activatedDomain, activatedAt, status := row.activatedDomain, row.activatedAt, row.status;
      lastValidationAt, lastSuccessAt := row.lastValidationAt, row.lastSuccessAt;
      graceUntil, lastError, productOverride := row.graceUntil, row.lastError, row.productOverride;
      signature, planType, features, lastContactAt := row.signature, row.planType, row.features, row.lastContactAt;
    }

    function Snapshot(): Row
      reads this
    {
      Row(purchaseCode, activationToken, jwt, activatedDomain, activatedAt, status, lastValidationAt,
          lastSuccessAt, graceUntil, lastError, productOverride, signature, planType, features, lastContactAt)
    }

    method TouchSignature()
      modifies this`signature
      ensures Snapshot() == Signed(settings, old(Snapshot()))
    {
      signature := settings.hmac(SignaturePayload(Snapshot()));
    }

    method ApplyDomainBinding(now: Time)
      modifies this`jwt
      ensures Snapshot() == Bound(settings, old(Snapshot()), now)
    {
      var dom := Strip(activatedDomain);
      if (status == Active || status == Grace) && dom != "" {
        jwt := Issue(settings.jwtTtlHours, dom, planType, now);
      } else {
        jwt := Blank;
      }
    }

    method MergeGatewayPayload(data: Payload, now: Time)
      modifies this
      ensures Snapshot() == Merged(settings, old(Snapshot()), data, now)
    {
      hide NormalizePlan, AllEnabled, SignaturePayload;
      lastContactAt := Some(now);
      var plan := NormalizePlan(data.plan);
      if plan != "" {
        planType := plan;
      }
      var feat := data.features;
      if feat.Absent? {
        feat := data.featuresSnapshot;
      }
      if feat.Table? {
        features := feat.flags;
      } else if feat.Names? {
        features := AllEnabled(feat.names);
      }
      TouchSignature();
    }
  }

  /** Signing after binding or merging leaves a current signature, and rebinding never disturbs it. */
  lemma SigningCommutesWithBinding(s: Settings, row: Row, now: Time)
    ensures Signed(s, Bound(s, row, now)) == Bound(s, Signed(s, row), now)
    ensures SignatureCurrent(s, Signed(s, row))
    ensures SignatureCurrent(s, row) ==> SignatureCurrent(s, Bound(s, row, now))
  {
  }
}
