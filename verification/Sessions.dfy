/**
 Refresh sessions: a login opens a session, rotation replaces its refresh token, revocation ends it.
 Tokens are the outstanding rows; the blacklist is a set of token ids.
 */
module Sessions {
  import opened Basics

  const REFRESH_TOKEN_LIFETIME := 604800.0

  type Id = int

  datatype Token = Token(jti: Id, sid: Id, user: int, createdAt: Time, expiresAt: Time)

  datatype Tables = Tables(outstanding: seq<Token>, blacklisted: set<Id>)

  /** Still usable: unexpired and not blacklisted. */
  predicate Active(t: Token, blacklisted: set<Id>, now: Time) {
    now < t.expiresAt && t.jti !in blacklisted
  }

  predicate Known(tables: Tables, jti: Id) {
    exists i :: 0 <= i < |tables.outstanding| && tables.outstanding[i].jti == jti
  }

  predicate KnownSession(tables: Tables, sid: Id) {
    exists i :: 0 <= i < |tables.outstanding| && tables.outstanding[i].sid == sid
  }

  /** The row of a presented token, searching from the newest. */
  function Find(outstanding: seq<Token>, jti: Id): Option<Token> {
    if outstanding == [] then None
    else if outstanding[|outstanding| - 1].jti == jti then Some(outstanding[|outstanding| - 1])
    else Find(outstanding[..|outstanding| - 1], jti)
  }

  lemma {:induction false} FindIsTheRow(tables: Tables, jti: Id)
    ensures Find(tables.outstanding, jti).Some? <==> Known(tables, jti)
    ensures Find(tables.outstanding, jti).Some? ==>
            Find(tables.outstanding, jti).value in tables.outstanding && Find(tables.outstanding, jti).value.jti == jti
    decreases |tables.outstanding|
  {
    var rows := tables.outstanding;
    if rows != [] && rows[|rows| - 1].jti != jti {
      var rest := tables.(outstanding := rows[..|rows| - 1]);
      FindIsTheRow(rest, jti);
      if Known(tables, jti) {
        var i :| 0 <= i < |rows| && rows[i].jti == jti;
        assert rest.outstanding[i].jti == jti;
      }
    }
  }

  // ----- Steps -----

  datatype Event =
    | Login(user: int, jti: Id, sid: Id, at: Time)
    | Rotate(presented: Id, jti: Id, allowed: bool, at: Time)
    | RevokeOne(user: int, id: Id, at: Time)
    | RevokeAll(user: int, at: Time)

  /** Identifiers drawn by a step were never drawn before. */
  predicate FreshIds(tables: Tables, e: Event) {
    match e
    case Login(_, jti, sid, _) => !Known(tables, jti) && !KnownSession(tables, sid)
    case Rotate(_, jti, _, _) => !Known(tables, jti)
    case _ => true
  }

  /** Rotation accepts the presented token. */
  predicate Accepts(tables: Tables, presented: Id, allowed: bool, now: Time) {
    var found := Find(tables.outstanding, presented);
    found.Some? && Active(found.value, tables.blacklisted, now) && allowed
  }

  function Rotated(t: Token, jti: Id, now: Time): Token {
    t.(jti := jti, createdAt := now, expiresAt := now + REFRESH_TOKEN_LIFETIME)
  }

  /** Ids of the unexpired tokens of a user. */
  function TokensOf(outstanding: seq<Token>, user: int, now: Time): set<Id> {
    set i | 0 <= i < |outstanding| && outstanding[i].user == user
      && now < outstanding[i].expiresAt :: outstanding[i].jti
  }

  function Step(tables: Tables, e: Event): Tables {
    match e
    case Login(user, jti, sid, at) =>
      tables.(outstanding := tables.outstanding + [Token(jti, sid, user, at, at + REFRESH_TOKEN_LIFETIME)])
    case Rotate(presented, jti, allowed, at) =>
      if Accepts(tables, presented, allowed, at) then
        Tables(tables.outstanding + [Rotated(Find(tables.outstanding, presented).value, jti, at)],
          tables.blacklisted + {presented})
      else tables
    case RevokeOne(user, id, at) =>
      var found := Find(tables.outstanding, id);
      if found.Some? && found.value.user == user && Active(found.value, tables.blacklisted, at) then
        tables.(blacklisted := tables.blacklisted + {id})
      else tables
    case RevokeAll(user, at) => tables.(blacklisted := tables.blacklisted + TokensOf(tables.outstanding, user, at))
  }

  function Run(tables: Tables, events: seq<Event>): Tables {
    if events == [] then tables else Step(Run(tables, events[..|events| - 1]), events[|events| - 1])
  }

  ghost predicate FreshRun(tables: Tables, events: seq<Event>) {
    forall k {:trigger events[k]} :: 0 <= k < |events| ==> FreshIds(Run(tables, events[..k]), events[k])
  }

  // ----- What every run keeps -----

  /**
   Token ids are unique, a session belongs to one user, every token of a session but the newest is blacklisted,
   and only known tokens are.
   */
  predicate Sound(tables: Tables) {
    IdsUnique(tables) && OlderSpent(tables) && BlacklistedKnown(tables)
  }

  predicate IdsUnique(tables: Tables) {
    var rows := tables.outstanding;
    forall i, j :: 0 <= i < j < |rows| ==> rows[i].jti != rows[j].jti
  }

  predicate OlderSpent(tables: Tables) {
    var rows := tables.outstanding;
    forall i, j :: 0 <= i < j < |rows| && rows[i].sid == rows[j].sid ==>
      rows[i].user == rows[j].user && rows[i].jti in tables.blacklisted
  }

  predicate BlacklistedKnown(tables: Tables) {
    forall id :: id in tables.blacklisted ==> Known(tables, id)
  }

  lemma BlacklistedIsKnown(tables: Tables, e: Event, id: Id)
    requires Sound(tables) && id in Step(tables, e).blacklisted
    ensures Known(Step(tables, e), id)
  {
    if e.Rotate? {
      FindIsTheRow(tables, e.presented);
    } else if e.RevokeOne? {
      FindIsTheRow(tables, e.id);
    }
    assert Known(tables, id);
    var i :| 0 <= i < |tables.outstanding| && tables.outstanding[i].jti == id;
    assert Step(tables, e).outstanding[i].jti == id;
  }

  lemma StepKeepsSound(tables: Tables, e: Event)
    requires Sound(tables) && FreshIds(tables, e)
    ensures Sound(Step(tables, e))
  {
    StepKeepsIdsUnique(tables, e);
    StepKeepsOlderSpent(tables, e);
    forall id | id in Step(tables, e).blacklisted ensures Known(Step(tables, e), id) {
      BlacklistedIsKnown(tables, e, id);
    }
    hide Step, Known, FreshIds, IdsUnique, OlderSpent;
  }

  lemma StepKeepsIdsUnique(tables: Tables, e: Event)
    requires IdsUnique(tables) && FreshIds(tables, e)
    ensures IdsUnique(Step(tables, e))
  {
    hide TokensOf, Find;
  }

  lemma StepKeepsOlderSpent(tables: Tables, e: Event)
    requires Sound(tables) && FreshIds(tables, e)
    ensures OlderSpent(Step(tables, e))
  {
    hide TokensOf, Find, BlacklistedKnown;
    if e.Rotate? && Accepts(tables, e.presented, e.allowed, e.at) {
      FindIsTheRow(tables, e.presented);
      RotatedIsTheNewest(tables, Find(tables.outstanding, e.presented).value);
    }
  }

  /** A live token is the newest of its session: an older one would be blacklisted. */
  lemma RotatedIsTheNewest(tables: Tables, t: Token)
    requires OlderSpent(tables) && t in tables.outstanding && t.jti !in tables.blacklisted
    ensures forall i :: 0 <= i < |tables.outstanding| && tables.outstanding[i].sid == t.sid ==>
              tables.outstanding[i].user == t.user && tables.outstanding[i].jti in tables.blacklisted + {t.jti}
  {
    var rows := tables.outstanding;
    var k :| 0 <= k < |rows| && rows[k] == t;
    forall i | 0 <= i < |rows| && rows[i].sid == t.sid
      ensures rows[i].user == t.user && rows[i].jti in tables.blacklisted + {t.jti}
    {
      assert i <= k;
    }
  }

  lemma {:induction false} EveryRunIsSound(tables: Tables, events: seq<Event>)
    requires Sound(tables) && FreshRun(tables, events)
    ensures Sound(Run(tables, events))
  {
    if events != [] {
      var front := events[..|events| - 1];
      forall k | 0 <= k < |front| ensures FreshIds(Run(tables, front[..k]), front[k]) {
        assert front[..k] == events[..k] && front[k] == events[k];
      }
      EveryRunIsSound(tables, front);
      StepKeepsSound(Run(tables, front), events[|events| - 1]);
    }
  }

  lemma OneLivePerSession(tables: Tables, s: Token, t: Token, now: Time)
    requires Sound(tables) && s in tables.outstanding && t in tables.outstanding && s.sid == t.sid
    requires Active(s, tables.blacklisted, now) && Active(t, tables.blacklisted, now)
    ensures s == t
  {
  }

  /** In every run a session has at most one live refresh token. */
  lemma {:induction false} AtMostOneLivePerSession(events: seq<Event>, s: Token, t: Token, now: Time)
    requires FreshRun(Tables([], {}), events)
    requires var tables := Run(Tables([], {}), events);
             && s in tables.outstanding && t in tables.outstanding && s.sid == t.sid
             && Active(s, tables.blacklisted, now) && Active(t, tables.blacklisted, now)
    ensures s == t
  {
    assert Sound(Tables([], {}));
    hide Sound, Run, FreshRun;
    EveryRunIsSound(Tables([], {}), events);
    OneLivePerSession(Run(Tables([], {}), events), s, t, now);
  }

  /** A blacklisted token is never accepted again, so a token is rotated at most once. */
  lemma {:induction false} BlacklistOnlyGrows(tables: Tables, events: seq<Event>)
    ensures tables.blacklisted <= Run(tables, events).blacklisted
    ensures tables.outstanding <= Run(tables, events).outstanding
  {
    if events != [] {
      BlacklistOnlyGrows(tables, events[..|events| - 1]);
    }
  }

  /**
   A rotation is accepted exactly for a user who may log in, with an unexpired token that is not blacklisted. Otherwise
   nothing is issued and nothing is blacklisted.
   */
  lemma RotationAcceptedIff(tables: Tables, presented: Id, jti: Id, allowed: bool, at: Time)
    requires IdsUnique(tables)
    ensures var tables' := Step(tables, Rotate(presented, jti, allowed, at));
            var accepted := allowed && presented !in tables.blacklisted
                            && exists t :: t in tables.outstanding && t.jti == presented && at < t.expiresAt;
            && (accepted <==> |tables'.outstanding| > |tables.outstanding|)
            && (!accepted ==> tables' == tables)
            && (accepted ==> tables'.blacklisted == tables.blacklisted + {presented})
  {
    FindIsTheRow(tables, presented);
    if t :| t in tables.outstanding && t.jti == presented && at < t.expiresAt {
      var i :| 0 <= i < |tables.outstanding| && tables.outstanding[i] == t;
      assert Known(tables, presented);
      assert Find(tables.outstanding, presented).value == t;
    }
    hide Find;
  }

  /** The token comes from this event: a login, or the rotation of a live token of the same user and session. */
  predicate IssuedBy(before: Tables, e: Event, t: Token) {
    match e
    case Login(user, jti, sid, at) => t == Token(jti, sid, user, at, at + 604800.0)
    case Rotate(presented, jti, allowed, at) =>
      && allowed && presented !in before.blacklisted
      && t.jti == jti && t.createdAt == at && t.expiresAt == at + 604800.0
      && exists former :: former in before.outstanding && former.jti == presented && at < former.expiresAt
                           && former.sid == t.sid && former.user == t.user
    case _ => false
  }

  /**
   Every refresh token of every run was issued for seven days by a login, or by rotating a live token of the same user
   and session for a user who may log in.
   */
  lemma {:induction false} EveryTokenIsIssued(events: seq<Event>, t: Token)
    requires t in Run(Tables([], {}), events).outstanding
    ensures exists k :: 0 <= k < |events| && IssuedBy(Run(Tables([], {}), events[..k]), events[k], t)
  {
    var n := |events| - 1;
    var front := events[..n];
    var before := Run(Tables([], {}), front);
    if t in before.outstanding {
      EveryTokenIsIssued(front, t);
      var k :| 0 <= k < |front| && IssuedBy(Run(Tables([], {}), front[..k]), front[k], t);
      assert front[..k] == events[..k] && front[k] == events[k];
    } else {
      if events[n].Rotate? {
        FindIsTheRow(before, events[n].presented);
      }
      assert IssuedBy(Run(Tables([], {}), events[..n]), events[n], t);
    }
  }

  lemma {:induction false} RotatedTokenIsSpent(tables: Tables, presented: Id, jti: Id, at: Time, events: seq<Event>,
      allowed: bool, later: Time)
    requires Accepts(tables, presented, true, at)
    ensures !Accepts(Run(Step(tables, Rotate(presented, jti, true, at)), events), presented, allowed, later)
  {
    var tables' := Step(tables, Rotate(presented, jti, true, at));
    BlacklistOnlyGrows(tables', events);
    FindIsTheRow(Run(tables', events), presented);
  }

  /** No token of the user is live at `now` or later. */
  predicate LockedOut(tables: Tables, user: int, now: Time) {
    forall i :: 0 <= i < |tables.outstanding| && tables.outstanding[i].user == user ==>
      !Active(tables.outstanding[i], tables.blacklisted, now)
  }

  /** After revoking everything, only a new login lets the user in again. */
  lemma {:induction false} RevokedUserStaysOut(tables: Tables, user: int, at: Time, events: seq<Event>)
    requires forall e :: e in events ==> at <= e.at && !(e.Login? && e.user == user)
    ensures LockedOut(Run(Step(tables, RevokeAll(user, at)), events), user, at)
  {
    var revoked := Step(tables, RevokeAll(user, at));
    if events != [] {
      var front, e := events[..|events| - 1], events[|events| - 1];
      assert e in events;
      RevokedUserStaysOut(tables, user, at, front);
      var before := Run(revoked, front);
      if e.Rotate? && Accepts(before, e.presented, e.allowed, e.at) {
        FindIsTheRow(before, e.presented);
      }
    }
  }

  /** Revoking one user's sessions touches nobody else's tokens. */
  lemma OthersAreUntouched(tables: Tables, user: int, at: Time, t: Token, now: Time)
    requires Sound(tables) && t in tables.outstanding && t.user != user
    ensures Active(t, Step(tables, RevokeAll(user, at)).blacklisted, now) <==> Active(t, tables.blacklisted, now)
  {
  }

  // ----- Listings and counts -----

  /** The user's live sessions, newest first. */
  function Listing(outstanding: seq<Token>, blacklisted: set<Id>, user: int, now: Time): seq<Token> {
    if outstanding == [] then []
    else
      var t := outstanding[|outstanding| - 1];
      (if t.user == user && Active(t, blacklisted, now) then [t] else [])
        + Listing(outstanding[..|outstanding| - 1], blacklisted, user, now)
  }

  lemma {:induction false} ListingIsExactlyTheLiveTokens(outstanding: seq<Token>, blacklisted: set<Id>, user: int,
      now: Time, t: Token)
    ensures t in Listing(outstanding, blacklisted, user, now) <==>
            t in outstanding && t.user == user && Active(t, blacklisted, now)
  {
    if outstanding != [] {
      var n := |outstanding| - 1;
      ListingIsExactlyTheLiveTokens(outstanding[..n], blacklisted, user, now, t);
      assert outstanding == outstanding[..n] + [outstanding[n]];
    }
  }

  /** Of two listed tokens the first stands later in the table. */
  lemma {:induction false} ListingIsNewestFirst(outstanding: seq<Token>, blacklisted: set<Id>, user: int, now: Time,
                                                i: nat, j: nat)
    requires i < j < |Listing(outstanding, blacklisted, user, now)|
    ensures var listing := Listing(outstanding, blacklisted, user, now);
            exists p, q :: 0 <= q < p < |outstanding| && outstanding[p] == listing[i] && outstanding[q] == listing[j]
  {
    hide Active;
    var n := |outstanding| - 1;
    var front, t := outstanding[..n], outstanding[n];
    var listing, rest := Listing(outstanding, blacklisted, user, now), Listing(front, blacklisted, user, now);
    if t.user == user && Active(t, blacklisted, now) {
      if i == 0 {
        ListingIsExactlyTheLiveTokens(front, blacklisted, user, now, rest[j - 1]);
        var q :| 0 <= q < |front| && front[q] == rest[j - 1];
        assert outstanding[n] == listing[0] && outstanding[q] == listing[j];
      } else {
        ListingIsNewestFirst(front, blacklisted, user, now, i - 1, j - 1);
        var p, q :| 0 <= q < p < |front| && front[p] == rest[i - 1] && front[q] == rest[j - 1];
        assert outstanding[p] == listing[i] && outstanding[q] == listing[j];
      }
    } else {
      ListingIsNewestFirst(front, blacklisted, user, now, i, j);
      var p, q :| 0 <= q < p < |front| && front[p] == rest[i] && front[q] == rest[j];
      assert outstanding[p] == listing[i] && outstanding[q] == listing[j];
    }
  }

  function SessionCount(outstanding: seq<Token>, blacklisted: set<Id>, tenantOf: int -> Option<int>, tenant: int,
      now: Time): nat {
    if outstanding == [] then 0
    else
      var t := outstanding[|outstanding| - 1];
      SessionCount(outstanding[..|outstanding| - 1], blacklisted, tenantOf, tenant, now)
      + if tenantOf(t.user) == Some(tenant) && Active(t, blacklisted, now) then 1 else 0
  }

  function ActiveUsers(outstanding: seq<Token>, blacklisted: set<Id>, tenantOf: int -> Option<int>, tenant: int,
      now: Time): set<int> {
    set i | 0 <= i < |outstanding| && tenantOf(outstanding[i].user) == Some(tenant)
      && Active(outstanding[i], blacklisted, now) :: outstanding[i].user
  }

  function SumOfListings(outstanding: seq<Token>, blacklisted: set<Id>, users: seq<int>, now: Time): nat {
    if users == [] then 0
    else |Listing(outstanding, blacklisted, users[0], now)| + SumOfListings(outstanding, blacklisted, users[1..], now)
  }

  lemma {:induction false} OneMoreToken(outstanding: seq<Token>, blacklisted: set<Id>, users: seq<int>, now: Time)
    requires outstanding != []
    requires forall i, j :: 0 <= i < j < |users| ==> users[i] != users[j]
    ensures var t := outstanding[|outstanding| - 1];
            SumOfListings(outstanding, blacklisted, users, now) ==
            SumOfListings(outstanding[..|outstanding| - 1], blacklisted, users, now)
            + if t.user in users && Active(t, blacklisted, now) then 1 else 0
  {
    if users != [] {
      OneMoreToken(outstanding, blacklisted, users[1..], now);
      assert users == [users[0]] + users[1..];
    }
  }

  /** A tenant's session count is the sum of what its users see in their own listings. */
  lemma {:induction false} TenantCountIsTheSumOfListings(
      outstanding: seq<Token>, blacklisted: set<Id>, tenantOf: int -> Option<int>, tenant: int, users: seq<int>,
        now: Time)
    requires forall i, j :: 0 <= i < j < |users| ==> users[i] != users[j]
    requires forall user :: user in users ==> tenantOf(user) == Some(tenant)
    requires ActiveUsers(outstanding, blacklisted, tenantOf, tenant, now) <= set user | user in users
    ensures SessionCount(outstanding, blacklisted, tenantOf, tenant, now) ==
            SumOfListings(outstanding, blacklisted, users, now)
  {
    if outstanding == [] {
      NoTokensNoListings(blacklisted, users, now);
    } else {
      var n := |outstanding| - 1;
      var front, t := outstanding[..n], outstanding[n];
      OneMoreToken(outstanding, blacklisted, users, now);
      forall user | user in ActiveUsers(front, blacklisted, tenantOf, tenant, now) ensures user in users {
        var i :|
          0 <= i < |front| && tenantOf(front[i].user) == Some(tenant) && Active(front[i], blacklisted, now)
            && front[i].user == user;
        assert outstanding[i] == front[i];
        assert user in ActiveUsers(outstanding, blacklisted, tenantOf, tenant, now);
      }
      TenantCountIsTheSumOfListings(front, blacklisted, tenantOf, tenant, users, now);
      if tenantOf(t.user) == Some(tenant) && Active(t, blacklisted, now) {
        assert outstanding[n].user in ActiveUsers(outstanding, blacklisted, tenantOf, tenant, now);
      }
    }
  }

  lemma {:induction false} NoTokensNoListings(blacklisted: set<Id>, users: seq<int>, now: Time)
    ensures SumOfListings([], blacklisted, users, now) == 0
  {
    if users != [] {
      NoTokensNoListings(blacklisted, users[1..], now);
    }
  }

  datatype TenantStats = TenantStats(sessions: nat, users: nat)

  // ----- The tables and their operations -----

  class SessionStore {
    var outstanding: seq<Token>
    var blacklisted: set<Id>

    constructor ()
      ensures Valid() && State() == Tables([], {})
    {
      outstanding, blacklisted := [], {};
    }

    ghost function State(): Tables
      reads this
    {
      Tables(outstanding, blacklisted)
    }

    ghost predicate Valid()
      reads this
    {
      Sound(State())
    }

    method OpenSession(user: int, jti: Id, sid: Id, now: Time) returns (token: Token)
      requires Valid() && FreshIds(State(), Login(user, jti, sid, now))
      modifies this
      ensures Valid() && State() == Step(old(State()), Login(user, jti, sid, now))
      ensures token in outstanding && token == Token(jti, sid, user, now, now + 604800.0)
      ensures Active(token, blacklisted, now)
    {
      StepKeepsSound(State(), Login(user, jti, sid, now));
      token := Token(jti, sid, user, now, now + REFRESH_TOKEN_LIFETIME);
      outstanding := outstanding + [token];
      assert outstanding[|outstanding| - 1] == token;
    }

    /** Refreshing: the presented token is blacklisted and its successor takes over the session. */
    method Refresh(presented: Id, jti: Id, allowed: bool, now: Time) returns (token: Option<Token>)
      requires Valid() && FreshIds(State(), Rotate(presented, jti, allowed, now))
      modifies this
      ensures Valid() && State() == Step(old(State()), Rotate(presented, jti, allowed, now))
      ensures token.Some? <==> Accepts(old(State()), presented, allowed, now)
      ensures token.Some? ==>
              token.value in outstanding && Active(token.value, blacklisted, now) && presented in blacklisted
      ensures token.Some? ==>
              exists t :: t in old(outstanding) && t.jti == presented
                          && token.value == Token(jti, t.sid, t.user, now, now + 604800.0)
    {
      StepKeepsSound(State(), Rotate(presented, jti, allowed, now));
      FindIsTheRow(State(), presented);
      var refresh := Find(outstanding, presented);
      if refresh.None? || now >= refresh.value.expiresAt || presented in blacklisted || !allowed {
        return None;
      }
      blacklisted := blacklisted + {presented};
      var renewed := refresh.value.(jti := jti, createdAt := now, expiresAt := now + REFRESH_TOKEN_LIFETIME);
      outstanding := outstanding + [renewed];
      assert outstanding[|outstanding| - 1] == renewed;
      return Some(renewed);
    }

    method BlacklistOutstandingId(user: int, id: Id, now: Time) returns (done: bool)
      requires Valid()
      modifies this`blacklisted
      ensures Valid() && State() == Step(old(State()), RevokeOne(user, id, now))
      ensures done <==>
              exists t :: t in outstanding && t.jti == id && t.user == user && Active(t, old(blacklisted), now)
    {
      StepKeepsSound(State(), RevokeOne(user, id, now));
      FindIsTheRow(State(), id);
      var found := Find(outstanding, id);
      if found.None? || found.value.user != user || now >= found.value.expiresAt || id in blacklisted {
        return false;
      }
      blacklisted := blacklisted + {id};
      return true;
    }

    /** Revokes every live token of the user and says how many there were. */
    method BlacklistAll(user: int, now: Time) returns (n: nat)
      requires Valid()
      modifies this`blacklisted
      ensures Valid() && State() == Step(old(State()), RevokeAll(user, now))
      ensures n == |Listing(outstanding, old(blacklisted), user, now)|
              && Listing(outstanding, blacklisted, user, now) == []
    {
      hide Sound, TokensOf, Listing, Step, Active;
      n := 0;
      ghost var before, tables := blacklisted, State();
      RevokedBelow(tables, 0, user, now);
      for i := 0 to |outstanding|
        modifies this`blacklisted
        invariant blacklisted == before + TokensOf(outstanding[..i], user, now) && tables == Tables(outstanding, before)
        invariant n == |Listing(outstanding[..i], before, user, now)|
      {
        var t := outstanding[i];
        RevokedBelow(tables, i, user, now);
        OneMoreOf(outstanding[..i], t, before, user, now);
        assert outstanding[..i + 1] == outstanding[..i] + [t];
        if t.user == user {
          if t.jti !in blacklisted {
            if now < t.expiresAt {
              blacklisted := blacklisted + {t.jti};
              n := n + 1;
            }
          }
        }
      }
      assert outstanding[..|outstanding|] == outstanding;
      RevokedBelow(tables, |outstanding|, user, now);
    }

    method ListRefreshSessions(user: int, now: Time) returns (sessions: seq<Token>)
      ensures sessions == Listing(outstanding, blacklisted, user, now)
    {
      sessions := [];
      for i := 0 to |outstanding|
        invariant sessions == Listing(outstanding[..i], blacklisted, user, now)
      {
        assert outstanding[..i + 1][..i] == outstanding[..i];
        var t := outstanding[i];
        if t.user == user && now < t.expiresAt && t.jti !in blacklisted {
          sessions := [t] + sessions;
        }
      }
      assert outstanding[..|outstanding|] == outstanding;
    }

    /** One pass over the live tokens counts sessions and distinct users per tenant. */
    method ActiveSessionStatsByTenant(tenantOf: int -> Option<int>, now: Time) returns (stats: map<int, TenantStats>)
      ensures forall tenant :: tenant in stats <==> SessionCount(outstanding, blacklisted, tenantOf, tenant, now) > 0
      ensures forall tenant :: tenant in stats ==>
                stats[tenant] == TenantStats(SessionCount(outstanding, blacklisted, tenantOf, tenant, now),
                                             |ActiveUsers(outstanding, blacklisted, tenantOf, tenant, now)|)
    {
      var counts: map<int, nat> := map[];
      var users: map<int, set<int>> := map[];
      hide AllTallied, ActiveUsers, SessionCount;
      NothingTallied(blacklisted, tenantOf, now);
      assert AllTallied(counts, users, outstanding[..0], blacklisted, tenantOf, now);
      for i := 0 to |outstanding|
        invariant AllTallied(counts, users, outstanding[..i], blacklisted, tenantOf, now)
      {
        var t := outstanding[i];
        var tenant := tenantOf(t.user);
        assert outstanding[..i + 1] == outstanding[..i] + [t];
        if now < t.expiresAt && tenant.Some? && t.jti !in blacklisted {
          LiveTokenIsTallied(counts, users, outstanding[..i], t, blacklisted, tenantOf, tenant.value, now);
          var count := if tenant.value in counts then counts[tenant.value] else 0;
          var seen := if tenant.value in users then users[tenant.value] else {};
          counts := counts[tenant.value := count + 1];
          users := users[tenant.value := seen + {t.user}];
        } else {
          IdleTokenIsNotTallied(counts, users, outstanding[..i], t, blacklisted, tenantOf, now);
        }
      }
      assert outstanding[..|outstanding|] == outstanding;
      forall tenant
        ensures tenant in counts <==> SessionCount(outstanding, blacklisted, tenantOf, tenant, now) > 0
        ensures tenant in counts ==>
                  && counts[tenant] == SessionCount(outstanding, blacklisted, tenantOf, tenant, now)
                  && tenant in users && users[tenant] == ActiveUsers(outstanding, blacklisted, tenantOf, tenant, now)
      {
        TalliedStats(counts, users, outstanding, blacklisted, tenantOf, tenant, now);
      }
      stats := map tenant | tenant in counts.Keys :: TenantStats(counts[tenant], |users[tenant]|);
    }
  }

  /** The two dictionaries agree with the tokens counted so far, as far as one tenant goes. */
  predicate Tallied(counts: map<int, nat>, users: map<int, set<int>>, counted: seq<Token>, blacklisted: set<Id>,
                    tenantOf: int -> Option<int>, tenant: int, now: Time)
  {
    && (tenant in counts <==> SessionCount(counted, blacklisted, tenantOf, tenant, now) > 0)
    && (tenant in counts ==> counts[tenant] == SessionCount(counted, blacklisted, tenantOf, tenant, now))
    && (if tenant in users then users[tenant] else {}) == ActiveUsers(counted, blacklisted, tenantOf, tenant, now)
  }

  ghost predicate AllTallied(counts: map<int, nat>, users: map<int, set<int>>, counted: seq<Token>,
                             blacklisted: set<Id>, tenantOf: int -> Option<int>, now: Time)
  {
    && counts.Keys == users.Keys
    && forall tenant :: Tallied(counts, users, counted, blacklisted, tenantOf, tenant, now)
  }

  lemma NothingTallied(blacklisted: set<Id>, tenantOf: int -> Option<int>, now: Time)
    ensures AllTallied(map[], map[], [], blacklisted, tenantOf, now)
  {
  }

  lemma IdleTokenIsNotTallied(counts: map<int, nat>, users: map<int, set<int>>, counted: seq<Token>, t: Token,
                              blacklisted: set<Id>, tenantOf: int -> Option<int>, now: Time)
    requires AllTallied(counts, users, counted, blacklisted, tenantOf, now)
    requires tenantOf(t.user).None? || !Active(t, blacklisted, now)
    ensures AllTallied(counts, users, counted + [t], blacklisted, tenantOf, now)
  {
    forall other ensures Tallied(counts, users, counted + [t], blacklisted, tenantOf, other, now) {
      TokenCounts(counted, t, blacklisted, tenantOf, other, now);
      assert Tallied(counts, users, counted, blacklisted, tenantOf, other, now);
      hide ActiveUsers, SessionCount;
    }
  }

  lemma LiveTokenIsTallied(counts: map<int, nat>, users: map<int, set<int>>, counted: seq<Token>, t: Token,
                           blacklisted: set<Id>, tenantOf: int -> Option<int>, tenant: int, now: Time)
    requires AllTallied(counts, users, counted, blacklisted, tenantOf, now)
    requires tenantOf(t.user) == Some(tenant) && Active(t, blacklisted, now)
    ensures var count := if tenant in counts then counts[tenant] else 0;
            var seen := if tenant in users then users[tenant] else {};
            var counts', users' := counts[tenant := count + 1], users[tenant := seen + {t.user}];
            AllTallied(counts', users', counted + [t], blacklisted, tenantOf, now)
  {
    var counts' := counts[tenant := (if tenant in counts then counts[tenant] else 0) + 1];
    var users' := users[tenant := (if tenant in users then users[tenant] else {}) + {t.user}];
    forall other ensures Tallied(counts', users', counted + [t], blacklisted, tenantOf, other, now) {
      TokenCounts(counted, t, blacklisted, tenantOf, other, now);
      assert Tallied(counts, users, counted, blacklisted, tenantOf, other, now);
      hide ActiveUsers, SessionCount;
    }
  }

  lemma TokenCounts(counted: seq<Token>, t: Token, blacklisted: set<Id>, tenantOf: int -> Option<int>, tenant: int,
                    now: Time)
    ensures SessionCount(counted + [t], blacklisted, tenantOf, tenant, now) ==
            SessionCount(counted, blacklisted, tenantOf, tenant, now)
            + if tenantOf(t.user) == Some(tenant) && Active(t, blacklisted, now) then 1 else 0
    ensures ActiveUsers(counted + [t], blacklisted, tenantOf, tenant, now) ==
            ActiveUsers(counted, blacklisted, tenantOf, tenant, now)
            + if tenantOf(t.user) == Some(tenant) && Active(t, blacklisted, now) then {t.user} else {}
  {
    assert (counted + [t])[..|counted|] == counted;
    OneMoreUser(counted, t, blacklisted, tenantOf, tenant, now);
    hide ActiveUsers;
  }

  /** What the finished dictionaries say about one tenant. */
  lemma TalliedStats(counts: map<int, nat>, users: map<int, set<int>>, counted: seq<Token>, blacklisted: set<Id>,
                     tenantOf: int -> Option<int>, tenant: int, now: Time)
    requires AllTallied(counts, users, counted, blacklisted, tenantOf, now)
    ensures tenant in counts <==> SessionCount(counted, blacklisted, tenantOf, tenant, now) > 0
    ensures tenant in counts ==>
              && counts[tenant] == SessionCount(counted, blacklisted, tenantOf, tenant, now)
              && tenant in users && users[tenant] == ActiveUsers(counted, blacklisted, tenantOf, tenant, now)
  {
    hide SessionCount, ActiveUsers;
    assert Tallied(counts, users, counted, blacklisted, tenantOf, tenant, now);
  }

  lemma NothingLeft(outstanding: seq<Token>, blacklisted: set<Id>, user: int, now: Time)
    ensures Listing(outstanding, blacklisted + TokensOf(outstanding, user, now), user, now) == []
  {
    var listing := Listing(outstanding, blacklisted + TokensOf(outstanding, user, now), user, now);
    if listing != [] {
      ListingIsExactlyTheLiveTokens(outstanding, blacklisted + TokensOf(outstanding, user, now), user, now, listing[0]);
    }
  }

  /** What revoking the first `i` rows amounts to. */
  lemma RevokedBelow(tables: Tables, i: nat, user: int, now: Time)
    requires Sound(tables) && i <= |tables.outstanding|
    ensures i == 0 ==>
            TokensOf(tables.outstanding[..i], user, now) == {}
              && Listing(tables.outstanding[..i], tables.blacklisted, user, now) == []
    ensures i < |tables.outstanding| ==> tables.outstanding[i].jti !in TokensOf(tables.outstanding[..i], user, now)
    ensures i == |tables.outstanding| ==>
              var done := Tables(tables.outstanding, tables.blacklisted + TokensOf(tables.outstanding[..i], user, now));
              Sound(done) && done == Step(tables, RevokeAll(user, now))
                && Listing(done.outstanding, done.blacklisted, user, now) == []
  {
    if i == |tables.outstanding| {
      assert tables.outstanding[..i] == tables.outstanding;
      StepKeepsSound(tables, RevokeAll(user, now));
      NothingLeft(tables.outstanding, tables.blacklisted, user, now);
    }
  }

  lemma OneMoreOf(front: seq<Token>, t: Token, blacklisted: set<Id>, user: int, now: Time)
    ensures |Listing(front + [t], blacklisted, user, now)| ==
            |Listing(front, blacklisted, user, now)|
            + if t.user == user && now < t.expiresAt && t.jti !in blacklisted then 1 else 0
    ensures TokensOf(front + [t], user, now) ==
            TokensOf(front, user, now) + if t.user == user && now < t.expiresAt then {t.jti} else {}
  {
    var all := front + [t];
    assert all[|front|] == t && all[..|front|] == front;
    forall id | id in TokensOf(front, user, now) ensures id in TokensOf(all, user, now) {
      var i :| 0 <= i < |front| && front[i].user == user && now < front[i].expiresAt && front[i].jti == id;
      assert all[i] == front[i];
    }
  }

  lemma OneMoreUser(front: seq<Token>, t: Token, blacklisted: set<Id>, tenantOf: int -> Option<int>, tenant: int,
      now: Time)
    ensures ActiveUsers(front + [t], blacklisted, tenantOf, tenant, now) ==
            ActiveUsers(front, blacklisted, tenantOf, tenant, now)
            + if tenantOf(t.user) == Some(tenant) && Active(t, blacklisted, now) then {t.user} else {}
  {
    var all := front + [t];
    assert all[|front|] == t;
    forall user | user in ActiveUsers(front, blacklisted, tenantOf, tenant, now)
      ensures user in ActiveUsers(all, blacklisted, tenantOf, tenant, now)
    {
      var i :|
        0 <= i < |front| && tenantOf(front[i].user) == Some(tenant) && Active(front[i], blacklisted, now)
          && front[i].user == user;
      assert all[i] == front[i];
    }
  }
}
