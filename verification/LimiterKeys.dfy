/**
 Which requests share the counters of the request limiter. The key is a text built from names, addresses and
 paths with colons between them, and an address may contain colons too.
 */
module LimiterKeys {
  import opened Text
  import opened RateLimiter

  const MARK := ":endpoint:"

  // ----- Texts that continue an address -----

  function Doubled(endpoint: string): (d: string)
    ensures |d| == 2 * |endpoint| + 1
  {
    endpoint + [':'] + endpoint
  }

  /** What an endpoint adds to an address: it is named once in the identifier and once more in the key. */
  function Tail(mark: string, endpoint: string): string {
    if endpoint == "" then "" else mark + Doubled(endpoint)
  }

  /** A text of ten characters with colons at its two ends only. */
  predicate IsMark(mark: string) {
    |mark| == 10 && mark[0] == ':' == mark[9] && forall i :: 0 < i < 9 ==> mark[i] != ':'
  }

  /** `gap`, standing behind an address, reads as the text that `endpoint1` would have added there. */
  predicate SpellsOut(mark: string, gap: string, endpoint1: string, endpoint2: string) {
    endpoint1 != "" && mark <= gap && Doubled(endpoint1) == gap[|mark|..] + Tail(mark, endpoint2)
  }

  lemma CutBoth(a: string, b: string, c: string, d: string)
    requires |a| <= |c| && a + b == c + d
    ensures a <= c && b == c[|a|..] + d
  {
    assert a == (a + b)[..|a|] && c[..|a|] == (c + d)[..|a|];
    assert b == (a + b)[|a|..] && c[|a|..] + d == (c + d)[|a|..];
  }

  lemma DoubledIsInjective(e1: string, e2: string)
    requires Doubled(e1) == Doubled(e2)
    ensures e1 == e2
  {
    assert e1 == Doubled(e1)[..|e1|] && e2 == Doubled(e2)[..|e2|];
  }

  lemma SameTail(mark: string, e1: string, e2: string)
    requires mark != "" && Tail(mark, e1) == Tail(mark, e2)
    ensures e1 == e2
  {
    hide Doubled;
    if e1 != "" && e2 != "" {
      CutBoth(mark, Doubled(e1), mark, Doubled(e2));
      DoubledIsInjective(e1, e2);
    }
  }

  /** A text cannot begin a tail and end inside its mark: colons and an odd length stand in the way. */
  lemma GapHoldsTheMark(mark: string, gap: string, e1: string, e2: string)
    requires IsMark(mark) && gap != "" && mark + Doubled(e1) == gap + Tail(mark, e2)
    ensures |mark| <= |gap|
  {
    hide Doubled;
    if e2 != "" {
      var text := mark + Doubled(e1);
      assert |text| == |gap| + |mark| + 2 * |e2| + 1;
      assert text[|gap|] == mark[0];
    }
  }

  lemma TailsAgreeIff(mark: string, gap: string, e1: string, e2: string)
    requires IsMark(mark)
    ensures Tail(mark, e1) == gap + Tail(mark, e2) <==> (gap == "" && e1 == e2) || SpellsOut(mark, gap, e1, e2)
  {
    assert mark != "";
    hide Doubled, IsMark;
    if Tail(mark, e1) == gap + Tail(mark, e2) {
      if gap == "" {
        assert gap + Tail(mark, e2) == Tail(mark, e2);
        SameTail(mark, e1, e2);
      } else {
        GapHoldsTheMark(mark, gap, e1, e2);
        CutBoth(mark, Doubled(e1), gap, Tail(mark, e2));
      }
    }
    if SpellsOut(mark, gap, e1, e2) {
      assert gap == mark + gap[|mark|..];
      assert mark + (gap[|mark|..] + Tail(mark, e2)) == gap + Tail(mark, e2);
    }
    if gap == "" {
      assert gap + Tail(mark, e2) == Tail(mark, e2);
    }
  }

  // ----- The combined strategy -----

  function UserPart(userId: nat): string {
    if userId != 0 then "user:" + Decimal(userId) + ":" else ""
  }

  function CombinedPrefix(c: Client, endpoint: string): string {
    Prefix(Combined, Identifier(Combined, c, endpoint).value, endpoint)
  }

  /** The part of the prefix that tells callers of the combined strategy apart. */
  function Caller(c: Client, endpoint: string): string {
    UserPart(c.userId) + ("ip:" + (c.ip + Tail(MARK, endpoint)))
  }

  lemma CombinedPrefixText(c: Client, endpoint: string)
    ensures CombinedPrefix(c, endpoint) == "rate_limit:combined:" + Caller(c, endpoint)
  {
    hide Decimal;
    var u, ip := UserPart(c.userId), "ip:";
    var id := Identifier(Combined, c, endpoint).value;
    assert "rate_limit:" + "combined" + ":" == "rate_limit:combined:";
    if endpoint == "" {
      assert id == u + ip + c.ip + "";
      assert u + ip + c.ip + "" == u + (ip + (c.ip + ""));
    } else {
      assert id == u + ip + c.ip + (MARK + endpoint);
      assert u + ip + c.ip + (MARK + endpoint) + (":" + endpoint) == u + (ip + (c.ip + (MARK + Doubled(endpoint))));
    }
  }

  lemma UserPartIsUnique(u1: nat, x1: string, u2: nat, x2: string)
    requires UserPart(u1) + ("ip:" + x1) == UserPart(u2) + ("ip:" + x2)
    ensures u1 == u2 && x1 == x2
  {
    hide Decimal;
    var s1, s2 := UserPart(u1) + ("ip:" + x1), UserPart(u2) + ("ip:" + x2);
    assert s1[0] == if u1 != 0 then 'u' else 'i';
    assert s2[0] == if u2 != 0 then 'u' else 'i';
    if u1 != 0 {
      SameUser(u1, x1, u2, x2);
    }
    CutBoth(UserPart(u1), "ip:" + x1, UserPart(u2), "ip:" + x2);
    CutBoth("ip:", x1, "ip:", x2);
  }

  lemma SameUser(u1: nat, x1: string, u2: nat, x2: string)
    requires u1 != 0 && u2 != 0 && UserPart(u1) + ("ip:" + x1) == UserPart(u2) + ("ip:" + x2)
    ensures u1 == u2
  {
    hide Decimal;
    UserPartText(u1, "ip:" + x1);
    UserPartText(u2, "ip:" + x2);
    SameNumber("user:", u1, "ip:" + x1, u2, "ip:" + x2);
  }

  lemma UserPartText(u: nat, y: string)
    requires u != 0
    ensures UserPart(u) + y == "user:" + (Decimal(u) + [':'] + y)
  {
    hide Decimal;
    var head, digits := "user:", Decimal(u);
    assert UserPart(u) == head + digits + [':'];
    assert head + digits + [':'] + y == head + (digits + [':'] + y);
  }

  lemma SameNumber(head: string, u1: nat, y1: string, u2: nat, y2: string)
    requires head + (Decimal(u1) + [':'] + y1) == head + (Decimal(u2) + [':'] + y2)
    ensures u1 == u2
  {
    DecimalHasOnlyDigits(u1, ':');
    DecimalHasOnlyDigits(u2, ':');
    DecimalRoundTrip(u1);
    DecimalRoundTrip(u2);
    hide Decimal, ParseDecimal;
    CutBoth(head, Decimal(u1) + [':'] + y1, head, Decimal(u2) + [':'] + y2);
    FirstSeparatorSplitsUniquely(Decimal(u1), y1, Decimal(u2), y2, ':');
  }

  /** The second address is the first one with the first request's endpoint spelled out behind it. */
  predicate Imitates(ip1: string, endpoint1: string, ip2: string, endpoint2: string) {
    ip1 <= ip2 && SpellsOut(MARK, ip2[|ip1|..], endpoint1, endpoint2)
  }

  lemma AddressesAgreeIff(mark: string, ip1: string, e1: string, ip2: string, e2: string)
    requires |ip1| <= |ip2| && IsMark(mark)
    ensures ip1 + Tail(mark, e1) == ip2 + Tail(mark, e2)
       <==> (ip1 == ip2 && e1 == e2) || (ip1 <= ip2 && SpellsOut(mark, ip2[|ip1|..], e1, e2))
  {
    hide IsMark, Tail, SpellsOut;
    var gap, t1, t2 := ip2[|ip1|..], Tail(mark, e1), Tail(mark, e2);
    TailsAgreeIff(mark, gap, e1, e2);
    if ip1 + t1 == ip2 + t2 {
      CutBoth(ip1, t1, ip2, t2);
    }
    if ip1 <= ip2 {
      Rejoin(ip1, ip2, t2);
    }
  }

  lemma Rejoin(a: string, b: string, c: string)
    requires a <= b
    ensures a + (b[|a|..] + c) == b + c && a + b[|a|..] == b
  {
    assert a + b[|a|..] == b;
    assert a + (b[|a|..] + c) == (a + b[|a|..]) + c;
  }

  /**
   Two requests of the combined strategy share their counters exactly when user, address and endpoint agree, or
   the longer address imitates the other request.
   */
  lemma CombinedCallersShareIff(c1: Client, e1: string, c2: Client, e2: string)
    requires |c1.ip| <= |c2.ip|
    ensures CombinedPrefix(c1, e1) == CombinedPrefix(c2, e2)
       <==> c1.userId == c2.userId && ((c1.ip == c2.ip && e1 == e2) || Imitates(c1.ip, e1, c2.ip, e2))
  {
    assert IsMark(MARK);
    hide Tail, UserPart, SpellsOut, CombinedPrefix, IsMark;
    CombinedPrefixText(c1, e1);
    CombinedPrefixText(c2, e2);
    AddressesAgreeIff(MARK, c1.ip, e1, c2.ip, e2);
    if CombinedPrefix(c1, e1) == CombinedPrefix(c2, e2) {
      CutBoth("rate_limit:combined:", Caller(c1, e1), "rate_limit:combined:", Caller(c2, e2));
      UserPartIsUnique(c1.userId, c1.ip + Tail(MARK, e1), c2.userId, c2.ip + Tail(MARK, e2));
    }
  }

  predicate Marked(ip: string) {
    exists i :: 0 <= i <= |ip| && MARK <= ip[i..]
  }

  lemma ImitatorsAreMarked(ip1: string, e1: string, ip2: string, e2: string)
    requires Imitates(ip1, e1, ip2, e2)
    ensures Marked(ip2)
  {
    assert MARK <= ip2[|ip1|..];
  }

  /** Addresses that do not contain the mark keep all requests apart. */
  lemma UnmarkedCallersAreApart(c1: Client, e1: string, c2: Client, e2: string)
    requires !Marked(c1.ip) && !Marked(c2.ip)
    requires CombinedPrefix(c1, e1) == CombinedPrefix(c2, e2)
    ensures c1.userId == c2.userId && c1.ip == c2.ip && e1 == e2
  {
    hide CombinedPrefix, Marked, Imitates;
    if |c1.ip| <= |c2.ip| {
      CombinedCallersShareIff(c1, e1, c2, e2);
      if Imitates(c1.ip, e1, c2.ip, e2) {
        ImitatorsAreMarked(c1.ip, e1, c2.ip, e2);
      }
    } else {
      CombinedCallersShareIff(c2, e2, c1, e1);
      if Imitates(c2.ip, e2, c1.ip, e1) {
        ImitatorsAreMarked(c2.ip, e2, c1.ip, e1);
      }
    }
  }

  /** Every request with an endpoint shares its counters with one without, from an address that spells it out. */
  lemma EveryCallerCanBeImitated(c: Client, endpoint: string)
    requires endpoint != ""
    ensures var other := c.(ip := c.ip + Tail(MARK, endpoint));
            other.ip != c.ip && CombinedPrefix(other, "") == CombinedPrefix(c, endpoint)
  {
    hide CombinedPrefix, Doubled;
    var gap := Tail(MARK, endpoint);
    var other := c.(ip := c.ip + gap);
    assert other.ip[|c.ip|..] == gap;
    assert gap[|MARK|..] + "" == Doubled(endpoint);
    CombinedCallersShareIff(c, endpoint, other, "");
  }

  /**
   Two requests that both name an endpoint collide too: an endpoint that ends in the mark and another endpoint's
   double can be shortened to that other one, the rest moving into the address.
   */
  lemma EndpointsCanBeImitated(c: Client, rest: string, endpoint: string)
    requires endpoint != ""
    ensures var long := rest + Tail(MARK, endpoint);
            var other := c.(ip := c.ip + (MARK + (long + [':'] + rest)));
            other.ip != c.ip && CombinedPrefix(other, endpoint) == CombinedPrefix(c, long)
  {
    hide CombinedPrefix, Tail;
    var tail := Tail(MARK, endpoint);
    TailIsLong(endpoint);
    var long := rest + tail;
    var gap := MARK + (long + [':'] + rest);
    var other := c.(ip := c.ip + gap);
    assert other.ip[|c.ip|..] == gap && gap[|MARK|..] == long + [':'] + rest;
    assert Doubled(long) == (long + [':'] + rest) + tail;
    assert SpellsOut(MARK, gap, long, endpoint);
    hide SpellsOut;
    CombinedCallersShareIff(c, long, other, endpoint);
  }

  lemma TailIsLong(endpoint: string)
    requires endpoint != ""
    ensures |Tail(MARK, endpoint)| > 0
  {
  }

  /** A collision of a request that names the endpoint "/x" and one that names none. */
  lemma ImitatedAddress()
    ensures CombinedPrefix(Client("1.1.1.1", 0, "", "/x"), "/x") ==
            CombinedPrefix(Client("1.1.1.1:endpoint:/x:/x", 0, "", "/x"), "")
  {
    hide CombinedPrefix;
    assert "1.1.1.1" + Tail(MARK, "/x") == "1.1.1.1:endpoint:/x:/x";
    EveryCallerCanBeImitated(Client("1.1.1.1", 0, "", "/x"), "/x");
  }

  /** A collision of two requests that both name an endpoint. */
  lemma ImitatedEndpoint()
    ensures CombinedPrefix(Client("a", 0, "", "/x"), "/p:endpoint:/b:/b") ==
            CombinedPrefix(Client("a:endpoint:/p:endpoint:/b:/b:/p", 0, "", "/x"), "/b")
  {
    hide CombinedPrefix;
    assert "/p" + Tail(MARK, "/b") == "/p:endpoint:/b:/b";
    assert "a" + (MARK + ("/p:endpoint:/b:/b" + [':'] + "/p")) == "a:endpoint:/p:endpoint:/b:/b:/p";
    EndpointsCanBeImitated(Client("a", 0, "", "/x"), "/p", "/b");
  }

  // ----- The other strategies -----

  /** The other strategies keep apart whom they identify, and no two strategies share a counter. */
  lemma SimpleCallersAreApart(s1: Strategy, id1: string, e1: string, s2: Strategy, id2: string, e2: string)
    requires !s1.Unknown? && !s2.Unknown? && Prefix(s1, id1, e1) == Prefix(s2, id2, e2)
    ensures s1 == s2 && (s1 != Combined ==> id1 == id2)
  {
    var p1, p2 := Prefix(s1, id1, e1), Prefix(s2, id2, e2);
    assert p1[11] == StrategyName(s1)[0] && p2[11] == StrategyName(s2)[0];
    if s1 != Combined {
      var n := |"rate_limit:" + StrategyName(s1) + ":"|;
      assert p1[n..] == id1 && p2[n..] == id2;
    }
  }

  /** What a request under a simple strategy is counted against, when there is something. */
  predicate SameSubject(s: Strategy, c1: Client, e1: string, c2: Client, e2: string) {
    match s
    case User => c1.userId == c2.userId
    case Role => c1.role == c2.role
    case Endpoint => (if e1 == "" then c1.path else e1) == (if e2 == "" then c2.path else e2)
    case _ => c1.ip == c2.ip
  }

  /**
   Two requests under one strategy other than the combined one share their counters exactly when they have the same
   user, role, endpoint or address. Nobody is limited only without a user or without a role.
   */
  lemma SimpleStrategyShareIff(s: Strategy, c1: Client, e1: string, c2: Client, e2: string)
    requires s != Combined
    ensures var id1, id2 := Identifier(s, c1, e1), Identifier(s, c2, e2);
            && (id1.None? <==> (s == User && c1.userId == 0) || (s == Role && c1.role == ""))
            && (id1.Some? && id2.Some? ==>
                  (Prefix(s, id1.value, e1) == Prefix(s, id2.value, e2) <==> SameSubject(s, c1, e1, c2, e2)))
  {
    DecimalRoundTrip(c1.userId);
    DecimalRoundTrip(c2.userId);
    hide Decimal, ParseDecimal;
    var id1, id2 := Identifier(s, c1, e1), Identifier(s, c2, e2);
    if id1.Some? && id2.Some? {
      var head := "rate_limit:" + StrategyName(s) + ":";
      assert (head + id1.value + "")[|head|..] == id1.value && (head + id2.value + "")[|head|..] == id2.value;
    }
  }
}
