/**
 Domain-binding tokens: normalising a host, issuing a signed token for a domain, and verifying it
 against the Host of a request. Signing is ideal: only a token this installation signed decodes.
 */
module DomainTokens {
  import opened Basics
  import opened Text

  const DEFAULT_TTL_HOURS := 24 * 365
  const PLAN_CLAIM_LENGTH := 64

  datatype Claims = Claims(dom: string, plan: string, issuedAt: int, expiresAt: int)

  /** What the text column can hold: nothing, text this key did not sign, or a signed token. */
  datatype Jwt = Blank | Foreign | Token(claims: Claims)

  datatype Verdict = Verified | Missing | Expired | BadToken | DomainMismatch

  /** The host name in front of a port; a bracketed address is left alone. */
  function WithoutPort(h: string): string {
    if ':' in h && h[0] != '[' then Before(h, ':') else h
  }

  /** Lower-case host name without surrounding space, port or trailing dots. */
  function NormalizeDomain(host: string): string {
    var h := Lower(Strip(host));
    DropTrailing(WithoutPort(h), '.')
  }

  function TtlHours(setting: int): (hours: int)
    ensures hours >= 1
    ensures hours == if setting == 0 then 8760 else if setting < 0 then 1 else setting
  {
    var h := if setting == 0 then DEFAULT_TTL_HOURS else setting;
    if h < 1 then 1 else h
  }

  /** The token says in whole seconds when it was issued. */
  function Issue(ttlSetting: int, domain: string, plan: string, now: Time): (token: Jwt)
    ensures token.Token? && token.claims.issuedAt as real <= now < token.claims.issuedAt as real + 1.0
  {
    Token(Claims(
             NormalizeDomain(domain),
             if |plan| <= PLAN_CLAIM_LENGTH then plan else plan[..PLAN_CLAIM_LENGTH],
             now.Floor,
             (now + Hours(TtlHours(ttlSetting))).Floor))
  }

  /** The expiry claim rejects on or after its instant (section 4.1.4 of RFC 7519). */
  function Verify(token: Jwt, host: string, now: Time): Verdict {
    match token
    case Blank => Missing
    case Foreign => BadToken
    case Token(claims) =>
      if claims.expiresAt as real <= now then Expired
      else
        var bound := NormalizeDomain(claims.dom);
        if bound == "" || bound != NormalizeDomain(host) then DomainMismatch else Verified
  }

  // ----- Normalisation is idempotent exactly when no space is exposed at the end -----

  /** The shape every normalised host has, except that a port split can expose a trailing space. */
  predicate NearNormal(r: string) {
    && (forall i :: 0 <= i < |r| ==> !('A' <= r[i] <= 'Z'))
    && (':' in r ==> r[0] == '[')
    && (r != "" ==> !IsSpace(r[0]) && r[|r| - 1] != '.')
  }

  /** The three cuts that normalising makes, each a prefix of the one before. */
  lemma NormalizeIsACut(host: string)
    ensures var h := Lower(Strip(host)); var r := NormalizeDomain(host);
            |r| <= |h| <= |host| && r == h[..|r|] && (r != "" ==> r[|r| - 1] != '.') && (':' in r ==> r[0] == '[')
  {
    StripTrims(host);
    var h := Lower(Strip(host));
    BeforeIsAPrefix(h, ':');
    DropTrailingIsAPrefix(WithoutPort(h), '.');
  }

  lemma NormalizedIsNearNormal(host: string)
    ensures NearNormal(NormalizeDomain(host))
  {
    NormalizeIsACut(host);
    StripTrims(host);
  }

  lemma TrimmedFixedPoint(r: string)
    requires NearNormal(r) && Trimmed(r)
    ensures NormalizeDomain(r) == r
  {
    StripIsIdentityExactlyOnTrimmed(r);
    assert Lower(r) == r;
    assert WithoutPort(r) == r;
  }

  lemma ExposedSpaceShrinks(r: string)
    requires NearNormal(r) && r != "" && IsSpace(r[|r| - 1])
    ensures |NormalizeDomain(r)| < |r|
  {
    StripTrims(r);
    StripIsIdentityExactlyOnTrimmed(r);
    var h := Lower(Strip(r));
    BeforeIsAPrefix(h, ':');
    DropTrailingIsAPrefix(WithoutPort(h), '.');
    assert |Strip(r)| < |r| by {
      TrimEndIsAPrefix(TrimStart(r));
    }
  }

  /** The host name in front of the port ends in a space, or in a space followed by dots only. */
  predicate ExposesSpace(host: string) {
    var name := WithoutPort(Strip(host));
    exists i :: 0 <= i < |name| && IsSpace(name[i]) && forall j :: i < j < |name| ==> name[j] == '.'
  }

  lemma WithoutPortOfLower(s: string)
    ensures WithoutPort(Lower(s)) == Lower(WithoutPort(s))
  {
    var h := Lower(s);
    assert ':' in h <==> ':' in s by {
      forall i | 0 <= i < |s| ensures h[i] == ':' <==> s[i] == ':' {
      }
    }
    BeforeOfLower(s, ':');
  }

  lemma NormalizeIsLowerOfName(host: string)
    ensures NormalizeDomain(host) == DropTrailing(Lower(WithoutPort(Strip(host))), '.')
  {
    hide Strip, WithoutPort, Lower, DropTrailing;
    WithoutPortOfLower(Strip(host));
  }

  lemma LowerCharKeeps(c: char)
    ensures LowerChar(c) == '.' <==> c == '.'
    ensures IsSpace(LowerChar(c)) <==> IsSpace(c)
  {
  }

  /** The last character that is left when trailing dots are dropped stands in front of the dots. */
  lemma LastBeforeDots(name: string)
    ensures var r := DropTrailing(Lower(name), '.');
            (r != "" && IsSpace(r[|r| - 1])) <==>
            exists i :: 0 <= i < |name| && IsSpace(name[i]) && forall j :: i < j < |name| ==> name[j] == '.'
  {
    var h := Lower(name);
    DropTrailingIsAPrefix(h, '.');
    var r := DropTrailing(h, '.');
    forall i | 0 <= i < |name|
      ensures h[i] == '.' <==> name[i] == '.'
      ensures IsSpace(h[i]) <==> IsSpace(name[i])
    {
      LowerCharKeeps(name[i]);
    }
    assert |h| == |name| && r == h[..|r|];
    hide DropTrailing, IsSpace, Lower;
    if r != "" {
      assert r[|r| - 1] == h[|r| - 1];
      if IsSpace(r[|r| - 1]) {
        assert IsSpace(name[|r| - 1]) && forall j :: |r| - 1 < j < |name| ==> name[j] == '.';
      }
    }
    if i :| 0 <= i < |name| && IsSpace(name[i]) && forall j :: i < j < |name| ==> name[j] == '.' {
      SpaceIsNoDot(h[i]);
      assert h[i] != '.';
      if |r| < |name| && r != "" {
        assert h[|r| - 1] != '.';
      }
    }
  }

  lemma SpaceIsNoDot(c: char)
    ensures IsSpace(c) ==> c != '.'
  {
  }

  /** What is cut off after the port is dots, so the last character left is the one in front of them. */
  lemma ExposedSpaceIsLeft(host: string)
    ensures var r := NormalizeDomain(host);
            ExposesSpace(host) <==> r != "" && IsSpace(r[|r| - 1])
  {
    NormalizeIsLowerOfName(host);
    LastBeforeDots(WithoutPort(Strip(host)));
    hide NormalizeDomain, Strip, WithoutPort, Lower, DropTrailing, IsSpace;
  }

  /**
   Normalising twice changes nothing exactly when the host name exposes no space: neither at its end nor in
   front of dots at its end, once surrounding space and port are gone.
   */
  lemma NormalizeIdempotentIff(host: string)
    ensures NormalizeDomain(NormalizeDomain(host)) == NormalizeDomain(host) <==> !ExposesSpace(host)
  {
    ExposedSpaceIsLeft(host);
    NormalizedIsNearNormal(host);
    hide ExposesSpace, NormalizeDomain;
    var r := NormalizeDomain(host);
    if Trimmed(r) {
      TrimmedFixedPoint(r);
    } else {
      ExposedSpaceShrinks(r);
    }
  }

  /** A host without any space exposes none. */
  lemma NormalizeIdempotent(host: string)
    requires SpaceFree(host)
    ensures NormalizeDomain(NormalizeDomain(host)) == NormalizeDomain(host)
  {
    StripIsIdentityExactlyOnTrimmed(host);
    BeforeIsAPrefix(host, ':');
    NormalizeIdempotentIff(host);
    hide NormalizeDomain;
    assert !ExposesSpace(host);
  }

  /** A space before the port survives the first pass and is dropped by the second. */
  lemma SpaceBeforePortBreaksIdempotence()
    ensures NormalizeDomain("a :80") == "a "
    ensures NormalizeDomain(NormalizeDomain("a :80")) == "a"
    ensures ExposesSpace("a :80")
  {
    FirstPass();
    SecondPass();
    ExposedSpaceIsLeft("a :80");
    hide NormalizeDomain, ExposesSpace;
  }

  lemma FirstPass()
    ensures NormalizeDomain("a :80") == "a "
  {
    var d := "a :80";
    StripIsIdentityExactlyOnTrimmed(d);
    assert Strip(d) == d;
    hide Strip;
    assert |Lower(d)| == 5 && forall i :: 0 <= i < 5 ==> Lower(d)[i] == LowerChar(d[i]) == d[i];
    assert Lower(d) == d;
    hide Lower;
    BeforeSkips("a ", ':', "80");
    assert "a " + [':'] + "80" == d;
    assert WithoutPort(d) == "a ";
    hide WithoutPort;
    assert DropTrailing("a ", '.') == "a ";
  }

  lemma SecondPass()
    ensures NormalizeDomain("a ") == "a"
  {
    SpaceIsTrimmed();
    hide Strip;
    assert |Lower("a")| == 1 && Lower("a")[0] == LowerChar('a') == 'a';
    assert Lower("a") == "a";
  }

  lemma SpaceIsTrimmed()
    ensures Strip("a ") == "a"
  {
    var r := "a ";
    assert TrimStart(r) == r;
    assert r[..1] == "a";
    assert TrimEnd("a") == "a";
  }

  // ----- What is cut off -----

  /** The normal form of `name` is its lower-case text without the dots at its end. */
  predicate IsNormalFormOf(r: string, name: string) {
    && |r| <= |name| && (forall i :: 0 <= i < |r| ==> r[i] == LowerChar(name[i]))
    && (forall i :: |r| <= i < |name| ==> name[i] == '.') && (r != "" ==> name[|r| - 1] != '.')
  }

  lemma LowerThenDots(name: string)
    ensures IsNormalFormOf(DropTrailing(Lower(name), '.'), name)
  {
    DropTrailingIsAPrefix(Lower(name), '.');
    forall i | 0 <= i < |name| ensures Lower(name)[i] == '.' <==> name[i] == '.' {
      LowerCharKeeps(name[i]);
    }
  }

  /** A port is everything from the first colon on, and is cut off. */
  lemma PortIsCut(host: string, name: string, port: string)
    requires Strip(host) == name + [':'] + port && ':' !in name && (name != "" ==> name[0] != '[')
    ensures IsNormalFormOf(NormalizeDomain(host), name)
  {
    hide Strip;
    BeforeSkips(name, ':', port);
    NormalizeIsLowerOfName(host);
    assert Strip(host)[|name|] == ':';
    assert WithoutPort(Strip(host)) == name;
    LowerThenDots(name);
    hide Lower, DropTrailing, NormalizeDomain, WithoutPort;
  }

  /** A host without a colon, or a bracketed address, is kept whole. */
  lemma NothingIsCut(host: string)
    requires ':' !in Strip(host) || Strip(host)[0] == '['
    ensures IsNormalFormOf(NormalizeDomain(host), Strip(host))
  {
    hide Strip;
    NormalizeIsLowerOfName(host);
    LowerThenDots(Strip(host));
    hide Lower, DropTrailing, NormalizeDomain;
  }

  // ----- Round trip -----

  /** Only a token that was signed here verifies, before its expiry, on a host with the normal form of its claim. */
  lemma VerifyIff(token: Jwt, host: string, now: Time)
    ensures Verify(token, host, now) == Expired <==> token.Token? && token.claims.expiresAt as real <= now
    ensures Verify(token, host, now) == Verified <==>
              && token.Token? && now < token.claims.expiresAt as real
              && NormalizeDomain(host) != "" && NormalizeDomain(host) == NormalizeDomain(token.claims.dom)
    ensures Verify(token, host, now) == Missing <==> token == Blank
  {
    hide NormalizeDomain;
  }

  /** A token issued at `issued` for `domain` verifies on `host` at `now` exactly under these two conditions. */
  lemma IssuedTokenVerifiesIff(ttl: int, domain: string, plan: string, issued: Time, host: string, now: Time)
    ensures Verify(Issue(ttl, domain, plan, issued), host, now) == Verified
       <==> now < (issued + Hours(TtlHours(ttl))).Floor as real
            && NormalizeDomain(host) != ""
            && NormalizeDomain(host) == NormalizeDomain(NormalizeDomain(domain))
  {
  }

  /**
   Wherever both names normalise alike the token verifies before expiry, exactly when the domain exposes no
   space; a token for a domain that does is refused even on that very domain.
   */
  lemma IssuedTokenRoundTrip(ttl: int, domain: string, plan: string, issued: Time, host: string, now: Time)
    requires NormalizeDomain(host) == NormalizeDomain(domain)
    ensures Verify(Issue(ttl, domain, plan, issued), host, now) == Verified
       <==> now < (issued + Hours(TtlHours(ttl))).Floor as real
            && NormalizeDomain(domain) != "" && !ExposesSpace(domain)
  {
    NormalizeIdempotentIff(domain);
    IssuedTokenVerifiesIff(ttl, domain, plan, issued, host, now);
    hide NormalizeDomain, ExposesSpace, Verify, Issue;
  }

  /** For a domain that exposes no space, no other host is accepted. */
  lemma IssuedTokenNamesItsDomain(ttl: int, domain: string, plan: string, issued: Time, host: string, now: Time)
    requires !ExposesSpace(domain) && Verify(Issue(ttl, domain, plan, issued), host, now) == Verified
    ensures NormalizeDomain(host) == NormalizeDomain(domain)
  {
    NormalizeIdempotentIff(domain);
    IssuedTokenVerifiesIff(ttl, domain, plan, issued, host, now);
    hide NormalizeDomain, ExposesSpace, Verify, Issue;
  }

  /** A token lives at least its whole hours less one second, so never less than 3599 seconds. */
  lemma IssuedTokenLifetime(ttl: int, domain: string, plan: string, issued: Time, host: string, now: Time)
    requires NormalizeDomain(host) != "" && NormalizeDomain(host) == NormalizeDomain(NormalizeDomain(domain))
    requires issued <= now
    ensures now <= issued + Hours(TtlHours(ttl)) - 1.0 ==>
            Verify(Issue(ttl, domain, plan, issued), host, now) == Verified
    ensures now >= issued + Hours(TtlHours(ttl)) ==> Verify(Issue(ttl, domain, plan, issued), host, now) == Expired
  {
    hide NormalizeDomain;
  }
}
