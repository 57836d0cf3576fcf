/**
 Version strings of installations and the order that decides whether an update is available. A version is read
 up to the first character that is no digit, part by part, and reading fails on digits that `int` does not take.
 */
module Versions {
  import opened Basics
  import opened Text

  const WIDTH := 4

  /** The longest run of digits that `int` converts. */
  const MAX_DIGITS := 4300

  type DigitOf = n: nat | n < 10

  /** What `isdigit` and `int` make of a character: a superscript two is a digit to the first only. */
  datatype Kind = NotDigit | Accepted(value: DigitOf) | Refused

  /** The character table: arbitrary outside ASCII, but for one refused digit. */
  type Table = char -> Kind

  const SUPERSCRIPT_TWO := '\U{B2}'

  ghost predicate Sound(kind: Table) {
    && (forall c :: IsDigit(c) ==> kind(c) == Accepted(DigitValue(c)))
    && (forall c {:trigger kind(c)} :: c < '\U{80}' && !IsDigit(c) ==> kind(c) == NotDigit)
    && kind(SUPERSCRIPT_TWO) == Refused
  }

  // ----- Reading one version -----

  /** `s.split(".")`. */
  function Split(s: string): (parts: seq<string>)
    ensures parts != []
    decreases |s|
  {
    var head := Before(s, '.');
    BeforeIsAPrefix(s, '.');
    if |head| == |s| then [head] else [head] + Split(s[|head| + 1..])
  }

  /** The leading characters that `isdigit` accepts. */
  function Leading(kind: Table, part: string): string {
    if part == "" || kind(part[0]).NotDigit? then "" else [part[0]] + Leading(kind, part[1..])
  }

  predicate AllAccepted(kind: Table, run: string) {
    forall i :: 0 <= i < |run| ==> kind(run[i]).Accepted?
  }

  function Value(kind: Table, run: string): nat
    requires AllAccepted(kind, run)
  {
    if run == "" then 0 else Value(kind, run[..|run| - 1]) * 10 + kind(run[|run| - 1]).value
  }

  /** `int` takes the leading run of the part: no refused digit, and not too many. */
  predicate Readable(kind: Table, part: string) {
    AllAccepted(kind, Leading(kind, part)) && |Leading(kind, part)| <= MAX_DIGITS
  }

  /** The number a part stands for, 0 without leading digits, and nothing where `int` raises. */
  function Component(kind: Table, part: string): Option<nat> {
    if Readable(kind, part) then Some(Value(kind, Leading(kind, part))) else None
  }

  /** The numbers of all parts, or nothing when one of them raises. */
  function Components(kind: Table, parts: seq<string>): (r: Option<seq<nat>>)
    ensures r.Some? ==> |r.value| == |parts|
  {
    if parts == [] then Some([])
    else
      var front := Components(kind, parts[..|parts| - 1]);
      var last := Component(kind, parts[|parts| - 1]);
      if front.None? || last.None? then None else Some(front.value + [last.value])
  }

  /** Padded with zeros, or cut, to four components. */
  function Padded(numbers: seq<nat>): seq<nat>
    requires numbers != []
  {
    (numbers + [0, 0, 0])[..WIDTH]
  }

  lemma {:induction false} ComponentsIff(kind: Table, parts: seq<string>)
    ensures Components(kind, parts).Some? <==> forall i :: 0 <= i < |parts| ==> Readable(kind, parts[i])
  {
    hide Readable;
    if parts != [] {
      var n := |parts| - 1;
      ComponentsIff(kind, parts[..n]);
      if Components(kind, parts).None? && Readable(kind, parts[n]) {
        var i :| 0 <= i < n && !Readable(kind, parts[..n][i]);
        assert !Readable(kind, parts[i]);
      }
    }
  }

  function VersionOf(kind: Table, v: string): Option<seq<nat>> {
    var parts := Split(Strip(v));
    var numbers := Components(kind, parts);
    if numbers.None? then None else Some(Padded(numbers.value))
  }

  /** Python's order on tuples. */
  predicate Less(a: seq<nat>, b: seq<nat>) {
    if b == [] then false
    else if a == [] then true
    else a[0] < b[0] || (a[0] == b[0] && Less(a[1..], b[1..]))
  }

  /** Whether an update is available; no answer where reading one of the two versions raises. */
  function UpdateAvailable(kind: Table, client: string, latest: string): Option<bool> {
    if Strip(latest) == "" || Strip(client) == "" then Some(false)
    else
      var c, l := VersionOf(kind, Strip(client)), VersionOf(kind, Strip(latest));
      if c.None? || l.None? then None else Some(Less(c.value, l.value))
  }

  // ----- The parsing loops -----

  lemma LeadingUnfolds(kind: Table, part: string, j: nat)
    requires j < |part|
    ensures Leading(kind, part[j..]) ==
            if kind(part[j]).NotDigit? then "" else [part[j]] + Leading(kind, part[j + 1..])
  {
    assert part[j..][1..] == part[j + 1..];
  }

  lemma NothingRead(kind: Table)
    ensures Leading(kind, "") == "" && Components(kind, []) == Some([])
  {
  }

  lemma ComponentsExtend(kind: Table, parts: seq<string>, i: nat)
    requires i < |parts|
    ensures Components(kind, parts[..i + 1]) ==
            var front, last := Components(kind, parts[..i]), Component(kind, parts[i]);
            if front.None? || last.None? then None else Some(front.value + [last.value])
  {
    hide Component;
    assert parts[..i + 1][..i] == parts[..i];
  }

  lemma {:induction false} UnreadablePartSpoilsAll(kind: Table, parts: seq<string>, i: nat)
    requires i < |parts| && Component(kind, parts[i]).None?
    ensures Components(kind, parts).None?
  {
    ComponentsIff(kind, parts);
  }

  /** The leading run of a part, character by character. */
  method LeadingRun(kind: Table, part: string) returns (acc: string)
    ensures acc == Leading(kind, part)
  {
    hide Leading;
    NothingRead(kind);
    acc := "";
    var j := 0;
    while j < |part|
      invariant 0 <= j <= |part|
      invariant acc + Leading(kind, part[j..]) == Leading(kind, part)
    {
      LeadingUnfolds(kind, part, j);
      if kind(part[j]).NotDigit? {
        break;
      }
      assert acc + ([part[j]] + Leading(kind, part[j + 1..])) == acc + [part[j]] + Leading(kind, part[j + 1..]);
      acc := acc + [part[j]];
      j := j + 1;
    }
    assert j == |part| ==> part[j..] == "";
    assert acc + "" == acc;
  }

  /** `int(run)`, digit by digit. */
  method ToInt(kind: Table, run: string) returns (n: Option<nat>)
    ensures n == if AllAccepted(kind, run) && |run| <= MAX_DIGITS then Some(Value(kind, run)) else None
  {
    if |run| > MAX_DIGITS {
      return None;
    }
    var value := 0;
    for i := 0 to |run|
      invariant AllAccepted(kind, run[..i]) && value == Value(kind, run[..i])
    {
      var k := kind(run[i]);
      assert run[..i + 1][..i] == run[..i];
      if !k.Accepted? {
        return None;
      }
      value := value * 10 + k.value;
    }
    assert run[..|run|] == run;
    return Some(value);
  }

  /** None is the ValueError that reading a part raises. */
  method VersionTuple(kind: Table, v: string) returns (version: Option<seq<nat>>)
    ensures version == VersionOf(kind, v)
  {
    hide Strip, Split, Leading, Value, Components, AllAccepted;
    NothingRead(kind);
    var parts := Split(Strip(v));
    var out: seq<nat> := [];
    for i := 0 to |parts|
      invariant Components(kind, parts[..i]) == Some(out) && |out| == i
    {
      var acc := LeadingRun(kind, parts[i]);
      var n := ToInt(kind, acc);
      ComponentsExtend(kind, parts, i);
      if n.None? {
        UnreadablePartSpoilsAll(kind, parts, i);
        return None;
      }
      out := out + [n.value];
    }
    assert parts[..|parts|] == parts;
    version := Some((out + [0, 0, 0])[..WIDTH]);
  }

  /** A version has its four components exactly when every part starts with a run of digits that `int` takes. */
  lemma FourComponentsIff(kind: Table, v: string)
    ensures VersionOf(kind, v).Some? <==> forall part :: part in Split(Strip(v)) ==> Readable(kind, part)
    ensures VersionOf(kind, v).Some? ==> |VersionOf(kind, v).value| == WIDTH
  {
    hide Readable, Split, Strip;
    ComponentsIff(kind, Split(Strip(v)));
  }

  // ----- Printing and parsing -----

  /** The numbers joined by dots. */
  function Dotted(numbers: seq<nat>): string
    requires numbers != []
  {
    if |numbers| == 1 then Decimal(numbers[0]) else Decimal(numbers[0]) + "." + Dotted(numbers[1..])
  }

  lemma {:induction false} LeadingGoesOn(kind: Table, digits: string, rest: string)
    requires Sound(kind) && forall i :: 0 <= i < |digits| ==> IsDigit(digits[i])
    ensures Leading(kind, digits + rest) == digits + Leading(kind, rest)
  {
    if digits != "" {
      LeadingGoesOn(kind, digits[1..], rest);
      assert (digits + rest)[1..] == digits[1..] + rest;
      assert kind(digits[0]).Accepted?;
    } else {
      assert digits + rest == rest;
    }
  }

  lemma {:induction false} ValueOfDigits(kind: Table, s: string)
    requires Sound(kind) && forall i :: 0 <= i < |s| ==> IsDigit(s[i])
    ensures AllAccepted(kind, s) && Value(kind, s) == ParseDecimal(s)
  {
    if s != "" {
      ValueOfDigits(kind, s[..|s| - 1]);
    }
  }

  /**
   Text after the number of a part, such as a release tag, is ignored exactly when it does not start with a refused
   digit and the number is not too long; otherwise reading the part raises.
   */
  lemma TagIsIgnoredIff(kind: Table, n: nat, tag: string)
    requires Sound(kind) && (tag == "" || !kind(tag[0]).Accepted?)
    ensures Component(kind, Decimal(n) + tag) ==
            if (tag == "" || kind(tag[0]).NotDigit?) && |Decimal(n)| <= MAX_DIGITS then Some(n) else None
  {
    LeadingGoesOn(kind, Decimal(n), tag);
    ValueOfDigits(kind, Decimal(n));
    DecimalRoundTrip(n);
    var run := Leading(kind, Decimal(n) + tag);
    if tag == "" || kind(tag[0]).NotDigit? {
      assert run == Decimal(n) + "" == Decimal(n);
    } else {
      assert run[|Decimal(n)|] == tag[0];
    }
  }

  /** Inputs that are digits to `isdigit` only have no components at all. */
  lemma SuperscriptRaises(kind: Table)
    requires Sound(kind)
    ensures VersionOf(kind, [SUPERSCRIPT_TWO]) == None && VersionOf(kind, "1" + [SUPERSCRIPT_TWO]) == None
  {
    var alone, after := [SUPERSCRIPT_TWO], "1" + [SUPERSCRIPT_TWO];
    StripIsIdentityExactlyOnTrimmed(alone);
    StripIsIdentityExactlyOnTrimmed(after);
    SplitOne(alone, "");
    SplitOne(after, "");
    TagIsIgnoredIff(kind, 1, alone);
    assert Decimal(1) == "1";
    assert Leading(kind, alone)[0] == SUPERSCRIPT_TWO;
    assert !Readable(kind, alone) && !Readable(kind, after);
    hide Strip, Split, Leading, Readable;
    FourComponentsIff(kind, alone);
    FourComponentsIff(kind, after);
  }

  lemma SplitOne(s: string, rest: string)
    requires '.' !in s
    ensures Split(s) == [s] && Split(s + "." + rest) == [s] + Split(rest)
  {
    BeforeSkips(s, '.', rest);
    assert s + "." + rest == s + ['.'] + rest;
    assert (s + "." + rest)[|s| + 1..] == rest;
  }

  /** The printed numbers. */
  function Decimals(numbers: seq<nat>): seq<string> {
    seq(|numbers|, i requires 0 <= i < |numbers| => Decimal(numbers[i]))
  }

  lemma {:induction false} DottedParts(numbers: seq<nat>)
    requires numbers != []
    ensures Split(Dotted(numbers)) == Decimals(numbers)
  {
    hide Decimal;
    DecimalHasOnlyDigits(numbers[0], '.');
    if |numbers| == 1 {
      SplitOne(Decimal(numbers[0]), "");
    } else {
      DottedParts(numbers[1..]);
      SplitOne(Decimal(numbers[0]), Dotted(numbers[1..]));
    }
  }

  lemma {:induction false} ComponentsOfDecimals(kind: Table, numbers: seq<nat>)
    requires Sound(kind) && forall n :: n in numbers ==> |Decimal(n)| <= MAX_DIGITS
    ensures Components(kind, Decimals(numbers)) == Some(numbers)
  {
    if numbers != [] {
      var n := |numbers| - 1;
      TagIsIgnoredIff(kind, numbers[n], "");
      hide Decimal, Component, Sound;
      assert numbers[n] in numbers && Decimal(numbers[n]) + "" == Decimal(numbers[n]);
      ComponentsOfDecimals(kind, numbers[..n]);
      assert Decimals(numbers)[..n] == Decimals(numbers[..n]) && Decimals(numbers)[n] == Decimal(numbers[n]);
      assert numbers[..n] + [numbers[n]] == numbers;
    }
  }

  lemma {:induction false} DottedHasDigitEnds(numbers: seq<nat>)
    requires numbers != []
    ensures var s := Dotted(numbers); s != "" && IsDigit(s[0]) && IsDigit(s[|s| - 1])
  {
    if |numbers| > 1 {
      DottedHasDigitEnds(numbers[1..]);
    }
  }

  lemma DottedIsTrimmed(numbers: seq<nat>)
    requires numbers != []
    ensures Strip(Dotted(numbers)) == Dotted(numbers)
  {
    hide Dotted, Strip;
    DottedHasDigitEnds(numbers);
    StripIsIdentityExactlyOnTrimmed(Dotted(numbers));
  }

  /**
   Printing any numbers with dots and reading them gives back the first four, with zeros for missing ones, exactly
   when no number has too many digits.
   */
  lemma DottedRoundTrip(kind: Table, numbers: seq<nat>)
    requires Sound(kind) && numbers != []
    ensures VersionOf(kind, Dotted(numbers)) ==
            if forall n :: n in numbers ==> |Decimal(n)| <= MAX_DIGITS then Some(Padded(numbers)) else None
    ensures |numbers| == WIDTH ==> Padded(numbers) == numbers
  {
    hide Dotted, Split, Strip, Decimal, Component, Components, Sound, Readable;
    DottedParts(numbers);
    DottedIsTrimmed(numbers);
    if forall n :: n in numbers ==> |Decimal(n)| <= MAX_DIGITS {
      ComponentsOfDecimals(kind, numbers);
    } else {
      var n :| n in numbers && |Decimal(n)| > MAX_DIGITS;
      var i :| 0 <= i < |numbers| && numbers[i] == n;
      LongNumberIsUnreadable(kind, n);
      assert Decimals(numbers)[i] == Decimal(n);
      ComponentsIff(kind, Decimals(numbers));
    }
  }

  lemma LongNumberIsUnreadable(kind: Table, n: nat)
    requires Sound(kind) && |Decimal(n)| > MAX_DIGITS
    ensures !Readable(kind, Decimal(n))
  {
    TagIsIgnoredIff(kind, n, "");
    assert Decimal(n) + "" == Decimal(n);
  }

  // ----- The order -----

  lemma {:induction false} LessIsAStrictTotalOrder(a: seq<nat>, b: seq<nat>, c: seq<nat>)
    ensures !Less(a, a)
    ensures Less(a, b) && Less(b, c) ==> Less(a, c)
    ensures a == b || Less(a, b) || Less(b, a)
    decreases |a| + |b| + |c|
  {
    if a != [] {
      LessIsAStrictTotalOrder(a[1..], if b == [] then [] else b[1..], if c == [] then [] else c[1..]);
      assert b != [] && a[0] == b[0] && a[1..] == b[1..] ==> a == b by {
        assert a == [a[0]] + a[1..];
        assert b != [] ==> b == [b[0]] + b[1..];
      }
    }
  }

  /** At position `k` the numbers differ for the first time, and `a` has the smaller one. */
  predicate SmallerAt(a: seq<nat>, b: seq<nat>, k: nat)
    requires |a| == |b|
  {
    k < |a| && a[k] < b[k] && forall i :: 0 <= i < k ==> a[i] == b[i]
  }

  /** Of two versions of one length, the smaller is the one with the smaller number where they first differ. */
  lemma {:induction false} LessIff(a: seq<nat>, b: seq<nat>)
    requires |a| == |b|
    ensures Less(a, b) <==> exists k :: SmallerAt(a, b, k)
  {
    if a != [] {
      LessIff(a[1..], b[1..]);
      if k: nat :| SmallerAt(a[1..], b[1..], k) {
        assert a[0] == b[0] ==> SmallerAt(a, b, k + 1) by {
          assert a[1..][k] == a[k + 1] && b[1..][k] == b[k + 1];
          assert forall i :: 0 <= i < k ==> a[1..][i] == a[i + 1] && b[1..][i] == b[i + 1];
        }
      }
      if k: nat :| SmallerAt(a, b, k) {
        if k > 0 {
          assert SmallerAt(a[1..], b[1..], k - 1);
        }
      }
      assert a[0] < b[0] ==> SmallerAt(a, b, 0);
    }
  }

  /** An update is available exactly when the installed version, as printed, is the smaller one. */
  lemma PrintedUpdateIff(kind: Table, installed: seq<nat>, latest: seq<nat>)
    requires Sound(kind) && |installed| == |latest| == 4
    requires forall n :: n in installed || n in latest ==> |Decimal(n)| <= 4300
    ensures UpdateAvailable(kind, Dotted(installed), Dotted(latest)) ==
            Some(exists k :: SmallerAt(installed, latest, k))
  {
    DottedRoundTrip(kind, installed);
    DottedRoundTrip(kind, latest);
    DottedIsTrimmed(installed);
    DottedIsTrimmed(latest);
    DottedHasDigitEnds(installed);
    DottedHasDigitEnds(latest);
    LessIff(installed, latest);
    hide Sound, Dotted, Strip, VersionOf, Less, SmallerAt, Padded, Decimal;
  }

  lemma StrippingTwice(kind: Table, v: string)
    ensures VersionOf(kind, Strip(v)) == VersionOf(kind, v)
  {
    StripTrims(v);
    StripIsIdentityExactlyOnTrimmed(Strip(v));
  }

  /** The question is answered exactly when one of the versions is blank or both can be read. */
  lemma UpdateIsAnsweredIff(kind: Table, u: string, v: string)
    ensures UpdateAvailable(kind, u, v).Some? <==>
            Strip(u) == "" || Strip(v) == "" || (VersionOf(kind, u).Some? && VersionOf(kind, v).Some?)
  {
    hide Strip, VersionOf, Less;
    StrippingTwice(kind, u);
    StrippingTwice(kind, v);
  }

  /**
   Being out of date is a strict order on version strings, and two non-blank readable versions neither of which
   updates the other have the same four components.
   */
  lemma UpdateIsAStrictOrder(kind: Table, u: string, v: string, w: string)
    ensures UpdateAvailable(kind, v, v) != Some(true)
    ensures UpdateAvailable(kind, u, v) == Some(true) && UpdateAvailable(kind, v, w) == Some(true) ==>
              UpdateAvailable(kind, u, w) == Some(true)
    ensures UpdateAvailable(kind, u, v) == Some(true) ==> UpdateAvailable(kind, v, u) == Some(false)
    ensures Strip(u) != "" && Strip(v) != "" && VersionOf(kind, u).Some? && VersionOf(kind, v).Some? ==>
              (UpdateAvailable(kind, u, v) == Some(false) == UpdateAvailable(kind, v, u) <==>
               VersionOf(kind, u) == VersionOf(kind, v))
  {
    hide Strip, VersionOf, Less;
    StrippingTwice(kind, u);
    StrippingTwice(kind, v);
    StrippingTwice(kind, w);
    var a, b, c := NumbersOf(kind, u), NumbersOf(kind, v), NumbersOf(kind, w);
    LessIsAStrictTotalOrder(b, b, b);
    LessIsAStrictTotalOrder(a, b, c);
    LessIsAStrictTotalOrder(a, b, a);
  }

  function NumbersOf(kind: Table, v: string): seq<nat> {
    if VersionOf(kind, v).Some? then VersionOf(kind, v).value else []
  }

  lemma {:induction false} SplitAppend(s: string, t: string)
    requires '.' !in t
    ensures Split(s + "." + t) == Split(s) + [t]
    decreases |s|
  {
    var head := Before(s, '.');
    BeforeIsAPrefix(s, '.');
    if |head| == |s| {
      SplitOne(s, t);
      SplitOne(t, "");
    } else {
      var rest := s[|head| + 1..];
      SplitAppend(rest, t);
      assert s == head + "." + rest;
      assert s + "." + t == head + "." + (rest + "." + t);
      SplitOne(head, rest + "." + t);
      SplitOne(head, rest);
    }
  }

  lemma AppendedPart(kind: Table, v: string, part: string)
    requires Strip(v) != "" && '.' !in part && (part == "" || !IsSpace(part[|part| - 1]))
    ensures VersionOf(kind, Strip(v) + "." + part) ==
            var front, last := Components(kind, Split(Strip(v))), Component(kind, part);
            if front.None? || last.None? then None else Some(Padded(front.value + [last.value]))
  {
    StripTrims(v);
    var s := Strip(v);
    StripIsIdentityExactlyOnTrimmed(s + "." + part);
    SplitAppend(s, part);
    hide Strip, Split, Component;
    assert (Split(s) + [part])[..|Split(s)|] == Split(s);
  }

  lemma PaddingAbsorbs(numbers: seq<nat>, n: nat)
    requires numbers != [] && (n == 0 || |numbers| >= WIDTH)
    ensures Padded(numbers + [n]) == Padded(numbers)
  {
  }

  /** A trailing zero component changes nothing, wherever it falls and whether or not the version can be read. */
  lemma TrailingZeroIsIgnored(kind: Table, v: string)
    requires Sound(kind) && Strip(v) != ""
    ensures VersionOf(kind, Strip(v) + ".0") == VersionOf(kind, v)
  {
    AppendedPart(kind, v, "0");
    assert Strip(v) + "." + "0" == Strip(v) + ".0";
    TagIsIgnoredIff(kind, 0, "");
    assert Decimal(0) + "" == "0";
    hide Strip, Split, Component, Components;
    var front := Components(kind, Split(Strip(v)));
    if front.Some? {
      PaddingAbsorbs(front.value, 0);
    }
  }

  /** A fifth component is read and then dropped: it changes nothing when it can be read, and raises otherwise. */
  lemma FifthComponentIsDropped(kind: Table, v: string, part: string)
    requires Strip(v) != "" && |Split(Strip(v))| >= WIDTH && '.' !in part && (part == "" || !IsSpace(part[|part| - 1]))
    ensures VersionOf(kind, Strip(v) + "." + part) == if Readable(kind, part) then VersionOf(kind, v) else None
  {
    AppendedPart(kind, v, part);
    hide Strip, Split, Components, Readable;
    var front := Components(kind, Split(Strip(v)));
    if front.Some? && Readable(kind, part) {
      PaddingAbsorbs(front.value, Component(kind, part).value);
    }
  }
}
