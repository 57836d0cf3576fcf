/** Python string operations used by the licensing code, and decimal printing and parsing. */
module Text {
  const DIGITS := "0123456789"

  /** `str.isspace` for one character. */
  predicate IsSpace(c: char) {
    var n := c as int;
    9 <= n <= 13 || 28 <= n <= 32 || n == 0x85 || n == 0xA0 || n == 0x1680 ||
    0x2000 <= n <= 0x200A || n == 0x2028 || n == 0x2029 || n == 0x202F || n == 0x205F || n == 0x3000
  }

  predicate SpaceFree(s: string) {
    forall i :: 0 <= i < |s| ==> !IsSpace(s[i])
  }

  function LowerChar(c: char): char {
    if 'A' <= c <= 'Z' then ((c as int) + 32) as char else c
  }

  /** `str.lower` on the ASCII letters; every other character is kept. */
  function Lower(s: string): string {
    seq(|s|, i requires 0 <= i < |s| => LowerChar(s[i]))
  }

  function TrimStart(s: string): string {
    if s != "" && IsSpace(s[0]) then TrimStart(s[1..]) else s
  }

  function TrimEnd(s: string): string {
    if s != "" && IsSpace(s[|s| - 1]) then TrimEnd(s[..|s| - 1]) else s
  }

  /** `str.strip()`. */
  function Strip(s: string): string {
    TrimEnd(TrimStart(s))
  }

  /** Everything before the first `sep`, or all of `s` when there is none. */
  function Before(s: string, sep: char): string {
    if s == "" || s[0] == sep then "" else [s[0]] + Before(s[1..], sep)
  }

  /** `str.rstrip(c)` for a single character. */
  function DropTrailing(s: string, c: char): string {
    if s != "" && s[|s| - 1] == c then DropTrailing(s[..|s| - 1], c) else s
  }

  /** Text that strips to itself: empty, or with no space at either end. */
  predicate Trimmed(s: string) {
    s == "" || (!IsSpace(s[0]) && !IsSpace(s[|s| - 1]))
  }

  lemma {:induction false} TrimStartIsASuffix(s: string)
    ensures var r := TrimStart(s);
            |r| <= |s| && r == s[|s| - |r|..] && (r != "" ==> !IsSpace(r[0]))
            && forall i :: 0 <= i < |s| - |r| ==> IsSpace(s[i])
  {
    hide IsSpace;
    if s != "" && IsSpace(s[0]) {
      TrimStartIsASuffix(s[1..]);
      var r := TrimStart(s);
      forall i | 0 < i < |s| - |r| ensures IsSpace(s[i]) {
        assert IsSpace(s[1..][i - 1]);
      }
    }
  }

  lemma {:induction false} TrimEndIsAPrefix(s: string)
    ensures var r := TrimEnd(s);
            |r| <= |s| && r == s[..|r|] && (r != "" ==> !IsSpace(r[|r| - 1]))
            && forall i :: |r| <= i < |s| ==> IsSpace(s[i])
  {
    hide IsSpace;
    if s != "" && IsSpace(s[|s| - 1]) {
      TrimEndIsAPrefix(s[..|s| - 1]);
    }
  }

  lemma StripTrims(s: string)
    ensures |Strip(s)| <= |s| && Trimmed(Strip(s))
  {
    TrimStartIsASuffix(s);
    TrimEndIsAPrefix(TrimStart(s));
  }

  predicate Spaces(s: string) {
    forall i :: 0 <= i < |s| ==> IsSpace(s[i])
  }

  /** Stripping takes off the space around a text, all of it and nothing else. */
  lemma StripOfPadded(before: string, core: string, after: string)
    requires Spaces(before) && Spaces(after) && Trimmed(core)
    ensures Strip(before + core + after) == core
  {
    hide IsSpace;
    if core == "" {
      assert Spaces(before + core + after);
      StripOfSpaces(before + core + after);
    } else {
      assert before + core + after == before + (core + after);
      TrimStartSkips(before, core + after);
      TrimEndSkips(core, after);
    }
  }

  lemma {:induction false} TrimStartSkips(before: string, rest: string)
    requires Spaces(before) && rest != "" && !IsSpace(rest[0])
    ensures TrimStart(before + rest) == rest
  {
    hide IsSpace;
    if before != "" {
      assert (before + rest)[1..] == before[1..] + rest;
      TrimStartSkips(before[1..], rest);
    } else {
      assert before + rest == rest;
    }
  }

  lemma {:induction false} TrimEndSkips(core: string, after: string)
    requires Spaces(after) && core != "" && !IsSpace(core[|core| - 1])
    ensures TrimEnd(core + after) == core
  {
    hide IsSpace;
    if after != "" {
      assert (core + after)[..|core + after| - 1] == core + after[..|after| - 1];
      TrimEndSkips(core, after[..|after| - 1]);
    } else {
      assert core + after == core;
    }
  }

  lemma {:induction false} StripOfSpaces(s: string)
    requires Spaces(s)
    ensures TrimStart(s) == "" && Strip(s) == ""
  {
    hide IsSpace;
    if s != "" {
      StripOfSpaces(s[1..]);
    }
  }

  lemma StripIsIdentityExactlyOnTrimmed(s: string)
    ensures Strip(s) == s <==> Trimmed(s)
  {
    StripTrims(s);
  }

  lemma {:induction false} BeforeIsAPrefix(s: string, sep: char)
    ensures var r := Before(s, sep);
            |r| <= |s| && r == s[..|r|] && sep !in r && (|r| < |s| ==> s[|r|] == sep)
  {
    if s != "" && s[0] != sep {
      BeforeIsAPrefix(s[1..], sep);
    }
  }

  lemma {:induction false} DropTrailingIsAPrefix(s: string, c: char)
    ensures var r := DropTrailing(s, c);
            |r| <= |s| && r == s[..|r|] && (r != "" ==> r[|r| - 1] != c) && forall i :: |r| <= i < |s| ==> s[i] == c
  {
    if s != "" && s[|s| - 1] == c {
      DropTrailingIsAPrefix(s[..|s| - 1], c);
    }
  }

  lemma {:induction false} BeforeOfLower(s: string, sep: char)
    requires !('A' <= sep <= 'Z') && !('a' <= sep <= 'z')
    ensures Before(Lower(s), sep) == Lower(Before(s, sep))
  {
    if s != "" && s[0] != sep {
      assert Lower(s)[1..] == Lower(s[1..]);
      BeforeOfLower(s[1..], sep);
    }
  }

  predicate IsDigit(c: char) {
    '0' <= c <= '9'
  }

  function DigitValue(c: char): (n: nat)
    requires IsDigit(c)
    ensures n < 10
  {
    (c as int) - ('0' as int)
  }

  /** `str(n)`. */
  function Decimal(n: nat): (s: string)
    ensures s != ""
    ensures forall i :: 0 <= i < |s| ==> IsDigit(s[i])
  {
    if n < 10 then [DIGITS[n]] else Decimal(n / 10) + [DIGITS[n % 10]]
  }

  /** `int(s)` for a run of digits, 0 for the empty run. */
  function ParseDecimal(s: string): nat
    requires forall i :: 0 <= i < |s| ==> IsDigit(s[i])
  {
    if s == "" then 0 else ParseDecimal(s[..|s| - 1]) * 10 + DigitValue(s[|s| - 1])
  }

  lemma {:induction false} DecimalRoundTrip(n: nat)
    ensures ParseDecimal(Decimal(n)) == n
  {
    if n < 10 {
      assert ParseDecimal([DIGITS[n]]) == ParseDecimal([DIGITS[n]][..0]) * 10 + n;
    } else {
      DecimalRoundTrip(n / 10);
      var s := Decimal(n);
      assert s[..|s| - 1] == Decimal(n / 10);
    }
  }

  /** `:` and `.` never occur in a printed number. */
  lemma DecimalHasOnlyDigits(n: nat, c: char)
    requires !IsDigit(c)
    ensures c !in Decimal(n)
  {
  }

  lemma {:induction false} BeforeSkips(s: string, sep: char, rest: string)
    requires sep !in s
    ensures Before(s + [sep] + rest, sep) == s && Before(s, sep) == s
  {
    if s != "" {
      BeforeSkips(s[1..], sep, rest);
      assert (s + [sep] + rest)[1..] == s[1..] + [sep] + rest;
    } else {
      assert s + [sep] + rest == [sep] + rest;
    }
  }

  /** The part before the first separator is unique. */
  lemma FirstSeparatorSplitsUniquely(a: string, s: string, b: string, t: string, sep: char)
    requires a + [sep] + s == b + [sep] + t
    requires sep !in a && sep !in b
    ensures a == b && s == t
  {
    BeforeSkips(a, sep, s);
    BeforeSkips(b, sep, t);
    assert s == (a + [sep] + s)[|a| + 1..] && t == (b + [sep] + t)[|b| + 1..];
  }

  /** The part after the last separator is unique. */
  lemma LastSeparatorSplitsUniquely(a: string, s: string, b: string, t: string, sep: char)
    requires a + [sep] + s == b + [sep] + t
    requires sep !in s && sep !in t
    ensures a == b && s == t
  {
    var x := a + [sep] + s;
    var y := b + [sep] + t;
    assert x[|a|] == sep && y[|b|] == sep;
    if |a| < |b| {
      assert false;
    } else if |b| < |a| {
      assert false;
    } else {
      assert a == x[..|a|] && b == y[..|b|];
      assert s == x[|a| + 1..] && t == y[|b| + 1..];
    }
  }
}
