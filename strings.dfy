/**
 * The parts of Go's `strings` and `strconv` packages that the repository relies on:
 * substring search, whitespace trimming and decimal rendering of integers.
 * Strings are sequences of Unicode code points.
 */
module Strings {

  /** `strings.HasPrefix`. */
  predicate HasPrefix(s: string, prefix: string) {
    |prefix| <= |s| && s[..|prefix|] == prefix
  }

  /** `strings.Contains`: `sub` starts at some position of `s` (the empty string occurs everywhere). */
  predicate Contains(s: string, sub: string)
    decreases |s|
  {
    HasPrefix(s, sub) || (|s| > 0 && Contains(s[1..], sub))
  }

  /** `sub` occurs in `s` starting at index `i`. */
  ghost predicate OccursAt(s: string, sub: string, i: int) {
    0 <= i && i + |sub| <= |s| && s[i..i + |sub|] == sub
  }

  /** `Contains` is exactly "occurs at some index". */
  lemma {:induction false} ContainsIffOccurs(s: string, sub: string)
    ensures Contains(s, sub) <==> exists i :: OccursAt(s, sub, i)
    decreases |s|
  {
    if |s| > 0 {
      ContainsIffOccurs(s[1..], sub);
      forall i | OccursAt(s[1..], sub, i)
        ensures OccursAt(s, sub, i + 1)
      {
        assert s[1..][i..i + |sub|] == s[i + 1..i + 1 + |sub|];
      }
      forall i | OccursAt(s, sub, i) && i > 0
        ensures OccursAt(s[1..], sub, i - 1)
      {
        assert s[1..][i - 1..i - 1 + |sub|] == s[i..i + |sub|];
      }
    }
    assert HasPrefix(s, sub) <==> OccursAt(s, sub, 0);
  }

  /** Every character of a contained string is a character of the container. */
  lemma ContainsChar(s: string, sub: string, k: int)
    requires Contains(s, sub) && 0 <= k < |sub|
    ensures sub[k] in s
  {
    ContainsIffOccurs(s, sub);
    var i :| OccursAt(s, sub, i);
    assert s[i..i + |sub|][k] == s[i + k];
  }

  /** A string followed by `sub` contains `sub`. */
  lemma ContainsSuffix(prefix: string, sub: string)
    ensures Contains(prefix + sub, sub)
  {
    var s := prefix + sub;
    assert s[|prefix|..|prefix| + |sub|] == sub;
    assert OccursAt(s, sub, |prefix|);
    ContainsIffOccurs(s, sub);
  }

  /** `unicode.IsSpace`: the Latin-1 spaces and the other code points with the White_Space property. */
  predicate IsSpace(c: char) {
    ('\t' <= c <= '\r') || c == ' ' || c == '\U{0085}' || c == '\U{00A0}' || c == '\U{1680}'
    || ('\U{2000}' <= c <= '\U{200A}') || c == '\U{2028}' || c == '\U{2029}' || c == '\U{202F}'
    || c == '\U{205F}' || c == '\U{3000}'
  }

  /** Empty or made of white space only. */
  ghost predicate IsBlank(s: string) {
    forall i :: 0 <= i < |s| ==> IsSpace(s[i])
  }

  function TrimLeftSpace(s: string): string {
    if |s| > 0 && IsSpace(s[0]) then TrimLeftSpace(s[1..]) else s
  }

  function TrimRightSpace(s: string): string {
    if |s| > 0 && IsSpace(s[|s| - 1]) then TrimRightSpace(s[..|s| - 1]) else s
  }

  /** `strings.TrimSpace`: drops leading and trailing white space. */
  function TrimSpace(s: string): string {
    TrimRightSpace(TrimLeftSpace(s))
  }

  lemma {:induction false} TrimLeftSpaceBlank(s: string)
    ensures TrimLeftSpace(s) == [] <==> IsBlank(s)
    ensures TrimLeftSpace(s) == [] || !IsSpace(TrimLeftSpace(s)[0])
  {
    if |s| > 0 && IsSpace(s[0]) {
      TrimLeftSpaceBlank(s[1..]);
      assert IsBlank(s) <==> IsBlank(s[1..]) by {
        if IsBlank(s[1..]) {
          forall i | 0 <= i < |s| ensures IsSpace(s[i]) {
            if i > 0 { assert s[i] == s[1..][i - 1]; }
          }
        }
      }
    }
  }

  lemma {:induction false} TrimRightSpaceBlank(s: string)
    ensures TrimRightSpace(s) == [] <==> IsBlank(s)
  {
    if |s| > 0 && IsSpace(s[|s| - 1]) {
      var t := s[..|s| - 1];
      TrimRightSpaceBlank(t);
      assert IsBlank(s) <==> IsBlank(t) by {
        if IsBlank(t) {
          forall i | 0 <= i < |s| ensures IsSpace(s[i]) {
            if i < |s| - 1 { assert s[i] == t[i]; }
          }
        }
      }
    }
  }

  /** TrimSpace leaves nothing exactly when the string is blank. */
  lemma TrimSpaceBlank(s: string)
    ensures TrimSpace(s) == [] <==> IsBlank(s)
  {
    var t := TrimLeftSpace(s);
    TrimLeftSpaceBlank(s);
    TrimRightSpaceBlank(t);
  }

  /** 10 to the power k. */
  function Pow10(k: nat): nat {
    if k == 0 then 1 else 10 * Pow10(k - 1)
  }

  function DigitChar(d: int): char
    requires 0 <= d < 10
  {
    ('0' as int + d) as char
  }

  predicate IsDigit(c: char) {
    '0' <= c <= '9'
  }

  /** The decimal digits of n, most significant first, without leading zeros ("0" for zero). */
  function Digits(n: nat): string
    decreases n
  {
    if n < 10 then [DigitChar(n)] else Digits(n / 10) + [DigitChar(n % 10)]
  }

  /** `strconv.Itoa`: the decimal rendering of n, with a leading '-' when n is negative. */
  function Itoa(n: int): string {
    if n < 0 then "-" + Digits(-n) else Digits(n)
  }

  /** The value of a string of decimal digits. */
  function DigitsValue(s: string): int {
    if s == [] then 0 else DigitsValue(s[..|s| - 1]) * 10 + (s[|s| - 1] as int - '0' as int)
  }

  /** `strconv.Atoi` on what Itoa produces: an optional '-' followed by digits. */
  function Atoi(s: string): int {
    if |s| > 0 && s[0] == '-' then -DigitsValue(s[1..]) else DigitsValue(s)
  }

  /** Digits(n) has k characters, where 10^(k-1) <= n < 10^k for positive n, and they are all digits. */
  lemma {:induction false} DigitsLength(n: nat)
    ensures |Digits(n)| >= 1
    ensures n < Pow10(|Digits(n)|)
    ensures n >= 1 ==> Pow10(|Digits(n)| - 1) <= n
    ensures forall i :: 0 <= i < |Digits(n)| ==> IsDigit(Digits(n)[i])
    decreases n
  {
    if n >= 10 {
      var q, d := n / 10, n % 10;
      DigitsLength(q);
      var k := |Digits(q)|;
      assert |Digits(n)| == k + 1;
      assert n == 10 * q + d;
      assert Pow10(k + 1) == 10 * Pow10(k);
      assert Pow10(k) == 10 * Pow10(k - 1);
      assert forall i :: 0 <= i < k ==> Digits(n)[i] == Digits(q)[i];
    }
  }

  /** DigitsValue undoes Digits. */
  lemma {:induction false} DigitsRoundTrip(n: nat)
    ensures DigitsValue(Digits(n)) == n
    decreases n
  {
    if n >= 10 {
      DigitsRoundTrip(n / 10);
      var s := Digits(n);
      assert s[..|s| - 1] == Digits(n / 10);
    }
  }

  /** Atoi undoes Itoa for every integer. */
  lemma ItoaRoundTrip(n: int)
    ensures Atoi(Itoa(n)) == n
  {
    if n < 0 {
      DigitsRoundTrip(-n);
      assert Itoa(n)[1..] == Digits(-n);
    } else {
      DigitsRoundTrip(n);
      DigitsLength(n);
      assert IsDigit(Digits(n)[0]);
    }
  }
}
