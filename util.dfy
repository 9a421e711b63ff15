/** The helpers of pkg/util: digit counting and "first namespace argument or blank". */
module Util {
  import opened Strings

  /**
   * DigitCount: the length of the decimal rendering of n. For positive n that is the
   * number of decimal digits; zero renders as "0"; a negative n also counts its '-' sign.
   */
  function DigitCount(n: int): (r: nat)
    ensures r >= 1
    ensures n > 0 ==> Pow10(r - 1) <= n < Pow10(r)
    ensures n == 0 ==> r == 1
    ensures n < 0 ==> r >= 2 && Pow10(r - 2) <= -n < Pow10(r - 1)
  {
    DigitsLength(if n < 0 then -n else n);
    |Itoa(n)|
  }

  /**
   * FirstOrBlank: of a variadic argument list, the first argument verbatim when it holds
   * a non-white-space character, otherwise "" (which callers read as "all namespaces").
   */
  function FirstOrBlank(s: seq<string>): (r: string)
    ensures r == "" || (|s| > 0 && r == s[0])
    ensures |s| > 0 && !IsBlank(s[0]) ==> r == s[0]
    ensures |s| == 0 || IsBlank(s[0]) ==> r == ""
  {
    if |s| > 0 then
      TrimSpaceBlank(s[0]);
      if |TrimSpace(s[0])| > 0 then s[0] else ""
    else
      ""
  }

  /** The cases listed in pkg/util/util_test.go for DigitCount, plus zero and a negative number. */
  lemma DigitCountExamples()
    ensures DigitCount(1) == 1 && DigitCount(12) == 2 && DigitCount(99) == 2
    ensures DigitCount(102) == 3 && DigitCount(215) == 3 && DigitCount(999) == 3 && DigitCount(1000) == 4
    ensures DigitCount(10030) == 5 && DigitCount(0) == 1 && DigitCount(-7) == 2
  {
    assert Pow10(1) == 10 && Pow10(2) == 100 && Pow10(3) == 1000;
    assert Pow10(4) == 10000 && Pow10(5) == 100000;
  }

  /** The cases listed in pkg/util/util_test.go for FirstOrBlank. */
  lemma FirstOrBlankExamples()
    ensures FirstOrBlank([""]) == ""
    ensures FirstOrBlank(["pomegranate"]) == "pomegranate"
    ensures FirstOrBlank(["apple", "banana"]) == "apple"
    ensures FirstOrBlank(["    "]) == ""
    ensures FirstOrBlank([]) == ""
  {
    assert !IsSpace("pomegranate"[0]);
    assert !IsSpace("apple"[0]);
  }
}
