/** The phone number a donation records: the prefix and the number, each written
    in decimal (`Integer.toString`) and left-padded with '0' to four characters
    (Commons Lang `StringUtils.leftPad`), then concatenated. */
module Padding {

  /** The character of decimal digit `d`. */
  function DigitChar(d: nat): (c: char)
    requires d < 10
    ensures '0' <= c <= '9'
  {
    ('0' as int + d) as char
  }

  /** The value of a decimal digit character (0 for any other character). */
  function DigitValue(c: char): nat
  {
    if '0' <= c <= '9' then c as int - '0' as int else 0
  }

  predicate IsDigits(s: string)
  {
    forall i :: 0 <= i < |s| ==> '0' <= s[i] <= '9'
  }

  /** The decimal digits of `n`, most significant first, with no leading zero. */
  function Digits(n: nat): (s: string)
    ensures 1 <= |s| && IsDigits(s)
    ensures s[0] == '0' <==> n == 0
    decreases n
  {
    if n < 10 then [DigitChar(n)] else Digits(n / 10) + [DigitChar(n % 10)]
  }

  /** `Integer.toString`: a minus sign for negative values, then the digits of
      the magnitude. */
  function IntegerToString(n: int): (s: string)
    ensures 1 <= |s|
    ensures n >= 0 ==> IsDigits(s)
    ensures n < 0 ==> s[0] == '-' && IsDigits(s[1..])
  {
    if n < 0 then "-" + Digits(-n) else Digits(n)
  }

  /** The value a string of decimal digits denotes. */
  function DecimalValue(s: string): nat
  {
    if s == [] then 0 else DecimalValue(s[..|s| - 1]) * 10 + DigitValue(s[|s| - 1])
  }

  function Pow10(k: nat): (p: nat)
    ensures p >= 1
  {
    if k == 0 then 1 else 10 * Pow10(k - 1)
  }

  /** `c` repeated `k` times. */
  function Repeat(c: char, k: nat): (r: string)
    ensures |r| == k
    ensures forall i :: 0 <= i < k ==> r[i] == c
  {
    seq(k, _ => c)
  }

  /** `StringUtils.leftPad(s, size, padChar)` on a non-null `s`: `s` itself when it
      is at least `size` long, otherwise `s` preceded by as many `padChar` as it
      takes to reach `size`. */
  function LeftPad(s: string, size: int, padChar: char): string
  {
    var pads := size - |s|;
    if pads <= 0 then s else Repeat(padChar, pads) + s
  }

  /** What `leftPad` returns: a string of length max(size, |s|) that ends with
      `s` and is `padChar` before it. */
  lemma LeftPadShape(s: string, size: int, padChar: char)
    ensures var r := LeftPad(s, size, padChar);
      |r| == (if |s| >= size then |s| else size) &&
      r[|r| - |s|..] == s &&
      forall i :: 0 <= i < |r| - |s| ==> r[i] == padChar
  {
  }

  /** The width the donation pads the prefix and the number to. */
  const PadWidth := 4

  /** One half of the phone number. */
  function PaddedCode(n: int): string
  {
    LeftPad(IntegerToString(n), PadWidth, '0')
  }

  /** The phone number of a donation: padded prefix, then padded number. */
  function PhoneNumber(prefix: int, number: int): string
  {
    PaddedCode(prefix) + PaddedCode(number)
  }

  /** `Integer.toString` then decimal reading gives the number back. */
  lemma {:induction false} DigitsRoundTrip(n: nat)
    ensures DecimalValue(Digits(n)) == n
  {
    if n >= 10 {
      var s := Digits(n);
      assert s[..|s| - 1] == Digits(n / 10);
      DigitsRoundTrip(n / 10);
    }
  }

  /** A number below 10^k has at most k digits. */
  lemma {:induction false} DigitsLength(n: nat, k: nat)
    requires 1 <= k && n < Pow10(k)
    ensures |Digits(n)| <= k
  {
    if n >= 10 {
      assert Pow10(1) == 10;
      assert k >= 2;
      assert n / 10 < Pow10(k - 1);
      DigitsLength(n / 10, k - 1);
    }
  }

  lemma {:induction false} ZerosValue(k: nat)
    ensures DecimalValue(Repeat('0', k)) == 0
  {
    if k > 0 {
      assert Repeat('0', k)[..k - 1] == Repeat('0', k - 1);
      ZerosValue(k - 1);
    }
  }

  /** Leading zeros do not change the value a digit string denotes. */
  lemma {:induction false} LeadingZerosValue(k: nat, s: string)
    ensures DecimalValue(Repeat('0', k) + s) == DecimalValue(s)
    decreases |s|
  {
    var z := Repeat('0', k);
    if s == [] {
      assert z + s == z;
      ZerosValue(k);
    } else {
      var t := z + s;
      assert t[..|t| - 1] == z + s[..|s| - 1];
      assert t[|t| - 1] == s[|s| - 1];
      LeadingZerosValue(k, s[..|s| - 1]);
    }
  }

  /** For 0 <= n <= 9999, the padded code is four digits and denotes n. */
  lemma PaddedCodeRoundTrip(n: int)
    requires 0 <= n < Pow10(PadWidth)
    ensures |PaddedCode(n)| == PadWidth && IsDigits(PaddedCode(n))
    ensures DecimalValue(PaddedCode(n)) == n
  {
    var d := Digits(n);
    DigitsLength(n, PadWidth);
    DigitsRoundTrip(n);
    if |d| < PadWidth {
      LeadingZerosValue(PadWidth - |d|, d);
    }
  }

  /** For a prefix and a number of at most four digits, the phone number is exactly
      eight digits, its first four give the prefix back and its last four the
      number. */
  lemma PhoneNumberRoundTrip(prefix: int, number: int)
    requires 0 <= prefix <= 9999 && 0 <= number <= 9999
    ensures var p := PhoneNumber(prefix, number);
      |p| == 8 && IsDigits(p) &&
      DecimalValue(p[..4]) == prefix && DecimalValue(p[4..]) == number
  {
    assert Pow10(PadWidth) == 10000;
    var a, b := PaddedCode(prefix), PaddedCode(number);
    PaddedCodeRoundTrip(prefix);
    PaddedCodeRoundTrip(number);
    SplitAt(a, b);
  }

  lemma SplitAt(a: string, b: string)
    requires IsDigits(a) && IsDigits(b)
    ensures (a + b)[..|a|] == a && (a + b)[|a|..] == b
    ensures IsDigits(a + b)
  {
    forall i | 0 <= i < |a + b| ensures '0' <= (a + b)[i] <= '9' {
      if i >= |a| { assert (a + b)[i] == b[i - |a|]; }
    }
  }

  /** Within four digits, distinct (prefix, number) pairs give distinct phone numbers. */
  lemma PhoneNumberInjective(p1: int, n1: int, p2: int, n2: int)
    requires 0 <= p1 <= 9999 && 0 <= n1 <= 9999
    requires 0 <= p2 <= 9999 && 0 <= n2 <= 9999
    requires PhoneNumber(p1, n1) == PhoneNumber(p2, n2)
    ensures p1 == p2 && n1 == n2
  {
    PhoneNumberRoundTrip(p1, n1);
    PhoneNumberRoundTrip(p2, n2);
  }

  /** Beyond four digits the padding no longer separates prefix from number:
      prefix 10001 with number 1 and prefix 1000 with number 10001 both give
      "100010001". */
  lemma PhoneNumberAmbiguousBeyondWidth()
    ensures PhoneNumber(10001, 1) == PhoneNumber(1000, 10001) == "100010001"
  {
    assert Digits(1) == "1";
    assert Digits(10) == Digits(1) + "0";
    assert Digits(100) == Digits(10) + "0";
    assert Digits(1000) == Digits(100) + "0";
    assert Digits(10001) == Digits(1000) + "1";
    assert Repeat('0', 3) == "000";
  }
}
