/**
 The two string primitives the time formatters rely on, restricted to the
 non-negative integers the model uses: `Number.prototype.toString()` in base 10
 and `String.prototype.padStart` with a one-character fill. `Parse` reads a digit
 string back and is the partner against which both are proved.
 */
module Decimal {

  predicate IsDigit(c: char) {
    '0' <= c <= '9'
  }

  predicate AllDigits(s: string) {
    forall i :: 0 <= i < |s| ==> IsDigit(s[i])
  }

  function DigitChar(d: nat): (c: char)
    requires d < 10
    ensures IsDigit(c)
    ensures c as int - '0' as int == d
  {
    (d + '0' as int) as char
  }

  function DigitValue(c: char): (d: nat)
    requires IsDigit(c)
    ensures d < 10
    ensures DigitChar(d) == c
  {
    c as int - '0' as int
  }

  /** The value denoted by a string of decimal digits, most significant first. */
  function Parse(s: string): (n: nat)
    requires AllDigits(s)
    decreases |s|
  {
    if |s| == 0 then 0 else Parse(s[..|s| - 1]) * 10 + DigitValue(s[|s| - 1])
  }

  /** `n.toString()`: the shortest decimal numeral of `n`. */
  function ToDecimal(n: nat): (s: string)
    ensures 1 <= |s|
    ensures AllDigits(s)
    ensures |s| == 1 <==> n < 10
    ensures n < 100 ==> |s| <= 2
    ensures s[0] == '0' ==> n == 0
    decreases n
  {
    if n < 10 then [DigitChar(n)] else ToDecimal(n / 10) + [DigitChar(n % 10)]
  }

  /** `k` copies of `c`. */
  function Repeat(c: char, k: nat): (s: string)
    ensures |s| == k
    ensures forall i :: 0 <= i < k ==> s[i] == c
  {
    seq(k, _ => c)
  }

  /** `s.padStart(width, fill)` for a one-character `fill`: never truncates. */
  function PadStart(s: string, width: nat, fill: char): (r: string)
    ensures |r| == if |s| < width then width else |s|
    ensures r[|r| - |s|..] == s
    ensures forall i :: 0 <= i < |r| - |s| ==> r[i] == fill
  {
    if width <= |s| then s else Repeat(fill, width - |s|) + s
  }

  /** The numeral of a number below 100, digit by digit. */
  lemma SmallNumeral(n: nat)
    requires n < 100
    ensures n < 10 ==> ToDecimal(n) == [DigitChar(n)]
    ensures 10 <= n ==> ToDecimal(n) == [DigitChar(n / 10), DigitChar(n % 10)]
  {
  }

  /** Reading back the numeral gives the number: `ToDecimal` loses nothing. */
  lemma {:induction false} ParseToDecimal(n: nat)
    ensures Parse(ToDecimal(n)) == n
    decreases n
  {
    var s := ToDecimal(n);
    if n >= 10 {
      ParseToDecimal(n / 10);
      assert s[..|s| - 1] == ToDecimal(n / 10);
    }
  }

  /** Leading zeros do not change the value of a numeral. */
  lemma {:induction false} ParseLeadingZeros(k: nat, s: string)
    requires AllDigits(s)
    ensures AllDigits(Repeat('0', k) + s)
    ensures Parse(Repeat('0', k) + s) == Parse(s)
    decreases |s|
  {
    var z := Repeat('0', k);
    if |s| == 0 {
      assert z + s == z;
      ParseZeros(k);
    } else {
      ParseLeadingZeros(k, s[..|s| - 1]);
      assert (z + s)[..|z + s| - 1] == z + s[..|s| - 1];
    }
  }

  lemma {:induction false} ParseZeros(k: nat)
    ensures AllDigits(Repeat('0', k))
    ensures Parse(Repeat('0', k)) == 0
    decreases k
  {
    if k > 0 {
      ParseZeros(k - 1);
      assert Repeat('0', k)[..k - 1] == Repeat('0', k - 1);
    }
  }

  /** Zero-padding a numeral keeps it a numeral of the same value. */
  lemma ParseZeroPadded(s: string, width: nat)
    requires AllDigits(s)
    ensures AllDigits(PadStart(s, width, '0'))
    ensures Parse(PadStart(s, width, '0')) == Parse(s)
  {
    if |s| < width {
      ParseLeadingZeros(width - |s|, s);
    }
  }
}
