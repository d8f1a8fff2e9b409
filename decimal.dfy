/**
 * Decimal rendering of integers, as Python's `str(int)` and the zero-padded
 * fields of `str(date)` produce it, with the parser that inverts it.
 */
module Decimal {
  predicate IsDigit(c: char) {
    '0' <= c <= '9'
  }

  function DigitChar(d: nat): (c: char)
    requires d < 10
    ensures IsDigit(c) && c as int - '0' as int == d
  {
    (d + '0' as int) as char
  }

  function DigitValue(c: char): int {
    c as int - '0' as int
  }

  function Pow10(n: nat): (p: nat)
    ensures p >= 1
  {
    if n == 0 then 1 else 10 * Pow10(n - 1)
  }

  /** `str(n)` for n >= 0: the digits of n, most significant first, with no leading zero. */
  function ShowNat(n: nat): (s: string)
    ensures 1 <= |s| && forall i :: 0 <= i < |s| ==> IsDigit(s[i])
    ensures |s| > 1 ==> s[0] != '0' && Pow10(|s| - 1) <= n
    ensures n < Pow10(|s|)
  {
    if n < 10 then [DigitChar(n)] else ShowNat(n / 10) + [DigitChar(n % 10)]
  }

  /** `str(n)` for any int: a minus sign in front of a negative number. */
  function Show(n: int): (s: string)
    ensures |s| >= 1
    ensures s[0] == '-' <==> n < 0
  {
    if n < 0 then "-" + ShowNat(-n) else ShowNat(n)
  }

  /** The value of a string of decimal digits. */
  function ParseNat(s: string): int {
    if s == [] then 0 else ParseNat(s[..|s| - 1]) * 10 + DigitValue(s[|s| - 1])
  }

  /** Parsing inverts rendering. */
  lemma {:induction false} ParseShowNat(n: nat)
    ensures ParseNat(ShowNat(n)) == n
  {
    if n >= 10 {
      var s := ShowNat(n);
      assert s[..|s| - 1] == ShowNat(n / 10);
      ParseShowNat(n / 10);
    }
  }

  /** `n` rendered in at least `width` characters, padded with leading zeros (`%0*d`). */
  function Pad(n: nat, width: nat): (s: string)
    ensures |s| >= width && forall i :: 0 <= i < |s| ==> IsDigit(s[i])
    ensures 1 <= width && n < Pow10(width) ==> |s| == width
  {
    var digits := ShowNat(n);
    if |digits| >= width then
      (if |digits| > width then PowMonotone(width, |digits| - 1); digits else digits)
    else
      Zeros(width - |digits|) + digits
  }

  function Zeros(n: nat): (s: string)
    ensures |s| == n && forall i :: 0 <= i < n ==> s[i] == '0'
  {
    if n == 0 then [] else Zeros(n - 1) + ['0']
  }

  lemma {:induction false} PowMonotone(a: nat, b: nat)
    requires a <= b
    ensures Pow10(a) <= Pow10(b)
    decreases b - a
  {
    if a < b {
      PowMonotone(a, b - 1);
    }
  }

  /** Splitting a digit string: the head is shifted left by the length of the tail. */
  lemma {:induction false} ParseNatAppend(a: string, b: string)
    ensures ParseNat(a + b) == ParseNat(a) * Pow10(|b|) + ParseNat(b)
    decreases |b|
  {
    if b == [] {
      assert a + b == a;
    } else {
      var n := |b| - 1;
      assert (a + b)[..|a + b| - 1] == a + b[..n];
      ParseNatAppend(a, b[..n]);
    }
  }

  lemma {:induction false} ParseZeros(n: nat)
    ensures ParseNat(Zeros(n)) == 0
  {
    if n > 0 {
      assert Zeros(n)[..n - 1] == Zeros(n - 1);
      ParseZeros(n - 1);
    }
  }

  /** Leading zeros do not change the value: a padded field parses back to its number. */
  lemma ParsePad(n: nat, width: nat)
    ensures ParseNat(Pad(n, width)) == n
  {
    var digits := ShowNat(n);
    ParseShowNat(n);
    if |digits| < width {
      var zeros := Zeros(width - |digits|);
      assert Pad(n, width) == zeros + digits;
      ParseNatAppend(zeros, digits);
      ParseZeros(width - |digits|);
      assert ParseNat(zeros) * Pow10(|digits|) == 0;
    } else {
      assert Pad(n, width) == digits;
    }
  }
}
