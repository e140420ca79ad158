/** Positional numerals: printing (%d, %x) and reading back. */
module Numerals {
  import opened CText

  predicate IsBase(b: nat) { b == 10 || b == 16 }

  /** The value of a digit character, or 16 if it is none. */
  function DigitValue(c: char): (d: nat)
    ensures d <= 16
  {
    if '0' <= c <= '9' then c as int - '0' as int
    else if 'a' <= c <= 'f' then c as int - 'a' as int + 10
    else if 'A' <= c <= 'F' then c as int - 'A' as int + 10
    else 16
  }

  predicate IsDigit(c: char, b: nat) {
    DigitValue(c) < b && DigitValue(c) < 16
  }

  predicate AllDigits(s: Text, b: nat) {
    forall i :: 0 <= i < |s| ==> IsDigit(s[i], b)
  }

  function DigitChar(d: nat, upper: bool): (c: char)
    requires d < 16
    ensures DigitValue(c) == d
  {
    if d < 10 then ('0' as int + d) as char
    else if upper then ('A' as int + d - 10) as char
    else ('a' as int + d - 10) as char
  }

  function Digits(n: nat, b: nat, upper: bool): (s: Text)
    requires IsBase(b)
    ensures s != [] && AllDigits(s, b) && NulFree(s)
    decreases n
  {
    if n < b then [DigitChar(n, upper)] else Digits(n / b, b, upper) + [DigitChar(n % b, upper)]
  }

  /** The number a digit string denotes, most significant digit first. */
  function ValueOf(s: Text, b: nat): nat
    requires AllDigits(s, b)
  {
    if s == [] then 0 else ValueOf(s[..|s| - 1], b) * b + DigitValue(s[|s| - 1])
  }

  lemma {:induction false} DigitsDenote(n: nat, b: nat, upper: bool)
    requires IsBase(b)
    ensures ValueOf(Digits(n, b, upper), b) == n
  {
    hide ValueOf, DigitChar;
    if n >= b {
      DigitsDenote(n / b, b, upper);
      LastDigit(Digits(n / b, b, upper), DigitChar(n % b, upper), b);
      DivMod(n, b);
    } else {
      LastDigit([], DigitChar(n, upper), b);
      assert [] + [DigitChar(n, upper)] == [DigitChar(n, upper)];
      NoDigits(b);
    }
  }

  lemma DivMod(n: nat, b: nat)
    requires IsBase(b)
    ensures n / b * b + n % b == n
  {
  }

  lemma NoDigits(b: nat)
    ensures ValueOf([], b) == 0
  {
  }

  /** One more digit: the value times the base, and the digit. */
  lemma LastDigit(s: Text, c: char, b: nat)
    requires AllDigits(s, b) && IsDigit(c, b)
    ensures AllDigits(s + [c], b) && ValueOf(s + [c], b) == ValueOf(s, b) * b + DigitValue(c)
  {
    assert (s + [c])[..|s + [c]| - 1] == s;
  }

  function Power(b: nat, k: nat): nat {
    if k == 0 then 1 else b * Power(b, k - 1)
  }

  /** How many digits %d and %x print. */
  lemma {:induction false} DigitsLength(n: nat, b: nat, upper: bool, k: nat)
    requires IsBase(b) && 0 < k
    ensures |Digits(n, b, upper)| <= k <==> n < Power(b, k)
    decreases k
  {
    assert Power(b, 0) == 1 && Power(b, 1) == b * Power(b, 0);
    if n >= b {
      if k > 1 {
        QuotientBelow(n, b, Power(b, k - 1));
        DigitsLength(n / b, b, upper, k - 1);
      }
    } else {
      BaseBelow(b, k);
    }
  }

  lemma {:induction false} BaseBelow(b: nat, k: nat)
    requires IsBase(b) && 0 < k
    ensures b <= Power(b, k)
  {
    if k > 1 {
      BaseBelow(b, k - 1);
    } else {
      assert Power(b, 0) == 1;
    }
  }

  lemma QuotientBelow(n: nat, b: nat, p: nat)
    requires 0 < b
    ensures n / b < p <==> n < b * p
  {
    var q := n / b;
    assert b * q <= n < b * (q + 1);
    if q < p {
      Monotone(b, q + 1, p);
    } else {
      Monotone(b, p, q);
    }
  }

  lemma Monotone(b: nat, p: nat, q: nat)
    requires p <= q
    ensures b * p <= b * q
  {
  }

  /** %d */
  function Decimal(n: int): (s: Text)
    ensures s != [] && NulFree(s)
  {
    if n < 0 then ['-'] + Digits(-n, 10, false) else Digits(n, 10, false)
  }

  /** Which numbers print in at most nine characters. */
  lemma DecimalLength(n: int)
    ensures |Decimal(n)| <= 9 <==> -100_000_000 < n < 1_000_000_000
  {
    Powers();
    if n < 0 {
      DigitsLength(-n, 10, false, 8);
    } else {
      DigitsLength(n, 10, false, 9);
    }
  }

  lemma Powers()
    ensures Power(10, 8) == 100_000_000 && Power(10, 9) == 1_000_000_000
  {
    assert Power(10, 2) == 100;
    assert Power(10, 4) == 10_000;
    assert Power(10, 6) == 1_000_000;
  }
}
