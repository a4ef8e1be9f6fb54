/** str(n) of a non-negative integer. */
module Numerals {
  import opened Text

  function Digit(n: nat): char
    requires n < 10
  {
    '0' + n as char
  }

  function Decimal(n: nat): (r: string)
    ensures r != "" && forall i | 0 <= i < |r| :: IsDigit(r[i])
  {
    if n < 10 then [Digit(n)] else Decimal(n / 10) + [Digit(n % 10)]
  }

  lemma DigitInjective(m: nat, n: nat)
    requires m < 10 && n < 10 && Digit(m) == Digit(n)
    ensures m == n
  {
    assert Digit(m) as int == '0' as int + m && Digit(n) as int == '0' as int + n;
  }

  lemma SnocInjective(a: string, c: char, b: string, d: char)
    requires a + [c] == b + [d]
    ensures a == b && c == d
  {
    assert (a + [c])[|a|] == c && (b + [d])[|b|] == d;
    assert (a + [c])[..|a|] == a && (b + [d])[..|b|] == b;
  }

  /** Different numbers are written differently. */
  lemma {:induction false} DecimalInjective(m: nat, n: nat)
    requires Decimal(m) == Decimal(n)
    ensures m == n
  {
    var a := if m < 10 then "" else Decimal(m / 10);
    var b := if n < 10 then "" else Decimal(n / 10);
    assert Decimal(m) == a + [Digit(m % 10)] && Decimal(n) == b + [Digit(n % 10)];
    SnocInjective(a, Digit(m % 10), b, Digit(n % 10));
    DigitInjective(m % 10, n % 10);
    if m >= 10 && n >= 10 {
      DecimalInjective(m / 10, n / 10);
    }
  }

  /** The number that digits stand for. */
  function Reads(s: string): int {
    if s == "" then 0 else 10 * Reads(s[..|s| - 1]) + (s[|s| - 1] as int - '0' as int)
  }

  /** The digits stand for the number, and there are no more of them than needed. */
  lemma {:induction false} DecimalMeaning(n: nat)
    ensures Reads(Decimal(n)) == n && (Decimal(n)[0] == '0' ==> n == 0) && (n == 0 ==> Decimal(n) == "0")
  {
    var init := if n < 10 then "" else Decimal(n / 10);
    assert Decimal(n) == init + [Digit(n % 10)];
    assert Decimal(n)[..|Decimal(n)| - 1] == init;
    if n >= 10 { DecimalMeaning(n / 10); }
  }
}
