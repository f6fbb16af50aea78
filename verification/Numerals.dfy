/** Decimal numerals, as template strings print natural numbers, and small arithmetic that several modules use. */
module Numerals {
  import opened JsText

  function Min(a: int, b: int): int {
    if a < b then a else b
  }

  lemma {:induction false} LessFactor(d: int, a: int, b: int)
    requires d >= 1 && d * a < d * b
    ensures a < b
  {
    assert d * (b - a) == d * b - d * a;
  }

  lemma {:induction false} TimesMonotone(x: int, y: int, b: nat)
    requires x <= y
    ensures x * b <= y * b
  {
  }

  /** The quotient is the last factor whose product does not exceed `x`. */
  lemma {:induction false} QuotientBounds(x: int, d: int)
    requires d >= 1
    ensures d * (x / d) <= x < d * (x / d + 1)
  {
    assert x == d * (x / d) + x % d;
    assert d * (x / d + 1) == d * (x / d) + d;
  }

  function Pow2(n: nat): nat {
    if n == 0 then 1 else 2 * Pow2(n - 1)
  }

  /** The lower-case hexadecimal digit. */
  function HexDigit(d: nat): CodeUnit
    requires d < 16
  {
    if d < 10 then 48 + d else 87 + d
  }

  function Decimal(n: nat): (t: Text)
  {
    if n < 10 then [48 + n] else Decimal(n / 10) + [48 + n % 10]
  }

  lemma {:induction false} DecimalHasDigits(n: nat)
    ensures forall i | 0 <= i < |Decimal(n)| :: 48 <= Decimal(n)[i] <= 57
    ensures |Decimal(n)| == 1 <==> n < 10
  {
    if n >= 10 {
      DecimalHasDigits(n / 10);
    }
  }

  lemma {:induction false} DecimalInjective(m: nat, n: nat)
    requires Decimal(m) == Decimal(n)
    ensures m == n
  {
    DecimalHasDigits(m);
    DecimalHasDigits(n);
    if m >= 10 {
      var s := Decimal(m);
      assert s[..|s| - 1] == Decimal(m / 10) == Decimal(n / 10);
      assert s[|s| - 1] == 48 + m % 10 == 48 + n % 10;
      DecimalInjective(m / 10, n / 10);
    }
  }

  /** The number that decimal digits spell. */
  function ReadDecimal(t: Text): int {
    if t == [] then 0 else 10 * ReadDecimal(t[..|t| - 1]) + (t[|t| - 1] as int - 0x30)
  }

  lemma {:induction false} ReadsDecimal(n: nat)
    ensures ReadDecimal(Decimal(n)) == n
  {
    if n < 10 {
      assert [48 + n][..0] == [];
    } else {
      ReadsDecimal(n / 10);
      assert Decimal(n)[..|Decimal(n)| - 1] == Decimal(n / 10);
    }
  }
}
