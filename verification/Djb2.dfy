/** The DJB2 hash of a serialized configuration and its printed form. */
module Djb2 {
  import opened JsText
  import opened Numerals

  const SEED: int := 5381

  function Pow33(n: nat): nat {
    if n == 0 then 1 else 33 * Pow33(n - 1)
  }

  /** The sum of s[i] * 33^(|s|-1-i). */
  function Weighted(s: Text): nat {
    if s == [] then 0 else s[0] * Pow33(|s| - 1) + Weighted(s[1..])
  }

  /** The polynomial the hash is meant to compute, without any wrap-around. */
  function Polynomial(s: Text): nat {
    SEED * Pow33(|s|) + Weighted(s)
  }

  /** The lower-case hexadecimal numeral of a natural number, without leading zeros. */
  function Hex(n: nat): Text {
    if n < 16 then [HexDigit(n)] else Hex(n / 16) + [HexDigit(n % 16)]
  }

  /** The hash string: the polynomial modulo 2^32, printed in hexadecimal. */
  function Hash(s: Text): Text {
    Hex(ToUint32(Polynomial(s)))
  }

  method Djb2Hash(str: Text) returns (text: Text)
    ensures text == Hash(str)
  {
    var hash := SEED;
    for i := 0 to |str|
      invariant ToUint32(hash) == ToUint32(Polynomial(str[..i]))
    {
      ghost var before := hash;
      hash := ToInt32(ToInt32(hash * 32) + hash + str[i]);
      ShiftAddStep(before, str[i]);
      PolynomialAppend(str[..i], str[i]);
      LinearResidue(before, 33, str[i]);
      LinearResidue(Polynomial(str[..i]), 33, str[i]);
      assert str[..i] + [str[i]] == str[..i + 1];
    }
    assert str[..|str|] == str;
    text := Hex(ToUint32(hash));
  }

  /** Shifting left by five and adding is multiplication by 33 on residues, signs notwithstanding. */
  lemma {:induction false} ShiftAddStep(hash: int, c: CodeUnit)
    ensures ToUint32(ToInt32(ToInt32(hash * 32) + hash + c)) == ToUint32(33 * hash + c)
  {
    var shifted := ToInt32(hash * 32);
    var k := (hash * 32) / TWO_32;
    assert shifted == hash * 32 - TWO_32 * k || shifted == hash * 32 - TWO_32 * (k + 1);
    AddMultiple(shifted + hash + c, k);
    AddMultiple(shifted + hash + c, k + 1);
  }

  lemma {:induction false} WeightedAppend(s: Text, c: CodeUnit)
    ensures Weighted(s + [c]) == 33 * Weighted(s) + c
  {
    if s == [] {
      assert Pow33(0) == 1;
    } else {
      WeightedAppend(s[1..], c);
      assert (s + [c])[1..] == s[1..] + [c];
    }
  }

  lemma {:induction false} PolynomialAppend(s: Text, c: CodeUnit)
    ensures Polynomial(s + [c]) == 33 * Polynomial(s) + c
  {
    WeightedAppend(s, c);
  }

  /** A power of 33 has an inverse modulo 2^32. */
  lemma {:induction false} PowerCancels(x: int, n: nat)
    requires ToUint32(x * Pow33(n)) == 0
    ensures ToUint32(x) == 0
  {
    if n > 0 {
      var y := x * Pow33(n - 1);
      assert x * Pow33(n) == 33 * y;
      var k := (33 * y) / 0x1_0000_0000;
      // 33 * 0x3e0f83e1 == 1 + 8 * 2^32
      assert y == 0x1_0000_0000 * (k * 0x3e0f83e1 - 8 * y);
      PowerCancels(x, n - 1);
    }
  }

  lemma {:induction false} WeightedOneChange(s: Text, t: Text, at: nat)
    requires DifferOnlyAt(s, t, at)
    ensures Weighted(s) - Weighted(t) == (s[at] as int - t[at] as int) * Pow33(|s| - at - 1)
    decreases at
  {
    if at == 0 {
      assert s[1..] == t[1..];
    } else {
      assert s[0] == s[..at][0] == t[..at][0] == t[0];
      assert s[1..][..at - 1] == s[..at][1..] == t[..at][1..] == t[1..][..at - 1];
      assert s[1..][at..] == s[at + 1..] && t[1..][at..] == t[at + 1..];
      WeightedOneChange(s[1..], t[1..], at - 1);
    }
  }

  lemma {:induction false} HexInjective(m: nat, n: nat)
    requires Hex(m) == Hex(n)
    ensures m == n
  {
    HexLength(m);
    HexLength(n);
    assert Hex(m)[|Hex(m)| - 1] == HexDigit(m % 16) && Hex(n)[|Hex(n)| - 1] == HexDigit(n % 16);
    if m >= 16 {
      assert Hex(m / 16) == Hex(m)[..|Hex(m)| - 1] && Hex(n / 16) == Hex(n)[..|Hex(n)| - 1];
      HexInjective(m / 16, n / 16);
    }
  }

  lemma {:induction false} HexLength(n: nat)
    ensures |Hex(n)| >= 1 && (|Hex(n)| == 1 <==> n < 16)
  {
    if n >= 16 {
      HexLength(n / 16);
    }
  }

  /** Two numbers less than 2^16 apart, scaled by a power of 33, never meet modulo 2^32 unless equal. */
  lemma {:induction false} ScaledDifference(p: int, q: int, difference: int, n: nat)
    requires ToUint32(p) == ToUint32(q) && p - q == difference * Pow33(n)
    requires -TWO_32 < difference < TWO_32
    ensures difference == 0
  {
    assert p - q == 0x1_0000_0000 * (p / 0x1_0000_0000 - q / 0x1_0000_0000);
    PowerCancels(difference, n);
  }

  /** Changing a single code unit always changes the hash string. */
  lemma {:induction false} OneChangedUnitNeverCollides(s: Text, t: Text, at: nat)
    requires DifferOnlyAt(s, t, at)
    ensures Hash(s) != Hash(t)
  {
    if Hash(s) == Hash(t) {
      HexInjective(ToUint32(Polynomial(s)), ToUint32(Polynomial(t)));
      WeightedOneChange(s, t, at);
      ScaledDifference(Polynomial(s), Polynomial(t), s[at] as int - t[at] as int, |s| - at - 1);
      assert false;
    }
  }

  /** The number that lower-case hexadecimal digits spell. */
  function ReadHex(t: Text): int {
    if t == [] then 0
    else
      var c := t[|t| - 1];
      16 * ReadHex(t[..|t| - 1]) + if c <= 0x39 then c as int - 0x30 else c as int - 0x61 + 10
  }

  lemma {:induction false} ReadsHex(n: nat)
    ensures ReadHex(Hex(n)) == n
  {
    if n < 16 {
      assert [HexDigit(n)][..0] == [];
    } else {
      ReadsHex(n / 16);
      assert Hex(n)[..|Hex(n)| - 1] == Hex(n / 16);
    }
  }

  lemma {:induction false} HexOnce(n: nat, front: Text)
    requires n >= 16 && Hex(n / 16) == front
    ensures Hex(n) == front + [HexDigit(n % 16)]
  {
  }

  /** The hash of the empty string is 1505, and that of "a" is 2b606. */
  lemma {:induction false} KnownHashes()
    ensures Hash([]) == [0x31, 0x35, 0x30, 0x35]
    ensures Hash([0x61]) == [0x32, 0x62, 0x36, 0x30, 0x36]
  {
    HexOnce(21, [0x31]);
    HexOnce(336, [0x31, 0x35]);
    HexOnce(5381, [0x31, 0x35, 0x30]);
    PolynomialAppend([], 0x61);
    assert [] + [0x61] == [0x61];
    HexOnce(43, [0x32]);
    HexOnce(694, [0x32, 0x62]);
    HexOnce(11104, [0x32, 0x62, 0x36]);
    HexOnce(177670, [0x32, 0x62, 0x36, 0x30]);
  }
}
