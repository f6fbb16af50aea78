/** The FNV-1a fingerprint of an output, with the signed 32-bit steps of the language spelled out. */
module FnvHash {
  import opened JsText
  import opened Numerals

  const OFFSET_BASIS: int := 0x811c9dc5
  const PRIME: int := 0x01000193

  /** Exclusive or of two natural numbers, bit by bit. */
  function XorBits(a: nat, b: nat): nat {
    if a == 0 && b == 0 then 0
    else (a + b) % 2 + 2 * XorBits(a / 2, b / 2)
  }

  function Xor32(a: int, b: int): int {
    ToInt32(XorBits(ToUint32(a), ToUint32(b)))
  }

  function Imul(a: int, b: int): int {
    ToInt32(a * b)
  }

  function Step(hash: int, c: CodeUnit): int {
    Imul(Xor32(hash, c), PRIME)
  }

  function Fold(hash: int, s: Text): int
    decreases s
  {
    if s == [] then hash else Fold(Step(hash, s[0]), s[1..])
  }

  function Fingerprint(s: Text): int {
    ToUint32(Fold(OFFSET_BASIS, s))
  }

  method Fnv1a32(input: Text) returns (hash: int)
    ensures hash == Fingerprint(input)
  {
    hash := OFFSET_BASIS;
    for i := 0 to |input|
      invariant Fold(hash, input[i..]) == Fold(OFFSET_BASIS, input)
    {
      assert input[i..][1..] == input[i + 1..];
      hash := Xor32(hash, input[i]);
      hash := Imul(hash, PRIME);
    }
    return ToUint32(hash);
  }

  lemma {:induction false} XorCancel(a: nat, b: nat)
    ensures XorBits(XorBits(a, b), b) == a
  {
    if a != 0 || b != 0 {
      XorCancel(a / 2, b / 2);
      var x := XorBits(a, b);
      assert x / 2 == XorBits(a / 2, b / 2) && x % 2 == (a + b) % 2;
      if x == 0 && b == 0 {
      } else {
        assert (x + b) % 2 == a % 2;
      }
    }
  }

  lemma {:induction false} XorCommutes(a: nat, b: nat)
    ensures XorBits(a, b) == XorBits(b, a)
  {
    if a != 0 || b != 0 {
      XorCommutes(a / 2, b / 2);
    }
  }

  lemma {:induction false} XorBound(a: nat, b: nat, bound: nat, bits: nat)
    requires bound == Pow2(bits) && a < bound && b < bound
    ensures XorBits(a, b) < bound
  {
    if bits > 0 && (a != 0 || b != 0) {
      XorBound(a / 2, b / 2, Pow2(bits - 1), bits - 1);
    }
  }

  lemma {:induction false} Pow2Of32()
    ensures Pow2(32) == TWO_32
  {
    assert Pow2(8) == 256;
    assert Pow2(16) == 65536 by { assert Pow2(12) == 4096; }
    assert Pow2(24) == 0x100_0000 by { assert Pow2(20) == 0x10_0000; }
    assert Pow2(28) == 0x1000_0000;
  }

  lemma {:induction false} XorResidueBound(u: nat, c: CodeUnit)
    requires u < TWO_32
    ensures XorBits(u, c) < TWO_32
  {
    Pow2Of32();
    XorBound(u, c, TWO_32, 32);
  }

  lemma {:induction false} SignedKeepsResidue(u: nat)
    requires u < TWO_32
    ensures ToUint32(ToInt32(u)) == u
  {
  }

  lemma {:induction false} Uint32OfUnit(c: CodeUnit)
    ensures ToUint32(c) == c
  {
  }

  /** Residues survive the signed exclusive or. */
  lemma {:induction false} Xor32Residue(h: int, c: CodeUnit)
    ensures ToUint32(Xor32(h, c)) == XorBits(ToUint32(h), c)
  {
    Uint32OfUnit(c);
    XorResidueBound(ToUint32(h), c);
    SignedKeepsResidue(XorBits(ToUint32(h), c));
  }

  /** The same step computed without sign, on residues only. */
  function UnsignedStep(u: nat, c: CodeUnit): nat {
    (XorBits(u, c) * 0x01000193) % 0x1_0000_0000
  }

  lemma {:induction false} ImulResidue(x: int, factor: int)
    ensures ToUint32(Imul(x, factor)) == ToUint32(ToUint32(x) * factor)
  {
    LinearResidue(x, factor, 0);
  }

  lemma {:induction false} StepResidue(h: int, c: CodeUnit)
    ensures ToUint32(Step(h, c)) == UnsignedStep(ToUint32(h), c)
  {
    var x := Xor32(h, c);
    Xor32Residue(h, c);
    ImulResidue(x, PRIME);
    assert Step(h, c) == Imul(x, PRIME);
  }

  /** Multiplying by the odd prime is injective on residues. */
  lemma {:induction false} MultiplyInjective(x: nat, y: nat)
    requires x < TWO_32 && y < TWO_32
    requires ToUint32(x * PRIME) == ToUint32(y * PRIME)
    ensures x == y
  {
    var d := x - y;
    var k := (x * 0x01000193) / TWO_32 - (y * 0x01000193) / TWO_32;
    assert d * 0x01000193 == 0x1_0000_0000 * k;
    // the inverse of the prime modulo 2^32 is 0x359c449b
    assert d == 0x1_0000_0000 * (k * 0x359c449b - d * 3513497);
  }

  /** For a fixed unit, one step is injective on the 32-bit states. */
  lemma {:induction false} StepInjectiveInState(u: nat, v: nat, c: CodeUnit)
    requires u < TWO_32 && v < TWO_32
    requires UnsignedStep(u, c) == UnsignedStep(v, c)
    ensures u == v
  {
    XorResidueBound(u, c);
    XorResidueBound(v, c);
    MultiplyInjective(XorBits(u, c), XorBits(v, c));
    XorCancel(u, c);
    XorCancel(v, c);
  }

  /** For a fixed state, one step is injective in the unit. */
  lemma {:induction false} StepInjectiveInUnit(u: nat, c: CodeUnit, d: CodeUnit)
    requires u < TWO_32
    requires UnsignedStep(u, c) == UnsignedStep(u, d)
    ensures c == d
  {
    XorResidueBound(u, c);
    XorResidueBound(u, d);
    MultiplyInjective(XorBits(u, c), XorBits(u, d));
    XorCommutes(u, c);
    XorCommutes(u, d);
    XorCancel(c, u);
    XorCancel(d, u);
  }

  predicate SameFingerprint(g: int, h: int) {
    ToUint32(g) == ToUint32(h)
  }

  lemma {:induction false} FoldInjective(g: int, h: int, s: Text)
    requires SameFingerprint(Fold(g, s), Fold(h, s))
    ensures SameFingerprint(g, h)
    decreases s
  {
    if s != [] {
      FoldInjective(Step(g, s[0]), Step(h, s[0]), s[1..]);
      StepResidue(g, s[0]);
      StepResidue(h, s[0]);
      StepInjectiveInState(ToUint32(g), ToUint32(h), s[0]);
    }
  }

  lemma {:induction false} FoldSplit(hash: int, s: Text, at: nat)
    requires at <= |s|
    ensures Fold(hash, s) == Fold(Fold(hash, s[..at]), s[at..])
    decreases at
  {
    if at > 0 {
      FoldSplit(Step(hash, s[0]), s[1..], at - 1);
      assert s[1..][..at - 1] == s[..at][1..];
      assert s[1..][at - 1..] == s[at..];
    } else {
      assert s[0..] == s;
    }
  }

  /** Changing a single code unit always changes the fingerprint. */
  lemma {:induction false} OneChangedUnitNeverCollides(s: Text, t: Text, at: nat)
    requires DifferOnlyAt(s, t, at)
    ensures Fingerprint(s) != Fingerprint(t)
  {
    if Fingerprint(s) == Fingerprint(t) {
      FoldSplit(OFFSET_BASIS, s, at);
      FoldSplit(OFFSET_BASIS, t, at);
      var h := Fold(OFFSET_BASIS, s[..at]);
      assert s[at..][1..] == s[at + 1..] && t[at..][1..] == t[at + 1..];
      FoldInjective(Step(h, s[at]), Step(h, t[at]), s[at + 1..]);
      StepResidue(h, s[at]);
      StepResidue(h, t[at]);
      StepInjectiveInUnit(ToUint32(h), s[at], t[at]);
      assert false;
    }
  }

  /** The published offset basis is the fingerprint of nothing. */
  lemma {:induction false} FingerprintOfNothing(s: Text)
    requires s == []
    ensures Fingerprint(s) == 0x811c9dc5
  {
  }

  /** Each unit is combined with the fingerprint so far, which is then multiplied by the published prime. */
  lemma {:induction false} FingerprintByUnits(s: Text, c: CodeUnit)
    ensures Fingerprint(s + [c]) == UnsignedStep(Fingerprint(s), c)
  {
    FoldResidue(OFFSET_BASIS, s, c);
  }

  lemma {:induction false} FoldResidue(hash: int, s: Text, c: CodeUnit)
    ensures ToUint32(Fold(hash, s + [c])) == UnsignedStep(ToUint32(Fold(hash, s)), c)
  {
    FoldAppend(hash, s, c);
    StepResidue(Fold(hash, s), c);
  }

  lemma {:induction false} FoldAppend(hash: int, s: Text, c: CodeUnit)
    ensures Fold(hash, s + [c]) == Step(Fold(hash, s), c)
    decreases s
  {
    if s == [] {
      assert s + [c] == [c] && [c][1..] == [];
    } else {
      assert (s + [c])[1..] == s[1..] + [c];
      FoldAppend(Step(hash, s[0]), s[1..], c);
    }
  }
}
