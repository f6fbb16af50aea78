/** Strings as sequences of UTF-16 code units, and the 32-bit integer conversions of the language. */
module JsText {

  type CodeUnit = c: int | 0 <= c < 0x1_0000

  type Text = seq<CodeUnit>

  /** White space and line terminators, as `trim` and `trimStart` remove them. */
  predicate IsWhitespace(c: CodeUnit) {
    || 9 <= c <= 13 || c == 0x20 || c == 0xA0 || c == 0x1680 || 0x2000 <= c <= 0x200A
    || c == 0x2028 || c == 0x2029 || c == 0x202F || c == 0x205F || c == 0x3000 || c == 0xFEFF
  }

  predicate AllWhitespace(s: Text) {
    forall i | 0 <= i < |s| :: IsWhitespace(s[i])
  }

  function Join(parts: seq<Text>, separator: CodeUnit): Text {
    if parts == [] then []
    else if |parts| == 1 then parts[0]
    else parts[0] + [separator] + Join(parts[1..], separator)
  }

  lemma {:induction false} JoinCons(t: Text, rest: seq<Text>, separator: CodeUnit)
    ensures Join([t] + rest, separator) == if rest == [] then t else t + [separator] + Join(rest, separator)
  {
    assert ([t] + rest)[1..] == rest;
  }

  /** An index argument of `slice`: negative ones count from the end, all are clamped. */
  function SliceIndex(length: nat, i: int): (r: nat)
    ensures r <= length
    ensures 0 <= i <= length ==> r == i
  {
    if i < 0 then (if length + i < 0 then 0 else length + i) else if i > length then length else i
  }

  function Slice(s: Text, from: int, to: int): Text {
    var a, b := SliceIndex(|s|, from), SliceIndex(|s|, to);
    if a <= b then s[a..b] else []
  }

  const TWO_32: int := 0x1_0000_0000

  /** The `>>> 0` conversion: the residue in 0..2^32-1. */
  function ToUint32(x: int): int {
    x % TWO_32
  }

  /** The `| 0` conversion: the residue in -2^31..2^31-1. */
  function ToInt32(x: int): int {
    var u := ToUint32(x);
    if u < 0x8000_0000 then u else u - TWO_32
  }

  /** An additive step on residues only depends on the residue of the state. */
  lemma {:induction false} LinearResidue(x: int, factor: int, addend: int)
    ensures ToUint32(ToUint32(x) * factor + addend) == ToUint32(x * factor + addend)
  {
    var q := x / TWO_32;
    assert x * factor + addend == ToUint32(x) * factor + addend + TWO_32 * (q * factor) by {
      assert x == TWO_32 * q + ToUint32(x);
      assert x * factor == (TWO_32 * q) * factor + ToUint32(x) * factor;
      assert (TWO_32 * q) * factor == TWO_32 * (q * factor);
    }
    AddMultiple(ToUint32(x) * factor + addend, q * factor);
  }

  lemma {:induction false} AddMultiple(x: int, k: int)
    ensures ToUint32(x + TWO_32 * k) == ToUint32(x)
  {
  }

  /**
   * Two strings that agree everywhere except at position `at`, where they differ.
   */
  ghost predicate DifferOnlyAt(s: Text, t: Text, at: nat) {
    && |s| == |t|
    && at < |s|
    && s[at] != t[at]
    && s[..at] == t[..at]
    && s[at + 1..] == t[at + 1..]
  }
}
