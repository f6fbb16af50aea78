/**
 * String literals as the serializer writes them (section 7 of RFC 8259), with lone
 * surrogates escaped, and the code-unit order in which object keys are sorted.
 */
module JsonText {
  import opened JsText
  import opened Numerals

  const QUOTE: CodeUnit := 0x22
  const BACKSLASH: CodeUnit := 0x5C

  predicate IsHighSurrogate(c: CodeUnit) { 0xD800 <= c < 0xDC00 }
  predicate IsLowSurrogate(c: CodeUnit) { 0xDC00 <= c < 0xE000 }

  /** How many units the first character of `s` takes: two for a surrogate pair. */
  function Lead(s: Text): nat
    requires s != []
  {
    if |s| > 1 && IsHighSurrogate(s[0]) && IsLowSurrogate(s[1]) then 2 else 1
  }

  function UnicodeEscape(c: CodeUnit): Text {
    var c1 := c / 16;
    var c2 := c1 / 16;
    [BACKSLASH, 0x75, HexDigit(c2 / 16), HexDigit(c2 % 16), HexDigit(c1 % 16), HexDigit(c % 16)]
  }

  function EscapeUnit(c: CodeUnit): Text {
    if c == QUOTE || c == BACKSLASH then [BACKSLASH, c]
    else if c == 0x08 then [BACKSLASH, 0x62]
    else if c == 0x09 then [BACKSLASH, 0x74]
    else if c == 0x0A then [BACKSLASH, 0x6E]
    else if c == 0x0C then [BACKSLASH, 0x66]
    else if c == 0x0D then [BACKSLASH, 0x72]
    else if c < 0x20 || IsHighSurrogate(c) || IsLowSurrogate(c) then UnicodeEscape(c)
    else [c]
  }

  /** What the first character of `s` is written as. */
  function Block(s: Text): Text
    requires s != []
  {
    if Lead(s) == 2 then s[..2] else EscapeUnit(s[0])
  }

  function Escaped(s: Text): Text {
    if s == [] then [] else Block(s) + Escaped(s[Lead(s)..])
  }

  function Quote(s: Text): Text {
    [QUOTE] + Escaped(s) + [QUOTE]
  }

  lemma {:induction false} UnicodeEscapeInjective(c: CodeUnit, d: CodeUnit)
    requires UnicodeEscape(c) == UnicodeEscape(d)
    ensures c == d
  {
    var u, v := UnicodeEscape(c), UnicodeEscape(d);
    assert u[2] == v[2] && u[3] == v[3] && u[4] == v[4] && u[5] == v[5];
  }

  /** An escape tells its length by its second unit, so equal beginnings mean equal units. */
  lemma {:induction false} EscapeUnitPrefixFree(c: CodeUnit, d: CodeUnit, x: Text, y: Text)
    requires EscapeUnit(c) + x == EscapeUnit(d) + y
    ensures c == d
  {
    var u, v := EscapeUnit(c), EscapeUnit(d);
    assert u[0] == (u + x)[0] == (v + y)[0] == v[0];
    if u[0] == BACKSLASH {
      assert u[1] == (u + x)[1] == (v + y)[1] == v[1];
      if u[1] == 0x75 {
        assert u == (u + x)[..6] == (v + y)[..6] == v;
        UnicodeEscapeInjective(c, d);
      }
    }
  }

  lemma {:induction false} BlockPrefixFree(s: Text, t: Text, x: Text, y: Text)
    requires s != [] && t != [] && Block(s) + x == Block(t) + y
    ensures Lead(s) == Lead(t) && s[..Lead(s)] == t[..Lead(t)] && x == y
  {
    var u, v := Block(s), Block(t);
    assert u[0] == (u + x)[0] == (v + y)[0] == v[0];
    if Lead(s) == 2 && Lead(t) == 2 {
      assert s[..2] == (u + x)[..2] == (v + y)[..2] == t[..2];
    } else if Lead(s) == 1 && Lead(t) == 1 {
      EscapeUnitPrefixFree(s[0], t[0], x, y);
    }
    assert u == v;
    assert x == (u + x)[|u|..] == (v + y)[|v|..] == y;
  }

  lemma {:induction false} EscapedHead(s: Text, u: Text)
    requires u != []
    ensures (Escaped(s) + u)[0] == if s == [] then u[0] else Block(s)[0]
    ensures s != [] ==> Escaped(s) + u == Block(s) + (Escaped(s[Lead(s)..]) + u)
  {
  }

  /** A quoted string ends at its closing quote, so it can be read back whatever follows. */
  lemma {:induction false} EscapedCancel(s: Text, t: Text, u: Text, v: Text)
    requires u != [] && v != [] && u[0] == v[0] == QUOTE
    requires Escaped(s) + u == Escaped(t) + v
    ensures s == t && u == v
    decreases |s| + |t|
  {
    EscapedHead(s, u);
    EscapedHead(t, v);
    if s == [] && t == [] {
      assert Escaped(s) + u == u && Escaped(t) + v == v;
    } else if s != [] && t != [] {
      EscapedStep(s, t, u, v);
      EscapedCancel(s[Lead(s)..], t[Lead(t)..], u, v);
    }
  }

  lemma {:induction false} EscapedStep(s: Text, t: Text, u: Text, v: Text)
    requires s != [] && t != [] && u != [] && v != [] && Escaped(s) + u == Escaped(t) + v
    ensures Escaped(s[Lead(s)..]) + u == Escaped(t[Lead(t)..]) + v
    ensures s[Lead(s)..] == t[Lead(t)..] ==> s == t
  {
    EscapedHead(s, u);
    EscapedHead(t, v);
    BlockPrefixFree(s, t, Escaped(s[Lead(s)..]) + u, Escaped(t[Lead(t)..]) + v);
    assert s == s[..Lead(s)] + s[Lead(s)..] && t == t[..Lead(t)] + t[Lead(t)..];
  }

  lemma {:induction false} QuoteCancel(s: Text, t: Text, x: Text, y: Text)
    requires Quote(s) + x == Quote(t) + y
    ensures s == t && x == y
  {
    var u, v := [QUOTE] + x, [QUOTE] + y;
    assert Quote(s) + x == [QUOTE] + (Escaped(s) + u);
    assert Quote(t) + y == [QUOTE] + (Escaped(t) + v);
    assert Escaped(s) + u == ([QUOTE] + (Escaped(s) + u))[1..];
    assert Escaped(t) + v == ([QUOTE] + (Escaped(t) + v))[1..];
    EscapedCancel(s, t, u, v);
    assert x == u[1..] && y == v[1..];
  }

  /** The default order of `Array.prototype.sort`: by code units, a proper prefix first. */
  predicate Less(s: Text, t: Text) {
    if t == [] then false
    else if s == [] then true
    else s[0] < t[0] || (s[0] == t[0] && Less(s[1..], t[1..]))
  }

  lemma {:induction false} LessTotal(s: Text, t: Text)
    ensures Less(s, t) || s == t || Less(t, s)
    ensures !(Less(s, t) && Less(t, s)) && !(Less(s, t) && s == t)
  {
    if s != [] && t != [] {
      LessTotal(s[1..], t[1..]);
      assert s == [s[0]] + s[1..] && t == [t[0]] + t[1..];
    }
  }

  lemma {:induction false} LessTransitive(s: Text, t: Text, u: Text)
    requires Less(s, t) && Less(t, u)
    ensures Less(s, u)
  {
    if s != [] && s[0] == t[0] == u[0] {
      LessTransitive(s[1..], t[1..], u[1..]);
    }
  }

  ghost predicate Increasing(keys: seq<Text>) {
    forall i, j | 0 <= i < j < |keys| :: Less(keys[i], keys[j])
  }

  ghost predicate Distinct(keys: seq<Text>) {
    forall i, j | 0 <= i < j < |keys| :: keys[i] != keys[j]
  }

  function InsertKey(key: Text, keys: seq<Text>): (r: seq<Text>)
    ensures multiset(r) == multiset(keys) + multiset{key}
    ensures forall k :: k in r <==> k == key || k in keys
  {
    if keys == [] then [key]
    else if Less(keys[0], key) then
      assert keys == [keys[0]] + keys[1..];
      [keys[0]] + InsertKey(key, keys[1..])
    else [key] + keys
  }

  function SortKeys(keys: seq<Text>): (r: seq<Text>)
    ensures multiset(r) == multiset(keys)
    ensures forall k :: k in r <==> k in keys
  {
    if keys == [] then []
    else
      assert keys == [keys[0]] + keys[1..];
      InsertKey(keys[0], SortKeys(keys[1..]))
  }

  lemma {:induction false} InsertKeyIncreasing(key: Text, keys: seq<Text>)
    requires Increasing(keys) && key !in keys
    ensures Increasing(InsertKey(key, keys))
  {
    if keys != [] {
      LessTotal(keys[0], key);
      if Less(keys[0], key) {
        InsertKeyIncreasing(key, keys[1..]);
        var rest := InsertKey(key, keys[1..]);
        forall k | k in rest ensures Less(keys[0], k) {
          if k != key {
            var i :| 0 <= i < |keys[1..]| && keys[1..][i] == k;
            assert keys[i + 1] == k;
          }
        }
      } else {
        forall k | k in keys ensures Less(key, k) {
          var i :| 0 <= i < |keys| && keys[i] == k;
          if i > 0 {
            LessTransitive(key, keys[0], keys[i]);
          }
        }
      }
    }
  }

  lemma {:induction false} SortKeysIncreasing(keys: seq<Text>)
    requires Distinct(keys)
    ensures Increasing(SortKeys(keys))
  {
    if keys != [] {
      SortKeysIncreasing(keys[1..]);
      InsertKeyIncreasing(keys[0], SortKeys(keys[1..]));
    }
  }

  /** Sorting forgets the order of insertion: there is one increasing list of a set of keys. */
  lemma {:induction false} IncreasingUnique(xs: seq<Text>, ys: seq<Text>)
    requires Increasing(xs) && Increasing(ys)
    requires forall k :: k in xs <==> k in ys
    ensures xs == ys
  {
    assert |ys| > 0 ==> ys[0] in xs;
    if xs != [] {
      assert xs[0] in ys;
      assert ys[0] in xs;
      var i :| 0 <= i < |ys| && ys[i] == xs[0];
      var j :| 0 <= j < |xs| && xs[j] == ys[0];
      LessTotal(xs[0], ys[0]);
      assert xs[0] == ys[0];
      TailMembers(xs, ys);
      TailMembers(ys, xs);
      IncreasingUnique(xs[1..], ys[1..]);
    }
  }

  lemma {:induction false} TailMembers(xs: seq<Text>, ys: seq<Text>)
    requires Increasing(xs) && xs != [] && ys != [] && xs[0] == ys[0]
    requires forall k :: k in xs ==> k in ys
    ensures forall k :: k in xs[1..] ==> k in ys[1..]
  {
    forall k | k in xs[1..] ensures k in ys[1..] {
      var i :| 0 <= i < |xs[1..]| && xs[1..][i] == k;
      LessTotal(xs[0], xs[i + 1]);
      assert xs[i + 1] == k && k in ys;
      var j :| 0 <= j < |ys| && ys[j] == k;
      assert ys[1..][j - 1] == k;
    }
  }
}
