/**
 * The canonical text is a JSON text (RFC 8259) of the canonical value: a grammar of such texts, and a reader of
 * string literals, written without the serializer.
 */
module JsonReading {
  import opened ConfigHash
  import opened JsText
  import opened JsonText
  import opened Numerals
  import opened Wrappers

  // ---- Reading string literals ----

  function DigitValue(c: CodeUnit): Option<nat> {
    if 0x30 <= c <= 0x39 then Some(c - 0x30)
    else if 0x61 <= c <= 0x66 then Some(c - 0x61 + 10)
    else if 0x41 <= c <= 0x46 then Some(c - 0x41 + 10)
    else None
  }

  /** The code unit that four hexadecimal digits name. */
  function FourDigits(t: Text): Option<CodeUnit>
    requires |t| >= 4
  {
    match (DigitValue(t[0]), DigitValue(t[1]), DigitValue(t[2]), DigitValue(t[3]))
    case (Some(a), Some(b), Some(c), Some(d)) =>
      var n := ((a * 16 + b) * 16 + c) * 16 + d;
      if n < 0x1_0000 then Some(n) else None
    case _ => None
  }

  /** What a two-character escape stands for. */
  function ShortEscape(c: CodeUnit): Option<CodeUnit> {
    if c == 0x22 || c == 0x5C || c == 0x2F then Some(c)
    else if c == 0x62 then Some(0x08)
    else if c == 0x66 then Some(0x0C)
    else if c == 0x6E then Some(0x0A)
    else if c == 0x72 then Some(0x0D)
    else if c == 0x74 then Some(0x09)
    else None
  }

  /** The first code unit of a string's body, and how many characters spell it. */
  function FirstUnit(t: Text): Option<(CodeUnit, nat)>
    requires t != []
  {
    if t[0] == 0x22 || t[0] < 0x20 then None
    else if t[0] != 0x5C then Some((t[0], 1))
    else if |t| >= 6 && t[1] == 0x75 then
      match FourDigits(t[2..]) { case Some(c) => Some((c, 6)) case None => None }
    else if |t| >= 2 then
      match ShortEscape(t[1]) { case Some(c) => Some((c, 2)) case None => None }
    else None
  }

  /** The string that the body of a literal stands for (section 7 of RFC 8259). */
  function ReadString(t: Text): Option<Text> {
    if t == [] then Some([])
    else
      match FirstUnit(t)
      case None => None
      case Some((c, n)) =>
        if n == 0 || n > |t| then None
        else match ReadString(t[n..]) { case Some(rest) => Some([c] + rest) case None => None }
  }

  lemma {:induction false} DigitRead(d: nat)
    requires d < 16
    ensures DigitValue(HexDigit(d)) == Some(d)
  {
  }

  lemma {:induction false} UnicodeRead(c: CodeUnit, rest: Text)
    ensures FirstUnit(UnicodeEscape(c) + rest) == Some((c, 6))
  {
    var c1 := c / 16;
    var c2 := c1 / 16;
    var whole := UnicodeEscape(c) + rest;
    var digits := whole[2..];
    DigitRead(c2 / 16);
    DigitRead(c2 % 16);
    DigitRead(c1 % 16);
    DigitRead(c % 16);
    assert whole[0] == 0x5C && whole[1] == 0x75;
    assert digits[0] == HexDigit(c2 / 16) && digits[1] == HexDigit(c2 % 16);
    assert digits[2] == HexDigit(c1 % 16) && digits[3] == HexDigit(c % 16);
    assert FourDigits(digits) == Some(c);
  }

  lemma {:induction false} UnitRead(c: CodeUnit, rest: Text)
    ensures FirstUnit(EscapeUnit(c) + rest) == Some((c, |EscapeUnit(c)|))
  {
    var whole := EscapeUnit(c) + rest;
    assert whole[0] == EscapeUnit(c)[0];
    if |EscapeUnit(c)| == 2 {
      assert whole[1] == EscapeUnit(c)[1];
    } else if |EscapeUnit(c)| == 6 {
      UnicodeRead(c, rest);
    }
  }

  lemma {:induction false} ReadOneUnit(unit: Text, c: CodeUnit, rest: Text, s: Text)
    requires unit != [] && FirstUnit(unit + rest) == Some((c, |unit|)) && ReadString(rest) == Some(s)
    ensures ReadString(unit + rest) == Some([c] + s)
  {
    assert (unit + rest)[|unit|..] == rest;
  }

  /** A surrogate pair, which is not escaped, is read unit by unit. */
  lemma {:induction false} PairRead(s: Text, rest: Text)
    requires |s| >= 2 && FirstUnit([s[0]] + ([s[1]] + rest)) == Some((s[0], 1))
    requires FirstUnit([s[1]] + rest) == Some((s[1], 1)) && ReadString(rest) == Some(s[2..])
    ensures ReadString([s[0]] + ([s[1]] + rest)) == Some(s)
  {
    ReadOneUnit([s[1]], s[1], rest, s[2..]);
    ReadOneUnit([s[0]], s[0], [s[1]] + rest, [s[1]] + s[2..]);
    assert s == [s[0]] + ([s[1]] + s[2..]);
  }

  /** Reading undoes escaping. */
  lemma {:induction false} ReadEscaped(s: Text)
    ensures ReadString(Escaped(s)) == Some(s)
    decreases |s|
  {
    if s != [] {
      var rest := Escaped(s[Lead(s)..]);
      ReadEscaped(s[Lead(s)..]);
      if Lead(s) == 2 {
        assert s[..2] + rest == [s[0]] + ([s[1]] + rest);
        PairRead(s, rest);
      } else {
        UnitRead(s[0], rest);
        ReadOneUnit(EscapeUnit(s[0]), s[0], rest, s[1..]);
        assert s == [s[0]] + s[1..];
      }
    }
  }

  // ---- The grammar of values ----

  ghost predicate IsString(t: Text, s: Text) {
    exists body :: t == [0x22] + body + [0x22] && ReadString(body) == Some(s)
  }

  /** `t` is a text of the value; what is not defined reads as the word for it. */
  ghost predicate IsText(t: Text, v: Value)
    decreases v, 1
  {
    match v
    case Undefined => t == [0x75, 0x6E, 0x64, 0x65, 0x66, 0x69, 0x6E, 0x65, 0x64]
    case Null => t == [0x6E, 0x75, 0x6C, 0x6C]
    case NonFinite => t == [0x6E, 0x75, 0x6C, 0x6C]
    case Bool(b) => t == if b then [0x74, 0x72, 0x75, 0x65] else [0x66, 0x61, 0x6C, 0x73, 0x65]
    case Number(numeral) => t == numeral
    case Str(s) => IsString(t, s)
    case Arr(items) => exists parts :: t == [0x5B] + Join(parts, 0x2C) + [0x5D] && AreTexts(parts, items)
    case Obj(fields) => exists parts :: t == [0x7B] + Join(parts, 0x2C) + [0x7D] && AreMembers(parts, fields)
  }

  ghost predicate AreTexts(parts: seq<Text>, items: seq<Value>)
    decreases items, 0
  {
    |parts| == |items| && forall i | 0 <= i < |items| :: IsText(parts[i], items[i])
  }

  ghost predicate AreMembers(parts: seq<Text>, fields: seq<Field>)
    decreases fields, 0
  {
    |parts| == |fields| && forall i | 0 <= i < |fields| :: IsMember(parts[i], fields[i])
  }

  /** A name, a colon and a value. */
  ghost predicate IsMember(t: Text, f: Field)
    decreases f, 2
  {
    exists name, value :: t == name + [0x3A] + value && IsString(name, f.key) && IsText(value, f.value)
  }

  lemma {:induction false} QuoteIsString(s: Text)
    ensures IsString(Quote(s), s)
  {
    ReadEscaped(s);
    assert Quote(s) == [0x22] + Escaped(s) + [0x22];
  }

  /** Every printed value is a text of that value. */
  lemma {:induction false} PrintIsText(v: Value)
    ensures IsText(Print(v), v)
    decreases v, 1
  {
    match v
    case Str(s) => QuoteIsString(s);
    case Arr(items) => ItemsAreTexts(items);
    case Obj(fields) => FieldsAreMembers(fields);
    case _ =>
  }

  lemma {:induction false} ItemsAreTexts(items: seq<Value>)
    ensures AreTexts(PrintItems(items), items)
    decreases items, 0
  {
    if items != [] {
      PrintIsText(items[0]);
      ItemsAreTexts(items[1..]);
      assert PrintItems(items) == [Print(items[0])] + PrintItems(items[1..]);
      assert items == [items[0]] + items[1..];
    }
  }

  lemma {:induction false} FieldsAreMembers(fields: seq<Field>)
    ensures AreMembers(PrintFields(fields), fields)
    decreases fields, 0
  {
    if fields != [] {
      FieldIsMember(fields[0]);
      FieldsAreMembers(fields[1..]);
      assert PrintFields(fields) == [PrintField(fields[0])] + PrintFields(fields[1..]);
      assert fields == [fields[0]] + fields[1..];
    }
  }

  lemma {:induction false} FieldIsMember(f: Field)
    ensures IsMember(PrintField(f), f)
    decreases f, 2
  {
    QuoteIsString(f.key);
    PrintIsText(f.value);
    assert PrintField(f) == Quote(f.key) + [0x3A] + Print(f.value);
  }

  /** The canonical text of a configuration is a text of its canonical value. */
  lemma {:induction false} StringifyIsText(v: Value)
    ensures IsText(Stringify(v), Canon(v))
  {
    StringifyIsPrintCanon(v);
    PrintIsText(Canon(v));
  }

  // ---- The canonical value ----

  /** In every object the keys are in increasing order, and numbers are finite. */
  ghost predicate IsCanonical(v: Value) {
    match v
    case NonFinite => false
    case Arr(items) => forall i | 0 <= i < |items| :: IsCanonical(items[i])
    case Obj(fields) => Increasing(Keys(fields)) && forall i | 0 <= i < |fields| :: IsCanonical(fields[i].value)
    case _ => true
  }

  lemma {:induction false} CanonIsCanonical(v: Value)
    requires WellFormed(v)
    ensures IsCanonical(Canon(v))
    decreases v, 1
  {
    match v
    case Arr(items) =>
      forall i | 0 <= i < |items| ensures IsCanonical(CanonItems(items)[i]) {
        CanonItemsAt(items, i);
        CanonIsCanonical(items[i]);
      }
    case Obj(fields) =>
      var keys := SortKeys(Keys(fields));
      var canon := CanonFields(fields, keys);
      SortKeysIncreasing(Keys(fields));
      assert Keys(canon) == keys;
      forall i | 0 <= i < |canon| ensures IsCanonical(canon[i].value) {
        CanonFieldsAt(fields, keys, i);
        var j :| 0 <= j < |fields| && fields[j] == Field(keys[i], Lookup(fields, keys[i]));
        CanonIsCanonical(fields[j].value);
      }
    case _ =>
  }

  /** The canonical value of a finite configuration is that configuration, up to the order of its keys. */
  lemma {:induction false} CanonSame(v: Value)
    requires WellFormed(v) && Finite(v)
    ensures Same(v, Canon(v))
    decreases v, 1
  {
    match v
    case Arr(items) =>
      forall i | 0 <= i < |items| ensures Same(items[i], CanonItems(items)[i]) {
        CanonItemsAt(items, i);
        CanonSame(items[i]);
      }
    case Obj(fields) =>
      CanonKeys(fields);
      forall i | 0 <= i < |fields|
        ensures var canon := CanonFields(fields, SortKeys(Keys(fields)));
                fields[i].key in Keys(canon) && Same(fields[i].value, Lookup(canon, fields[i].key))
      {
        CanonSame(fields[i].value);
        CanonLookup(fields, i);
      }
    case _ =>
  }

  lemma {:induction false} CanonKeys(fields: seq<Field>)
    ensures Keys(CanonFields(fields, SortKeys(Keys(fields)))) == SortKeys(Keys(fields))
  {
  }

  lemma {:induction false} CanonLookup(fields: seq<Field>, i: nat)
    requires Distinct(Keys(fields)) && i < |fields|
    ensures var canon := CanonFields(fields, SortKeys(Keys(fields)));
            fields[i].key in Keys(canon) && Lookup(canon, fields[i].key) == Canon(fields[i].value)
  {
    var keys := SortKeys(Keys(fields));
    var canon := CanonFields(fields, keys);
    CanonKeys(fields);
    SortKeysIncreasing(Keys(fields));
    IncreasingDistinct(keys);
    assert Keys(fields)[i] == fields[i].key;
    assert fields[i].key in keys;
    var j :| 0 <= j < |keys| && keys[j] == fields[i].key;
    CanonFieldsAt(fields, keys, j);
    LookupDistinct(fields, i);
    LookupDistinct(canon, j);
  }

  lemma {:induction false} IncreasingDistinct(keys: seq<Text>)
    requires Increasing(keys)
    ensures Distinct(keys)
  {
    forall i, j | 0 <= i < j < |keys| ensures keys[i] != keys[j] {
      LessTotal(keys[i], keys[j]);
    }
  }

  /**
   * The canonical text of a configuration is a JSON text of the same content with all keys in order: of the very
   * configuration if its numbers are finite, else of the one with null in place of the others.
   */
  lemma {:induction false} StringifyReads(v: Value)
    requires WellFormed(v)
    ensures exists w :: IsText(Stringify(v), w) && IsCanonical(w) && Same(Nulled(v), w) && (Finite(v) ==> Same(v, w))
  {
    StringifyIsText(v);
    CanonIsCanonical(v);
    NulledFinite(v);
    NulledCanon(v);
    CanonSame(Nulled(v));
    if Finite(v) {
      CanonSame(v);
    }
  }
}
