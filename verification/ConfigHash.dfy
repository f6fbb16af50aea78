/** Canonical serialization of configuration values, and the cache-key hash built on it. */
module ConfigHash {
  import opened JsText
  import opened JsonText
  import Djb2

  /** Code units that may occur in the printed form of a finite number. */
  predicate IsNumeralUnit(c: CodeUnit) {
    0x30 <= c <= 0x39 || c == 0x2D || c == 0x2B || c == 0x2E || c == 0x65
  }

  predicate IsNumeral(t: Text) {
    && t != []
    && (0x30 <= t[0] <= 0x39 || t[0] == 0x2D)
    && forall i | 0 <= i < |t| :: IsNumeralUnit(t[i])
  }

  type Numeral = t: Text | IsNumeral(t) witness [0x30]

  /**
   * A configuration value. A finite number is the numeral the language prints for it;
   * the fields of an object are listed in the order in which they were inserted.
   */
  datatype Value =
    | Undefined
    | Null
    | Bool(b: bool)
    | Number(numeral: Numeral)
    | NonFinite
    | Str(s: Text)
    | Arr(items: seq<Value>)
    | Obj(fields: seq<Field>)

  datatype Field = Field(key: Text, value: Value)

  const UNDEFINED: Text := [0x75, 0x6E, 0x64, 0x65, 0x66, 0x69, 0x6E, 0x65, 0x64]
  const NULL: Text := [0x6E, 0x75, 0x6C, 0x6C]
  const TRUE: Text := [0x74, 0x72, 0x75, 0x65]
  const FALSE: Text := [0x66, 0x61, 0x6C, 0x73, 0x65]
  const COMMA: CodeUnit := 0x2C
  const COLON: CodeUnit := 0x3A
  const OPEN_BRACKET: CodeUnit := 0x5B
  const CLOSE_BRACKET: CodeUnit := 0x5D
  const OPEN_BRACE: CodeUnit := 0x7B
  const CLOSE_BRACE: CodeUnit := 0x7D

  function Keys(fields: seq<Field>): seq<Text> {
    seq(|fields|, i requires 0 <= i < |fields| => fields[i].key)
  }

  /** Property access: the value stored under `key`. */
  function Lookup(fields: seq<Field>, key: Text): (v: Value)
    requires key in Keys(fields)
    ensures exists i :: 0 <= i < |fields| && fields[i] == Field(key, v)
  {
    if fields[0].key == key then
      assert fields[0] == Field(key, fields[0].value);
      fields[0].value
    else
      assert Keys(fields) == [fields[0].key] + Keys(fields[1..]);
      var v := Lookup(fields[1..], key);
      var i :| 0 <= i < |fields[1..]| && fields[1..][i] == Field(key, v);
      assert fields[i + 1] == Field(key, v);
      v
  }

  /** The serializer: object keys are sorted at every level. */
  function Stringify(v: Value): Text
    decreases v, 1
  {
    match v
    case Undefined => UNDEFINED
    case Null => NULL
    case Bool(b) => if b then TRUE else FALSE
    case Number(numeral) => numeral
    case NonFinite => NULL
    case Str(s) => Quote(s)
    case Arr(items) => [OPEN_BRACKET] + Join(StringifyItems(items), COMMA) + [CLOSE_BRACKET]
    case Obj(fields) => [OPEN_BRACE] + Join(StringifyPairs(fields, SortKeys(Keys(fields))), COMMA) + [CLOSE_BRACE]
  }

  function StringifyItems(items: seq<Value>): seq<Text>
    decreases items, 0
  {
    if items == [] then [] else [Stringify(items[0])] + StringifyItems(items[1..])
  }

  function StringifyPairs(fields: seq<Field>, keys: seq<Text>): seq<Text>
    requires forall k | k in keys :: k in Keys(fields)
    decreases fields, |keys|
  {
    if keys == [] then []
    else
      var pair := Quote(keys[0]) + [COLON] + Stringify(Lookup(fields, keys[0]));
      [pair] + StringifyPairs(fields, keys[1..])
  }

  /** The cache key of a configuration. */
  method HashConfig(config: Value) returns (hash: Text)
    ensures hash == Djb2.Hash(Stringify(config))
  {
    hash := Djb2.Djb2Hash(Stringify(config));
  }

  /** Every object in `v` has distinct keys. */
  ghost predicate WellFormed(v: Value) {
    match v
    case Arr(items) => forall i | 0 <= i < |items| :: WellFormed(items[i])
    case Obj(fields) =>
      Distinct(Keys(fields)) && forall i | 0 <= i < |fields| :: WellFormed(fields[i].value)
    case _ => true
  }

  /** Every number in `v` is finite. */
  ghost predicate Finite(v: Value) {
    match v
    case NonFinite => false
    case Arr(items) => forall i | 0 <= i < |items| :: Finite(items[i])
    case Obj(fields) => forall i | 0 <= i < |fields| :: Finite(fields[i].value)
    case _ => true
  }

  /** Equality of configurations up to the order of object keys at every level. */
  ghost predicate Same(v: Value, w: Value) {
    match v
    case Arr(items) =>
      w.Arr? && |items| == |w.items| && forall i | 0 <= i < |items| :: Same(items[i], w.items[i])
    case Obj(fields) =>
      && w.Obj?
      && (forall k :: k in Keys(fields) <==> k in Keys(w.fields))
      && (forall i | 0 <= i < |fields| ::
            fields[i].key in Keys(w.fields) && Same(fields[i].value, Lookup(w.fields, fields[i].key)))
    case _ => v == w
  }

  // ---- The canonical value: what the serializer prints, field by field ----

  /** `v` with its keys sorted and its non-finite numbers replaced by null. */
  function Canon(v: Value): Value
    decreases v, 1
  {
    match v
    case NonFinite => Null
    case Arr(items) => Arr(CanonItems(items))
    case Obj(fields) => Obj(CanonFields(fields, SortKeys(Keys(fields))))
    case _ => v
  }

  function CanonItems(items: seq<Value>): (r: seq<Value>)
    ensures |r| == |items|
    decreases items, 0
  {
    if items == [] then [] else [Canon(items[0])] + CanonItems(items[1..])
  }

  function CanonFields(fields: seq<Field>, keys: seq<Text>): (r: seq<Field>)
    requires forall k | k in keys :: k in Keys(fields)
    ensures |r| == |keys| && forall i | 0 <= i < |r| :: r[i].key == keys[i]
    decreases fields, |keys|
  {
    if keys == [] then []
    else [Field(keys[0], Canon(Lookup(fields, keys[0])))] + CanonFields(fields, keys[1..])
  }

  /** Printing in the order given, without sorting. */
  function Print(v: Value): Text
    decreases v, 1
  {
    match v
    case Undefined => UNDEFINED
    case Null => NULL
    case Bool(b) => if b then TRUE else FALSE
    case Number(numeral) => numeral
    case NonFinite => NULL
    case Str(s) => Quote(s)
    case Arr(items) => [OPEN_BRACKET] + Join(PrintItems(items), COMMA) + [CLOSE_BRACKET]
    case Obj(fields) => [OPEN_BRACE] + Join(PrintFields(fields), COMMA) + [CLOSE_BRACE]
  }

  function PrintItems(items: seq<Value>): (r: seq<Text>)
    ensures |r| == |items|
    decreases items, 0
  {
    if items == [] then [] else [Print(items[0])] + PrintItems(items[1..])
  }

  function PrintField(f: Field): Text
    decreases f, 2
  {
    Quote(f.key) + [COLON] + Print(f.value)
  }

  function PrintFields(fields: seq<Field>): (r: seq<Text>)
    ensures |r| == |fields|
    decreases fields, 0
  {
    if fields == [] then [] else [PrintField(fields[0])] + PrintFields(fields[1..])
  }

  lemma {:induction false} StringifyIsPrintCanon(v: Value)
    ensures Stringify(v) == Print(Canon(v))
    decreases v, 1
  {
    match v
    case Arr(items) => ItemsArePrintCanon(items);
    case Obj(fields) => PairsArePrintCanon(fields, SortKeys(Keys(fields)));
    case _ =>
  }

  lemma {:induction false} ItemsArePrintCanon(items: seq<Value>)
    ensures StringifyItems(items) == PrintItems(CanonItems(items))
    decreases items, 0
  {
    if items != [] {
      StringifyIsPrintCanon(items[0]);
      ItemsArePrintCanon(items[1..]);
      assert CanonItems(items)[1..] == CanonItems(items[1..]);
    }
  }

  lemma {:induction false} PairsArePrintCanon(fields: seq<Field>, keys: seq<Text>)
    requires forall k | k in keys :: k in Keys(fields)
    ensures StringifyPairs(fields, keys) == PrintFields(CanonFields(fields, keys))
    decreases fields, |keys|
  {
    if keys != [] {
      StringifyIsPrintCanon(Lookup(fields, keys[0]));
      PairsArePrintCanon(fields, keys[1..]);
      assert CanonFields(fields, keys)[1..] == CanonFields(fields, keys[1..]);
    }
  }

  // ---- Unique reading of the printed form ----

  /** What may follow a printed value: nothing, a separator or a closing bracket. */
  predicate Stops(rest: Text) {
    rest == [] || rest[0] == COMMA || rest[0] == CLOSE_BRACKET || rest[0] == CLOSE_BRACE
  }

  /** The first code unit tells the kind of the value. */
  predicate OpensWith(v: Value, c: CodeUnit) {
    match v
    case Undefined => c == UNDEFINED[0]
    case Null => c == NULL[0]
    case Bool(b) => c == if b then TRUE[0] else FALSE[0]
    case Number(_) => 0x30 <= c <= 0x39 || c == 0x2D
    case NonFinite => c == NULL[0]
    case Str(_) => c == QUOTE
    case Arr(_) => c == OPEN_BRACKET
    case Obj(_) => c == OPEN_BRACE
  }

  lemma {:induction false} PrintHead(v: Value, rest: Text)
    ensures Print(v) != [] && OpensWith(v, (Print(v) + rest)[0])
  {
  }

  lemma {:induction false} NumeralNotShorter(m: Numeral, n: Numeral, x: Text, y: Text)
    requires Stops(x) && m + x == n + y
    ensures |n| <= |m|
  {
    assert x != [] ==> (m + x)[|m|] == x[0];
    assert forall i | 0 <= i < |n| :: (n + y)[i] == n[i];
    assert |m + x| == |m| + |x| == |n| + |y|;
  }

  lemma {:induction false} NumeralCancel(m: Numeral, n: Numeral, x: Text, y: Text)
    requires Stops(x) && Stops(y) && m + x == n + y
    ensures m == n && x == y
  {
    NumeralNotShorter(m, n, x, y);
    NumeralNotShorter(n, m, y, x);
    assert m == (m + x)[..|m|] == n && x == (m + x)[|m|..] == y;
  }

  lemma {:induction false} PrefixCancel(p: Text, x: Text, y: Text)
    requires p + x == p + y
    ensures x == y
  {
    assert x == (p + x)[|p|..] && y == (p + y)[|p|..];
  }

  /** A printed value can be read back from any context that stops it. */
  lemma {:induction false} PrintCancel(v: Value, w: Value, x: Text, y: Text)
    requires Finite(v) && Finite(w) && Stops(x) && Stops(y)
    requires Print(v) + x == Print(w) + y
    ensures v == w && x == y
    decreases v, 1
  {
    PrintHead(v, x);
    PrintHead(w, y);
    match v
    case Undefined => PrefixCancel(UNDEFINED, x, y);
    case Null => PrefixCancel(NULL, x, y);
    case Bool(b) => PrefixCancel(if b then TRUE else FALSE, x, y);
    case Number(numeral) => NumeralCancel(numeral, w.numeral, x, y);
    case Str(s) => QuoteCancel(s, w.s, x, y);
    case Arr(items) =>
      Regroup([OPEN_BRACKET], Join(PrintItems(items), COMMA), [CLOSE_BRACKET], x);
      Regroup([OPEN_BRACKET], Join(PrintItems(w.items), COMMA), [CLOSE_BRACKET], y);
      PrefixCancel([OPEN_BRACKET],
                   Join(PrintItems(items), COMMA) + ([CLOSE_BRACKET] + x),
                   Join(PrintItems(w.items), COMMA) + ([CLOSE_BRACKET] + y));
      ItemsCancel(items, w.items, [CLOSE_BRACKET] + x, [CLOSE_BRACKET] + y);
      PrefixCancel([CLOSE_BRACKET], x, y);
    case Obj(fields) =>
      Regroup([OPEN_BRACE], Join(PrintFields(fields), COMMA), [CLOSE_BRACE], x);
      Regroup([OPEN_BRACE], Join(PrintFields(w.fields), COMMA), [CLOSE_BRACE], y);
      PrefixCancel([OPEN_BRACE],
                   Join(PrintFields(fields), COMMA) + ([CLOSE_BRACE] + x),
                   Join(PrintFields(w.fields), COMMA) + ([CLOSE_BRACE] + y));
      FieldsCancel(fields, w.fields, [CLOSE_BRACE] + x, [CLOSE_BRACE] + y);
      PrefixCancel([CLOSE_BRACE], x, y);
  }

  /** What follows the first of several joined parts. */
  function After(parts: seq<Text>, x: Text): Text
    requires parts != []
  {
    if |parts| == 1 then x else [COMMA] + (Join(parts[1..], COMMA) + x)
  }

  lemma {:induction false} JoinHead(parts: seq<Text>, x: Text)
    requires parts != []
    ensures Join(parts, COMMA) + x == parts[0] + After(parts, x)
  {
  }

  lemma {:induction false} ItemsCancel(items: seq<Value>, others: seq<Value>, x: Text, y: Text)
    requires Finite(Arr(items)) && Finite(Arr(others))
    requires x != [] && y != [] && x[0] == y[0] == CLOSE_BRACKET
    requires Join(PrintItems(items), COMMA) + x == Join(PrintItems(others), COMMA) + y
    ensures items == others && x == y
    decreases items, 0
  {
    var parts, otherParts := PrintItems(items), PrintItems(others);
    assert items == [] ==> Join(parts, COMMA) + x == x;
    assert others == [] ==> Join(otherParts, COMMA) + y == y;
    if items != [] {
      PrintHead(items[0], After(parts, x));
      JoinHead(parts, x);
    }
    if others != [] {
      PrintHead(others[0], After(otherParts, y));
      JoinHead(otherParts, y);
    }
    if items != [] && others != [] {
      PrintCancel(items[0], others[0], After(parts, x), After(otherParts, y));
      assert parts[1..] == PrintItems(items[1..]) && otherParts[1..] == PrintItems(others[1..]);
      if |items| > 1 && |others| > 1 {
        PrefixCancel([COMMA], Join(parts[1..], COMMA) + x, Join(otherParts[1..], COMMA) + y);
        ItemsCancel(items[1..], others[1..], x, y);
      }
      assert |items| == 1 <==> |others| == 1;
      assert items == [items[0]] + items[1..] && others == [others[0]] + others[1..];
    }
  }

  lemma {:induction false} Regroup(a: Text, b: Text, c: Text, d: Text)
    ensures (a + b + c) + d == a + (b + (c + d))
  {
  }

  lemma {:induction false} FieldCancel(f: Field, g: Field, x: Text, y: Text)
    requires Finite(f.value) && Finite(g.value) && Stops(x) && Stops(y)
    requires PrintField(f) + x == PrintField(g) + y
    ensures f == g && x == y
    decreases f, 2
  {
    Regroup(Quote(f.key), [COLON], Print(f.value), x);
    Regroup(Quote(g.key), [COLON], Print(g.value), y);
    var u, v := Print(f.value) + x, Print(g.value) + y;
    QuoteCancel(f.key, g.key, [COLON] + u, [COLON] + v);
    PrefixCancel([COLON], u, v);
    PrintCancel(f.value, g.value, x, y);
  }

  lemma {:induction false} FieldsCancel(fields: seq<Field>, others: seq<Field>, x: Text, y: Text)
    requires Finite(Obj(fields)) && Finite(Obj(others))
    requires x != [] && y != [] && x[0] == y[0] == CLOSE_BRACE
    requires Join(PrintFields(fields), COMMA) + x == Join(PrintFields(others), COMMA) + y
    ensures fields == others && x == y
    decreases fields, 0
  {
    var parts, otherParts := PrintFields(fields), PrintFields(others);
    assert fields == [] ==> Join(parts, COMMA) + x == x;
    assert others == [] ==> Join(otherParts, COMMA) + y == y;
    if fields != [] {
      assert PrintField(fields[0])[0] == QUOTE;
      JoinHead(parts, x);
    }
    if others != [] {
      assert PrintField(others[0])[0] == QUOTE;
      JoinHead(otherParts, y);
    }
    if fields != [] && others != [] {
      FieldCancel(fields[0], others[0], After(parts, x), After(otherParts, y));
      assert parts[1..] == PrintFields(fields[1..]) && otherParts[1..] == PrintFields(others[1..]);
      if |fields| > 1 && |others| > 1 {
        PrefixCancel([COMMA], Join(parts[1..], COMMA) + x, Join(otherParts[1..], COMMA) + y);
        FieldsCancel(fields[1..], others[1..], x, y);
      }
      assert |fields| == 1 <==> |others| == 1;
      assert fields == [fields[0]] + fields[1..] && others == [others[0]] + others[1..];
    }
  }

  // ---- Canonical values and equality up to key order ----

  lemma {:induction false} CanonFinite(v: Value)
    ensures Finite(Canon(v))
    decreases v
  {
    match v
    case Arr(items) =>
      forall i | 0 <= i < |items|
        ensures Finite(CanonItems(items)[i])
      {
        CanonItemsAt(items, i);
        CanonFinite(items[i]);
      }
    case Obj(fields) =>
      var keys := SortKeys(Keys(fields));
      forall i | 0 <= i < |keys|
        ensures Finite(CanonFields(fields, keys)[i].value)
      {
        CanonFieldsAt(fields, keys, i);
        CanonFinite(Lookup(fields, keys[i]));
      }
    case _ =>
  }

  /** On every pair of values: the printed forms coincide exactly when the canonical values do. */
  lemma {:induction false} PrintedFormIsExact(v: Value, w: Value)
    ensures Stringify(v) == Stringify(w) <==> Canon(v) == Canon(w)
  {
    StringifyIsPrintCanon(v);
    StringifyIsPrintCanon(w);
    if Stringify(v) == Stringify(w) {
      CanonFinite(v);
      CanonFinite(w);
      PrintCancel(Canon(v), Canon(w), [], []);
    }
  }

  lemma {:induction false} CanonItemsAt(items: seq<Value>, i: nat)
    requires i < |items|
    ensures CanonItems(items)[i] == Canon(items[i])
  {
    if i > 0 {
      CanonItemsAt(items[1..], i - 1);
    }
  }

  lemma {:induction false} CanonFieldsAt(fields: seq<Field>, keys: seq<Text>, i: nat)
    requires forall k | k in keys :: k in Keys(fields)
    requires i < |keys|
    ensures CanonFields(fields, keys)[i] == Field(keys[i], Canon(Lookup(fields, keys[i])))
    decreases i
  {
    if i > 0 {
      CanonFieldsAt(fields, keys[1..], i - 1);
    }
  }

  lemma {:induction false} LookupDistinct(fields: seq<Field>, i: nat)
    requires Distinct(Keys(fields)) && i < |fields|
    ensures fields[i].key in Keys(fields) && Lookup(fields, fields[i].key) == fields[i].value
    decreases i
  {
    assert Keys(fields)[i] == fields[i].key && Keys(fields)[0] == fields[0].key;
    assert Keys(fields)[1..] == Keys(fields[1..]);
    if i > 0 {
      assert fields[1..][i - 1] == fields[i];
      LookupDistinct(fields[1..], i - 1);
    }
  }

  /** Equal content in any key order has the same canonical value. */
  lemma {:induction false} SameHasOneCanon(v: Value, w: Value)
    requires WellFormed(v) && WellFormed(w) && Same(v, w)
    ensures Canon(v) == Canon(w)
    decreases v, 1
  {
    match v
    case Arr(items) =>
      forall i | 0 <= i < |items| ensures CanonItems(items)[i] == CanonItems(w.items)[i] {
        SameHasOneCanon(items[i], w.items[i]);
        CanonItemsAt(items, i);
        CanonItemsAt(w.items, i);
      }
      assert CanonItems(items) == CanonItems(w.items);
    case Obj(fields) =>
      SortKeysIncreasing(Keys(fields));
      SortKeysIncreasing(Keys(w.fields));
      var keys := SortKeys(Keys(fields));
      IncreasingUnique(keys, SortKeys(Keys(w.fields)));
      SameFieldsHaveOneCanon(v, w, keys);
    case _ =>
  }

  lemma {:induction false} SameFieldsHaveOneCanon(v: Value, w: Value, keys: seq<Text>)
    requires v.Obj? && w.Obj? && WellFormed(v) && WellFormed(w) && Same(v, w)
    requires forall k | k in keys :: k in Keys(v.fields) && k in Keys(w.fields)
    ensures CanonFields(v.fields, keys) == CanonFields(w.fields, keys)
    decreases v, 0, |keys|
  {
    if keys != [] {
      SameAtKey(v, w, keys[0]);
      SameFieldsHaveOneCanon(v, w, keys[1..]);
    }
  }

  lemma {:induction false} SameAtKey(v: Value, w: Value, key: Text)
    requires v.Obj? && w.Obj? && WellFormed(v) && WellFormed(w) && Same(v, w)
    requires key in Keys(v.fields) && key in Keys(w.fields)
    ensures Canon(Lookup(v.fields, key)) == Canon(Lookup(w.fields, key))
    decreases v, 0, 0
  {
    var j :| 0 <= j < |v.fields| && v.fields[j].key == key;
    LookupDistinct(v.fields, j);
    SameHasOneCanon(v.fields[j].value, Lookup(w.fields, key));
  }

  /** Finite values with one canonical value are equal up to key order. */
  lemma {:induction false} OneCanonIsSame(v: Value, w: Value)
    requires WellFormed(v) && WellFormed(w) && Finite(v) && Finite(w) && Canon(v) == Canon(w)
    ensures Same(v, w)
    decreases v, 1
  {
    match v
    case Arr(items) =>
      forall i | 0 <= i < |items| ensures Same(items[i], w.items[i]) {
        CanonItemsAt(items, i);
        CanonItemsAt(w.items, i);
        OneCanonIsSame(items[i], w.items[i]);
      }
    case Obj(fields) =>
      var keys, otherKeys := SortKeys(Keys(fields)), SortKeys(Keys(w.fields));
      var mine, theirs := CanonFields(fields, keys), CanonFields(w.fields, otherKeys);
      assert forall i | 0 <= i < |keys| :: keys[i] == mine[i].key == theirs[i].key == otherKeys[i];
      assert keys == otherKeys;
      forall i | 0 <= i < |fields|
        ensures fields[i].key in Keys(w.fields) && Same(fields[i].value, Lookup(w.fields, fields[i].key))
      {
        LookupDistinct(fields, i);
        assert fields[i].key in keys;
        var j :| 0 <= j < |keys| && keys[j] == fields[i].key;
        CanonFieldsAt(fields, keys, j);
        CanonFieldsAt(w.fields, keys, j);
        OneCanonIsSame(fields[i].value, Lookup(w.fields, keys[j]));
      }
    case _ =>
  }

  /** Configurations whose numbers are finite print alike exactly when they are equal up to key order. */
  lemma {:induction false} FiniteConfigsPrintAlikeIffSame(v: Value, w: Value)
    requires WellFormed(v) && WellFormed(w) && Finite(v) && Finite(w)
    ensures Stringify(v) == Stringify(w) <==> Same(v, w)
  {
    PrintedFormIsExact(v, w);
    if Same(v, w) {
      SameHasOneCanon(v, w);
    } else if Canon(v) == Canon(w) {
      OneCanonIsSame(v, w);
    }
  }

  // ---- Configurations with non-finite numbers ----

  /** `v` with its non-finite numbers replaced by null, keys left in place. */
  function Nulled(v: Value): Value
    decreases v, 1
  {
    match v
    case NonFinite => Null
    case Arr(items) => Arr(NulledItems(items))
    case Obj(fields) => Obj(NulledFields(fields))
    case _ => v
  }

  function NulledItems(items: seq<Value>): (r: seq<Value>)
    ensures |r| == |items|
    decreases items, 0
  {
    if items == [] then [] else [Nulled(items[0])] + NulledItems(items[1..])
  }

  function NulledFields(fields: seq<Field>): (r: seq<Field>)
    ensures Keys(r) == Keys(fields)
    decreases fields, 0
  {
    if fields == [] then [] else
      var rest := NulledFields(fields[1..]);
      assert Keys(fields) == [fields[0].key] + Keys(fields[1..]);
      assert Keys([Field(fields[0].key, Nulled(fields[0].value))] + rest) == [fields[0].key] + Keys(rest);
      [Field(fields[0].key, Nulled(fields[0].value))] + rest
  }

  lemma {:induction false} NulledLookup(fields: seq<Field>, key: Text)
    requires key in Keys(fields)
    ensures Lookup(NulledFields(fields), key) == Nulled(Lookup(fields, key))
    decreases |fields|
  {
    if fields[0].key != key {
      assert Keys(fields) == [fields[0].key] + Keys(fields[1..]);
      NulledLookup(fields[1..], key);
      assert NulledFields(fields)[1..] == NulledFields(fields[1..]);
    }
  }

  lemma {:induction false} NulledFinite(v: Value)
    ensures Finite(Nulled(v)) && (WellFormed(v) ==> WellFormed(Nulled(v)))
    decreases v, 1
  {
    match v
    case Arr(items) => NulledItemsFinite(items);
    case Obj(fields) => NulledFieldsFinite(fields);
    case _ =>
  }

  lemma {:induction false} NulledItemsFinite(items: seq<Value>)
    ensures Finite(Arr(NulledItems(items))) && (WellFormed(Arr(items)) ==> WellFormed(Arr(NulledItems(items))))
    decreases items, 0
  {
    if items != [] {
      NulledFinite(items[0]);
      NulledItemsFinite(items[1..]);
      assert WellFormed(Arr(items)) ==> WellFormed(Arr(items[1..]));
    }
  }

  lemma {:induction false} NulledFieldsFinite(fields: seq<Field>)
    ensures Finite(Obj(NulledFields(fields)))
    ensures (forall i | 0 <= i < |fields| :: WellFormed(fields[i].value)) ==>
              forall i | 0 <= i < |NulledFields(fields)| :: WellFormed(NulledFields(fields)[i].value)
    decreases fields, 0
  {
    if fields != [] {
      NulledFinite(fields[0].value);
      NulledFieldsFinite(fields[1..]);
      assert forall i | 0 <= i < |fields[1..]| :: fields[1..][i] == fields[i + 1];
    }
  }

  lemma {:induction false} NulledCanon(v: Value)
    ensures Canon(Nulled(v)) == Canon(v)
    decreases v, 1
  {
    match v
    case Arr(items) => NulledItemsCanon(items);
    case Obj(fields) => NulledFieldsCanon(fields, SortKeys(Keys(fields)));
    case _ =>
  }

  lemma {:induction false} NulledItemsCanon(items: seq<Value>)
    ensures CanonItems(NulledItems(items)) == CanonItems(items)
    decreases items, 0
  {
    if items != [] {
      NulledCanon(items[0]);
      NulledItemsCanon(items[1..]);
      assert NulledItems(items)[1..] == NulledItems(items[1..]);
    }
  }

  lemma {:induction false} NulledFieldsCanon(fields: seq<Field>, keys: seq<Text>)
    requires forall k | k in keys :: k in Keys(fields)
    ensures CanonFields(NulledFields(fields), keys) == CanonFields(fields, keys)
    decreases fields, |keys|
  {
    if keys != [] {
      NulledLookup(fields, keys[0]);
      NulledCanon(Lookup(fields, keys[0]));
      NulledFieldsCanon(fields, keys[1..]);
    }
  }

  /**
   * In general: configurations print alike exactly when they are equal up to key order and to reading NaN and
   * infinities as null.
   */
  lemma {:induction false} ConfigsPrintAlikeIffSameNulled(v: Value, w: Value)
    requires WellFormed(v) && WellFormed(w)
    ensures Stringify(v) == Stringify(w) <==> Same(Nulled(v), Nulled(w))
  {
    NulledFinite(v);
    NulledFinite(w);
    NulledCanon(v);
    NulledCanon(w);
    PrintedFormIsExact(v, w);
    PrintedFormIsExact(Nulled(v), Nulled(w));
    FiniteConfigsPrintAlikeIffSame(Nulled(v), Nulled(w));
  }

  /** The hash never depends on the order of keys, for finite and non-finite content alike. */
  lemma {:induction false} HashIgnoresKeyOrder(v: Value, w: Value)
    requires WellFormed(v) && WellFormed(w) && Same(v, w)
    ensures Djb2.Hash(Stringify(v)) == Djb2.Hash(Stringify(w))
  {
    SameHasOneCanon(v, w);
    PrintedFormIsExact(v, w);
  }

  /** Without finiteness the printed form is not exact: a field holding NaN reads like one holding null. */
  lemma {:induction false} NonFiniteReadsAsNull(key: Text)
    ensures var v, w := Obj([Field(key, NonFinite)]), Obj([Field(key, Null)]);
            WellFormed(v) && WellFormed(w) && !Same(v, w) && Stringify(v) == Stringify(w)
  {
    var v, w := Obj([Field(key, NonFinite)]), Obj([Field(key, Null)]);
    assert Keys(v.fields) == [key] == Keys(w.fields);
    assert SortKeys([key]) == [key];
    LookupDistinct(v.fields, 0);
    LookupDistinct(w.fields, 0);
    assert !Same(v.fields[0].value, Lookup(w.fields, v.fields[0].key));
    PrintedFormIsExact(v, w);
    CanonFieldsAt(v.fields, [key], 0);
    CanonFieldsAt(w.fields, [key], 0);
    assert CanonFields(v.fields, [key]) == CanonFields(w.fields, [key]);
  }
}
