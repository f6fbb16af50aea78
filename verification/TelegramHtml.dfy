/** Rendering of message entities as HTML, and reading the rendered text back. */
module TelegramHtml {
  import opened JsText
  import opened Wrappers

  datatype EntityKind =
    | Bold | Italic | Underline | Strikethrough | Code
    | Pre(language: Option<Text>)
    | TextLink(url: Option<Text>)
    | Spoiler | Blockquote | ExpandableBlockquote | OtherKind

  datatype Entity = Entity(offset: int, length: int, kind: EntityKind) {
    function End(): int { offset + length }
  }

  const AMP: CodeUnit := 0x26
  const LT: CodeUnit := 0x3C
  const GT: CodeUnit := 0x3E
  const QUOTE: CodeUnit := 0x22
  const SLASH: CodeUnit := 0x2F
  const AMP_ENTITY: Text := [0x26, 0x61, 0x6D, 0x70, 0x3B]
  const LT_ENTITY: Text := [0x26, 0x6C, 0x74, 0x3B]
  const GT_ENTITY: Text := [0x26, 0x67, 0x74, 0x3B]
  const QUOT_ENTITY: Text := [0x26, 0x71, 0x75, 0x6F, 0x74, 0x3B]

  const NAME_B: Text := [0x62]
  const NAME_I: Text := [0x69]
  const NAME_U: Text := [0x75]
  const NAME_S: Text := [0x73]
  const NAME_A: Text := [0x61]
  const NAME_CODE: Text := [0x63, 0x6F, 0x64, 0x65]
  const NAME_PRE: Text := [0x70, 0x72, 0x65]
  const NAME_SPOILER: Text := [0x74, 0x67, 0x2D, 0x73, 0x70, 0x6F, 0x69, 0x6C, 0x65, 0x72]
  const NAME_BLOCKQUOTE: Text := [0x62, 0x6C, 0x6F, 0x63, 0x6B, 0x71, 0x75, 0x6F, 0x74, 0x65]
  // `code class=` and `a href=`, each before its quoted value
  const CODE_CLASS: Text := NAME_CODE + [0x20, 0x63, 0x6C, 0x61, 0x73, 0x73, 0x3D]
  const A_HREF: Text := NAME_A + [0x20, 0x68, 0x72, 0x65, 0x66, 0x3D]
  // `language-`
  const LANGUAGE: Text := [0x6C, 0x61, 0x6E, 0x67, 0x75, 0x61, 0x67, 0x65, 0x2D]

  // ---- The renderer ----

  function ReplaceAll(s: Text, c: CodeUnit, sub: Text): Text {
    if s == [] then [] else (if s[0] == c then sub else [s[0]]) + ReplaceAll(s[1..], c, sub)
  }

  function EscapeHtml(s: Text): Text {
    ReplaceAll(ReplaceAll(ReplaceAll(s, AMP, AMP_ENTITY), LT, LT_ENTITY), GT, GT_ENTITY)
  }

  function OpenTag(name: Text): Text { [LT] + name + [GT] }

  function CloseTag(name: Text): Text { [LT] + ([SLASH] + name) + [GT] }

  function AttributeTag(head: Text, value: Text): Text { [LT] + head + [QUOTE] + value + [QUOTE, GT] }

  function Wrapped(name: Text, escaped: Text): Text {
    OpenTag(name) + escaped + CloseTag(name)
  }

  function WrapEntity(text: Text, kind: EntityKind): Text {
    var escaped := EscapeHtml(text);
    match kind
    case Bold => Wrapped(NAME_B, escaped)
    case Italic => Wrapped(NAME_I, escaped)
    case Underline => Wrapped(NAME_U, escaped)
    case Strikethrough => Wrapped(NAME_S, escaped)
    case Code => Wrapped(NAME_CODE, escaped)
    case Pre(language) =>
      if language.Some? && language.value != [] then
        OpenTag(NAME_PRE) + AttributeTag(CODE_CLASS, LANGUAGE + language.value) + escaped +
        CloseTag(NAME_CODE) + CloseTag(NAME_PRE)
      else Wrapped(NAME_PRE, escaped)
    case TextLink(url) =>
      var target := if url.Some? then url.value else [];
      AttributeTag(A_HREF, ReplaceAll(target, QUOTE, QUOT_ENTITY)) + escaped + CloseTag(NAME_A)
    case Spoiler => Wrapped(NAME_SPOILER, escaped)
    case Blockquote => Wrapped(NAME_BLOCKQUOTE, escaped)
    case ExpandableBlockquote => Wrapped(NAME_BLOCKQUOTE, escaped)
    case OtherKind => escaped
  }

  /** The sort order: by offset, longer entities first. */
  predicate Before(a: Entity, b: Entity) {
    a.offset < b.offset || (a.offset == b.offset && a.length >= b.length)
  }

  function InsertEntity(e: Entity, sorted: seq<Entity>): seq<Entity> {
    if sorted == [] || Before(e, sorted[0]) then [e] + sorted else [sorted[0]] + InsertEntity(e, sorted[1..])
  }

  /** The stable sort of the entities. */
  function Sorted(entities: seq<Entity>): seq<Entity> {
    if entities == [] then [] else InsertEntity(entities[0], Sorted(entities[1..]))
  }

  function Gap(text: Text, last: int, e: Entity): Text {
    if e.offset > last then EscapeHtml(Slice(text, last, e.offset)) else []
  }

  function Piece(text: Text, e: Entity): Text {
    WrapEntity(Slice(text, e.offset, e.End()), e.kind)
  }

  /** The rendering of everything from `last` on, given the entities still to come. */
  function Rendered(text: Text, sorted: seq<Entity>, last: int): Text
    decreases sorted
  {
    if sorted == [] then
      if last < |text| then EscapeHtml(Slice(text, last, |text|)) else []
    else
      var e := sorted[0];
      Gap(text, last, e) + Piece(text, e) + Rendered(text, sorted[1..], e.End())
  }

  method AddEntity(text: Text, entity: Entity, lastOffset: int, result: Text) returns (longer: Text)
    ensures longer == result + Gap(text, lastOffset, entity) + Piece(text, entity)
  {
    longer := result;
    if entity.offset > lastOffset {
      longer := longer + EscapeHtml(Slice(text, lastOffset, entity.offset));
    }
    assert longer == result + Gap(text, lastOffset, entity);
    var entityText := Slice(text, entity.offset, entity.offset + entity.length);
    longer := longer + WrapEntity(entityText, entity.kind);
  }

  method EntitiesToHtml(text: Text, entities: seq<Entity>) returns (result: Text)
    ensures result == Rendered(text, Sorted(entities), 0)
  {
    if entities == [] {
      assert Slice(text, 0, |text|) == text;
      return EscapeHtml(text);
    }
    var sorted := Sorted(entities);
    result := [];
    var lastOffset := 0;
    for i := 0 to |sorted|
      invariant Rendered(text, sorted, 0) == result + Rendered(text, sorted[i..], lastOffset)
    {
      RenderedGrow(text, sorted, i, lastOffset, result);
      result := AddEntity(text, sorted[i], lastOffset, result);
      lastOffset := sorted[i].offset + sorted[i].length;
    }
    if lastOffset < |text| {
      result := result + EscapeHtml(Slice(text, lastOffset, |text|));
    }
  }

  lemma {:induction false} Regroup(a: Text, b: Text, c: Text, d: Text)
    ensures a + (b + c + d) == a + b + c + d
  {
  }

  /** What one entity adds to the rendering made so far. */
  lemma {:induction false} RenderedGrow(text: Text, sorted: seq<Entity>, i: nat, last: int, result: Text)
    requires i < |sorted| && Rendered(text, sorted, 0) == result + Rendered(text, sorted[i..], last)
    ensures var e := sorted[i];
            Rendered(text, sorted, 0) ==
              (result + Gap(text, last, e) + Piece(text, e)) + Rendered(text, sorted[i + 1..], e.End())
  {
    var e := sorted[i];
    assert sorted[i..][0] == e && sorted[i..][1..] == sorted[i + 1..];
    Regroup(result, Gap(text, last, e), Piece(text, e), Rendered(text, sorted[i + 1..], e.End()));
  }

  // ---- Escaping ----

  function EscapeUnit(c: CodeUnit): Text {
    if c == AMP then AMP_ENTITY else if c == LT then LT_ENTITY else if c == GT then GT_ENTITY else [c]
  }

  function Escaped(s: Text): Text {
    if s == [] then [] else EscapeUnit(s[0]) + Escaped(s[1..])
  }

  lemma {:induction false} ReplaceAllConcat(s: Text, t: Text, c: CodeUnit, sub: Text)
    ensures ReplaceAll(s + t, c, sub) == ReplaceAll(s, c, sub) + ReplaceAll(t, c, sub)
  {
    if s == [] {
      assert s + t == t;
    } else {
      assert (s + t)[1..] == s[1..] + t;
      ReplaceAllConcat(s[1..], t, c, sub);
    }
  }

  lemma {:induction false} ReplaceAllAbsent(s: Text, c: CodeUnit, sub: Text)
    requires c !in s
    ensures ReplaceAll(s, c, sub) == s
  {
    if s != [] {
      ReplaceAllAbsent(s[1..], c, sub);
    }
  }

  lemma {:induction false} ReplaceOne(c: CodeUnit, d: CodeUnit, sub: Text)
    ensures ReplaceAll([c], d, sub) == if c == d then sub else [c]
  {
    assert [c][1..] == [];
  }

  lemma {:induction false} EscapeOne(c: CodeUnit)
    ensures EscapeHtml([c]) == EscapeUnit(c)
  {
    ReplaceOne(c, AMP, AMP_ENTITY);
    if c == AMP {
      ReplaceAllAbsent(AMP_ENTITY, LT, LT_ENTITY);
      ReplaceAllAbsent(AMP_ENTITY, GT, GT_ENTITY);
    } else {
      ReplaceOne(c, LT, LT_ENTITY);
      if c == LT {
        ReplaceAllAbsent(LT_ENTITY, GT, GT_ENTITY);
      } else {
        ReplaceOne(c, GT, GT_ENTITY);
      }
    }
  }

  lemma {:induction false} EscapeHtmlConcat(s: Text, t: Text)
    ensures EscapeHtml(s + t) == EscapeHtml(s) + EscapeHtml(t)
  {
    ReplaceAllConcat(s, t, AMP, AMP_ENTITY);
    var s1, t1 := ReplaceAll(s, AMP, AMP_ENTITY), ReplaceAll(t, AMP, AMP_ENTITY);
    ReplaceAllConcat(s1, t1, LT, LT_ENTITY);
    ReplaceAllConcat(ReplaceAll(s1, LT, LT_ENTITY), ReplaceAll(t1, LT, LT_ENTITY), GT, GT_ENTITY);
  }

  /** The three replacements, the ampersand first, amount to one pass over the characters. */
  lemma {:induction false} EscapeIsOnePass(s: Text)
    ensures EscapeHtml(s) == Escaped(s)
  {
    if s != [] {
      EscapeIsOnePass(s[1..]);
      assert s == [s[0]] + s[1..];
      EscapeHtmlConcat([s[0]], s[1..]);
      EscapeOne(s[0]);
    }
  }

  predicate StartsWith(s: Text, p: Text) {
    |p| <= |s| && s[..|p|] == p
  }

  /** The reader's side of escaping. */
  function Unescape(s: Text): Text {
    if s == [] then []
    else if StartsWith(s, AMP_ENTITY) then [AMP] + Unescape(s[5..])
    else if StartsWith(s, LT_ENTITY) then [LT] + Unescape(s[4..])
    else if StartsWith(s, GT_ENTITY) then [GT] + Unescape(s[4..])
    else [s[0]] + Unescape(s[1..])
  }

  lemma {:induction false} NotPrefix(s: Text, p: Text, i: nat)
    requires i < |s| && i < |p| && s[i] != p[i]
    ensures !StartsWith(s, p)
  {
    if |p| <= |s| {
      assert s[..|p|][i] == s[i];
    }
  }

  lemma {:induction false} UnescapeUnit(c: CodeUnit, tail: Text)
    ensures Unescape(EscapeUnit(c) + tail) == [c] + Unescape(tail)
  {
    var head := EscapeUnit(c);
    var whole := head + tail;
    assert whole[|head|..] == tail && whole[..|head|] == head;
    if c == LT {
      NotPrefix(whole, AMP_ENTITY, 1);
    } else if c == GT {
      NotPrefix(whole, AMP_ENTITY, 1);
      NotPrefix(whole, LT_ENTITY, 1);
    } else if c != AMP {
      NotPrefix(whole, AMP_ENTITY, 0);
      NotPrefix(whole, LT_ENTITY, 0);
      NotPrefix(whole, GT_ENTITY, 0);
    }
  }

  lemma {:induction false} UnescapeEscaped(s: Text)
    ensures Unescape(Escaped(s)) == s
  {
    if s != [] {
      UnescapeEscaped(s[1..]);
      UnescapeUnit(s[0], Escaped(s[1..]));
    }
  }

  lemma {:induction false} EscapeInjective(s: Text, t: Text)
    requires EscapeHtml(s) == EscapeHtml(t)
    ensures s == t
  {
    EscapeIsOnePass(s);
    EscapeIsOnePass(t);
    UnescapeEscaped(s);
    UnescapeEscaped(t);
  }

  lemma {:induction false} EscapedConcat(s: Text, t: Text)
    ensures Escaped(s + t) == Escaped(s) + Escaped(t)
  {
    if s == [] {
      assert s + t == t;
    } else {
      assert (s + t)[1..] == s[1..] + t;
      EscapedConcat(s[1..], t);
    }
  }

  lemma {:induction false} EscapedHasNoTags(s: Text)
    ensures LT !in Escaped(s)
  {
    if s != [] {
      EscapedHasNoTags(s[1..]);
    }
  }

  // ---- The reader ----

  datatype Mode = InText | InTag | InQuote

  function NextMode(mode: Mode, c: CodeUnit): Mode {
    match mode
    case InText => if c == LT then InTag else InText
    case InTag => if c == GT then InText else if c == QUOTE then InQuote else InTag
    case InQuote => if c == QUOTE then InTag else InQuote
  }

  function After(html: Text, mode: Mode): Mode
    decreases html
  {
    if html == [] then mode else After(html[1..], NextMode(mode, html[0]))
  }

  function Shown(mode: Mode, c: CodeUnit): Text {
    if mode == InText && c != LT then [c] else []
  }

  /** The text outside tags; a `>` inside a quoted attribute does not end the tag. */
  function Stripped(html: Text, mode: Mode): Text
    decreases html
  {
    if html == [] then []
    else Shown(mode, html[0]) + Stripped(html[1..], NextMode(mode, html[0]))
  }

  function ReadBack(html: Text): Text {
    Unescape(Stripped(html, InText))
  }

  lemma {:induction false} AfterConcat(a: Text, b: Text, mode: Mode)
    ensures After(a + b, mode) == After(b, After(a, mode))
    decreases a
  {
    if a == [] {
      assert a + b == b;
    } else {
      assert (a + b)[1..] == a[1..] + b;
      AfterConcat(a[1..], b, NextMode(mode, a[0]));
    }
  }

  lemma {:induction false} StrippedCons(c: CodeUnit, s: Text, mode: Mode)
    ensures Stripped([c] + s, mode) == Shown(mode, c) + Stripped(s, NextMode(mode, c))
    ensures After([c] + s, mode) == After(s, NextMode(mode, c))
  {
    assert ([c] + s)[1..] == s;
  }

  lemma {:induction false} StrippedStep(c: CodeUnit, a: Text, b: Text, mode: Mode)
    requires var next := NextMode(mode, c); Stripped(a + b, next) == Stripped(a, next) + Stripped(b, After(a, next))
    ensures Stripped([c] + (a + b), mode) == Stripped([c] + a, mode) + Stripped(b, After([c] + a, mode))
  {
    var next := NextMode(mode, c);
    StrippedCons(c, a, mode);
    StrippedCons(c, a + b, mode);
    var x, y, z := Shown(mode, c), Stripped(a, next), Stripped(b, After(a, next));
    assert x + (y + z) == (x + y) + z;
  }

  lemma {:induction false} StrippedConcat(a: Text, b: Text, mode: Mode)
    ensures Stripped(a + b, mode) == Stripped(a, mode) + Stripped(b, After(a, mode))
    decreases a
  {
    if a == [] {
      assert a + b == b;
    } else {
      var c, rest := a[0], a[1..];
      assert a == [c] + rest && a + b == [c] + (rest + b);
      StrippedConcat(rest, b, NextMode(mode, c));
      StrippedStep(c, rest, b, mode);
    }
  }

  lemma {:induction false} ReadConcat(a: Text, b: Text, mode: Mode)
    ensures After(a + b, mode) == After(b, After(a, mode))
    ensures Stripped(a + b, mode) == Stripped(a, mode) + Stripped(b, After(a, mode))
  {
    AfterConcat(a, b, mode);
    StrippedConcat(a, b, mode);
  }

  /** Reads as `shown` and leaves the reader outside tags. */
  predicate Shows(html: Text, shown: Text) {
    Stripped(html, InText) == shown && After(html, InText) == InText
  }

  lemma {:induction false} ShowsConcat(a: Text, b: Text, x: Text, y: Text)
    requires Shows(a, x) && Shows(b, y)
    ensures Shows(a + b, x + y)
  {
    ReadConcat(a, b, InText);
  }

  lemma {:induction false} ReadUnchanged(s: Text, mode: Mode)
    requires mode == InText ==> LT !in s
    requires mode == InTag ==> GT !in s && QUOTE !in s
    requires mode == InQuote ==> QUOTE !in s
    ensures After(s, mode) == mode
    ensures Stripped(s, mode) == if mode == InText then s else []
    decreases s
  {
    if s != [] {
      ReadUnchanged(s[1..], mode);
    }
  }

  lemma {:induction false} ShowsEscaped(s: Text)
    ensures Shows(EscapeHtml(s), Escaped(s))
  {
    EscapeIsOnePass(s);
    EscapedHasNoTags(s);
    ReadUnchanged(Escaped(s), InText);
  }

  lemma {:induction false} ReadOne(c: CodeUnit, mode: Mode)
    ensures After([c], mode) == NextMode(mode, c)
    ensures Stripped([c], mode) == Shown(mode, c)
  {
  }

  /** A tag without quotes shows nothing. */
  lemma {:induction false} ShowsTag(body: Text)
    requires GT !in body && QUOTE !in body
    ensures Shows([LT] + body + [GT], [])
  {
    ReadOne(LT, InText);
    ReadUnchanged(body, InTag);
    ReadOne(GT, InTag);
    ReadConcat([LT], body, InText);
    ReadConcat([LT] + body, [GT], InText);
  }

  /** Reading the opening of an attribute tag leaves the reader inside the quotes. */
  lemma {:induction false} ReadAttributeHead(head: Text)
    requires GT !in head && QUOTE !in head
    ensures Stripped([LT] + head + [QUOTE], InText) == [] && After([LT] + head + [QUOTE], InText) == InQuote
  {
    ReadOne(LT, InText);
    ReadUnchanged(head, InTag);
    ReadOne(QUOTE, InTag);
    ReadConcat([LT], head, InText);
    ReadConcat([LT] + head, [QUOTE], InText);
  }

  /** So does a tag with a quoted value free of quotes. */
  lemma {:induction false} ShowsAttributeTag(head: Text, value: Text)
    requires GT !in head && QUOTE !in head && QUOTE !in value
    ensures Shows(AttributeTag(head, value), [])
  {
    var front := [LT] + head + [QUOTE];
    ReadAttributeHead(head);
    ReadUnchanged(value, InQuote);
    ReadConcat(front, value, InText);
    ReadOne(QUOTE, InQuote);
    ReadOne(GT, InTag);
    ReadConcat([QUOTE], [GT], InQuote);
    assert [QUOTE] + [GT] == [QUOTE, GT];
    ReadConcat(front + value, [QUOTE, GT], InText);
  }

  lemma {:induction false} ShowsWrapped(name: Text, s: Text)
    requires GT !in name && QUOTE !in name
    ensures Shows(Wrapped(name, EscapeHtml(s)), Escaped(s))
  {
    ShowsTag(name);
    ShowsTag([SLASH] + name);
    ShowsEscaped(s);
    ShowsConcat(OpenTag(name), EscapeHtml(s), [], Escaped(s));
    ShowsConcat(OpenTag(name) + EscapeHtml(s), CloseTag(name), [] + Escaped(s), []);
    assert [] + Escaped(s) + [] == Escaped(s);
  }

  lemma {:induction false} NoQuotesLeft(s: Text)
    ensures QUOTE !in ReplaceAll(s, QUOTE, QUOT_ENTITY)
  {
    if s != [] {
      NoQuotesLeft(s[1..]);
    }
  }

  function LanguageTag(language: Text): Text {
    AttributeTag(CODE_CLASS, LANGUAGE + language)
  }

  /** A language name, copied into its attribute unescaped, leaves a tag that shows nothing and is closed. */
  predicate Harmless(language: Text) {
    language == [] || Shows(LanguageTag(language), [])
  }

  predicate HarmlessKind(kind: EntityKind) {
    kind.Pre? && kind.language.Some? ==> Harmless(kind.language.value)
  }

  lemma {:induction false} QuoteFreeIsHarmless(language: Text)
    requires QUOTE !in language
    ensures Harmless(language)
  {
    ShowsAttributeTag(CODE_CLASS, LANGUAGE + language);
  }

  lemma {:induction false} ShowsPre(language: Text, s: Text)
    requires Harmless(language) && language != []
    ensures Shows(WrapEntity(s, Pre(Some(language))), Escaped(s))
  {
    var opening, inner := OpenTag(NAME_PRE), LanguageTag(language);
    var e := EscapeHtml(s);
    ShowsTag(NAME_PRE);
    ShowsEscaped(s);
    ShowsTag([SLASH] + NAME_CODE);
    ShowsTag([SLASH] + NAME_PRE);
    ShowsConcat(opening, inner, [], []);
    ShowsConcat(opening + inner, e, [] + [], Escaped(s));
    ShowsConcat(opening + inner + e, CloseTag(NAME_CODE), [] + [] + Escaped(s), []);
    ShowsConcat(opening + inner + e + CloseTag(NAME_CODE), CloseTag(NAME_PRE), [] + [] + Escaped(s) + [], []);
    assert [] + [] + Escaped(s) + [] + [] == Escaped(s);
  }

  lemma {:induction false} ShowsLink(url: Option<Text>, s: Text)
    ensures Shows(WrapEntity(s, TextLink(url)), Escaped(s))
  {
    var target := if url.Some? then url.value else [];
    var opening := AttributeTag(A_HREF, ReplaceAll(target, QUOTE, QUOT_ENTITY));
    NoQuotesLeft(target);
    ShowsAttributeTag(A_HREF, ReplaceAll(target, QUOTE, QUOT_ENTITY));
    ShowsEscaped(s);
    ShowsTag([SLASH] + NAME_A);
    ShowsConcat(opening, EscapeHtml(s), [], Escaped(s));
    ShowsConcat(opening + EscapeHtml(s), CloseTag(NAME_A), [] + Escaped(s), []);
    assert [] + Escaped(s) + [] == Escaped(s);
  }

  /** A wrapped piece shows the escaped piece and nothing of its tags. */
  lemma {:induction false} ShowsEntity(s: Text, kind: EntityKind)
    requires HarmlessKind(kind)
    ensures Shows(WrapEntity(s, kind), Escaped(s))
  {
    match kind
    case Bold => ShowsWrapped(NAME_B, s);
    case Italic => ShowsWrapped(NAME_I, s);
    case Underline => ShowsWrapped(NAME_U, s);
    case Strikethrough => ShowsWrapped(NAME_S, s);
    case Code => ShowsWrapped(NAME_CODE, s);
    case Pre(language) =>
      if language.Some? && language.value != [] {
        ShowsPre(language.value, s);
      } else {
        ShowsWrapped(NAME_PRE, s);
      }
    case TextLink(url) => ShowsLink(url, s);
    case Spoiler => ShowsWrapped(NAME_SPOILER, s);
    case Blockquote => ShowsWrapped(NAME_BLOCKQUOTE, s);
    case ExpandableBlockquote => ShowsWrapped(NAME_BLOCKQUOTE, s);
    case OtherKind => ShowsEscaped(s);
  }

  // ---- What the whole rendering reads as ----

  /** The pieces of the text that are rendered, in order. */
  function Covered(text: Text, sorted: seq<Entity>, last: int): Text
    decreases sorted
  {
    if sorted == [] then
      if last < |text| then Slice(text, last, |text|) else []
    else
      var e := sorted[0];
      (if e.offset > last then Slice(text, last, e.offset) else [])
      + Slice(text, e.offset, e.End())
      + Covered(text, sorted[1..], e.End())
  }

  ghost predicate HarmlessLanguages(entities: seq<Entity>) {
    forall i | 0 <= i < |entities| :: HarmlessKind(entities[i].kind)
  }

  lemma {:induction false} ShowsCovered(text: Text, sorted: seq<Entity>, last: int)
    requires HarmlessLanguages(sorted)
    ensures Shows(Rendered(text, sorted, last), Escaped(Covered(text, sorted, last)))
    decreases sorted
  {
    assert Shows([], Escaped([]));
    if sorted == [] {
      ShowsEscaped(Slice(text, last, |text|));
    } else {
      var e := sorted[0];
      var gap := if e.offset > last then Slice(text, last, e.offset) else [];
      var piece := Slice(text, e.offset, e.End());
      var rest := Covered(text, sorted[1..], e.End());
      var gapHtml := if e.offset > last then EscapeHtml(gap) else [];
      ShowsEscaped(gap);
      ShowsEntity(piece, e.kind);
      ShowsCovered(text, sorted[1..], e.End());
      ShowsConcat(gapHtml, WrapEntity(piece, e.kind), Escaped(gap), Escaped(piece));
      ShowsConcat(gapHtml + WrapEntity(piece, e.kind), Rendered(text, sorted[1..], e.End()),
                  Escaped(gap) + Escaped(piece), Escaped(rest));
      EscapedConcat(gap, piece);
      EscapedConcat(gap + piece, rest);
    }
  }

  ghost predicate InBounds(text: Text, entities: seq<Entity>) {
    forall i | 0 <= i < |entities| :: 0 <= entities[i].offset && 0 <= entities[i].length && entities[i].End() <= |text|
  }

  /** No entity begins before the end of the one rendered before it. */
  ghost predicate NoOverlap(sorted: seq<Entity>, last: int)
    decreases sorted
  {
    sorted == [] || (last <= sorted[0].offset && NoOverlap(sorted[1..], sorted[0].End()))
  }

  /** Every overlap repeats text, so the pieces add up to the text exactly when there is none. */
  lemma {:induction false} CoveredIsText(text: Text, sorted: seq<Entity>, last: nat)
    requires InBounds(text, sorted) && last <= |text|
    ensures |Covered(text, sorted, last)| >= |text| - last
    ensures |Covered(text, sorted, last)| == |text| - last <==> NoOverlap(sorted, last)
    ensures NoOverlap(sorted, last) ==> Covered(text, sorted, last) == text[last..]
    decreases sorted
  {
    if sorted != [] {
      var e := sorted[0];
      CoveredIsText(text, sorted[1..], e.End());
      if last <= e.offset {
        ThreeParts(text, last, e.offset, e.End());
      }
    }
  }

  lemma {:induction false} ThreeParts(text: Text, a: nat, b: nat, c: nat)
    requires a <= b <= c <= |text|
    ensures text[a..] == text[a..b] + text[b..c] + text[c..]
    ensures a < b ==> Slice(text, a, b) == text[a..b]
    ensures Slice(text, b, c) == text[b..c]
  {
  }

  lemma {:induction false} SortedKeeps(entities: seq<Entity>)
    ensures forall e :: e in Sorted(entities) <==> e in entities
  {
    if entities != [] {
      SortedKeeps(entities[1..]);
      InsertKeeps(entities[0], Sorted(entities[1..]));
      assert entities == [entities[0]] + entities[1..];
    }
  }

  lemma {:induction false} InsertKeeps(x: Entity, sorted: seq<Entity>)
    ensures forall e :: e in InsertEntity(x, sorted) <==> e == x || e in sorted
  {
    if sorted != [] && !Before(x, sorted[0]) {
      InsertKeeps(x, sorted[1..]);
      assert sorted == [sorted[0]] + sorted[1..];
    }
  }

  lemma {:induction false} SortedSafeInBounds(text: Text, entities: seq<Entity>)
    requires InBounds(text, entities) && HarmlessLanguages(entities)
    ensures InBounds(text, Sorted(entities)) && HarmlessLanguages(Sorted(entities))
  {
    SortedKeeps(entities);
    var sorted := Sorted(entities);
    forall i | 0 <= i < |sorted|
      ensures 0 <= sorted[i].offset && 0 <= sorted[i].length && sorted[i].End() <= |text|
      ensures HarmlessKind(sorted[i].kind)
    {
      assert sorted[i] in entities;
    }
  }

  /** For entities within the text, the rendering reads back as the text exactly when no two of them overlap. */
  lemma {:induction false} ReadsBackIffNoOverlap(text: Text, entities: seq<Entity>)
    requires InBounds(text, entities) && HarmlessLanguages(entities)
    ensures ReadBack(Rendered(text, Sorted(entities), 0)) == text <==> NoOverlap(Sorted(entities), 0)
  {
    SortedSafeInBounds(text, entities);
    ShowsCovered(text, Sorted(entities), 0);
    UnescapeEscaped(Covered(text, Sorted(entities), 0));
    CoveredIsText(text, Sorted(entities), 0);
    assert text[0..] == text;
  }

  // ---- Pairwise disjoint entities ----

  predicate Apart(a: Entity, b: Entity) {
    a.End() <= b.offset || b.End() <= a.offset
  }

  ghost predicate PairwiseApart(entities: seq<Entity>) {
    entities == [] ||
    ((forall e | e in entities[1..] :: Apart(entities[0], e)) && PairwiseApart(entities[1..]))
  }

  lemma {:induction false} InsertApart(x: Entity, sorted: seq<Entity>)
    requires PairwiseApart(sorted) && forall e | e in sorted :: Apart(x, e)
    ensures PairwiseApart(InsertEntity(x, sorted))
  {
    if sorted == [] || Before(x, sorted[0]) {
      assert ([x] + sorted)[1..] == sorted;
    } else {
      assert sorted[0] in sorted;
      InsertApart(x, sorted[1..]);
      InsertKeeps(x, sorted[1..]);
      assert InsertEntity(x, sorted)[1..] == InsertEntity(x, sorted[1..]);
    }
  }

  lemma {:induction false} SortedApart(entities: seq<Entity>)
    requires PairwiseApart(entities)
    ensures PairwiseApart(Sorted(entities))
  {
    if entities != [] {
      SortedApart(entities[1..]);
      SortedKeeps(entities[1..]);
      InsertApart(entities[0], Sorted(entities[1..]));
    }
  }

  ghost predicate InOrder(sorted: seq<Entity>) {
    |sorted| <= 1 || (sorted[0].offset <= sorted[1].offset && InOrder(sorted[1..]))
  }

  lemma {:induction false} InsertInOrder(x: Entity, sorted: seq<Entity>)
    requires InOrder(sorted)
    ensures InOrder(InsertEntity(x, sorted))
  {
    if sorted == [] || Before(x, sorted[0]) {
      assert ([x] + sorted)[1..] == sorted;
    } else {
      InsertInOrder(x, sorted[1..]);
      assert InsertEntity(x, sorted)[1..] == InsertEntity(x, sorted[1..]);
    }
  }

  lemma {:induction false} SortedInOrder(entities: seq<Entity>)
    ensures InOrder(Sorted(entities))
  {
    if entities != [] {
      SortedInOrder(entities[1..]);
      InsertInOrder(entities[0], Sorted(entities[1..]));
    }
  }

  lemma {:induction false} ApartInOrder(sorted: seq<Entity>, last: int)
    requires InOrder(sorted) && PairwiseApart(sorted) && forall e | e in sorted :: e.length >= 1
    requires sorted != [] ==> last <= sorted[0].offset
    ensures NoOverlap(sorted, last)
    decreases sorted
  {
    if |sorted| > 1 {
      assert sorted[1] in sorted[1..] && sorted[1] in sorted;
      ApartInOrder(sorted[1..], sorted[0].End());
    }
  }

  /** Non-empty, pairwise disjoint entities within the text always read back. */
  lemma {:induction false} DisjointEntitiesReadBack(text: Text, entities: seq<Entity>)
    requires InBounds(text, entities) && HarmlessLanguages(entities)
    requires PairwiseApart(entities) && forall e | e in entities :: e.length >= 1
    ensures ReadBack(Rendered(text, Sorted(entities), 0)) == text
  {
    SortedApart(entities);
    SortedInOrder(entities);
    SortedKeeps(entities);
    SortedSafeInBounds(text, entities);
    ApartInOrder(Sorted(entities), 0);
    ReadsBackIffNoOverlap(text, entities);
  }

  /** A nested entity moves the cursor back: the text after it is rendered twice. */
  lemma {:induction false} NestedEntityRepeatsText(text: Text, outer: EntityKind, inner: EntityKind)
    requires |text| >= 2 && HarmlessKind(outer) && HarmlessKind(inner)
    ensures var entities := [Entity(0, |text|, outer), Entity(0, 1, inner)];
            ReadBack(Rendered(text, Sorted(entities), 0)) != text
  {
    var a, b := Entity(0, |text|, outer), Entity(0, 1, inner);
    assert Sorted([b]) == [b];
    assert [a, b][1..] == [b];
    assert Sorted([a, b]) == [a, b];
    assert !NoOverlap([b], a.End());
    ReadsBackIffNoOverlap(text, [a, b]);
  }

  // ---- Which languages read back ----

  function AfterTag(s: Text): Text {
    EscapeHtml(s) + CloseTag(NAME_CODE) + CloseTag(NAME_PRE)
  }

  lemma {:induction false} PreParts(language: Text, s: Text)
    requires language != []
    ensures Stripped(WrapEntity(s, Pre(Some(language))), InText) ==
            Stripped(LanguageTag(language), InText) + Stripped(AfterTag(s), After(LanguageTag(language), InText))
  {
    var opening, tag := OpenTag(NAME_PRE), LanguageTag(language);
    assert WrapEntity(s, Pre(Some(language))) == opening + (tag + AfterTag(s));
    ShowsTag(NAME_PRE);
    ReadConcat(opening, tag + AfterTag(s), InText);
    ReadConcat(tag, AfterTag(s), InText);
  }

  /** A tag ends in `>`, so the reader is back in the text or still in a quote. */
  lemma {:induction false} TagEndsOutside(language: Text)
    ensures After(LanguageTag(language), InText) != InTag
  {
    var front := [LT] + CODE_CLASS + [QUOTE] + (LANGUAGE + language) + [QUOTE];
    assert LanguageTag(language) == front + [GT];
    AfterConcat(front, [GT], InText);
    ReadOne(GT, After(front, InText));
  }

  lemma {:induction false} EscapedHasNoQuotes(s: Text)
    requires QUOTE !in s
    ensures QUOTE !in Escaped(s)
  {
    if s != [] {
      EscapedHasNoQuotes(s[1..]);
    }
  }

  /** Behind a language that leaves a quote open, every text without quotes disappears. */
  lemma {:induction false} OpenQuoteSwallowsText(language: Text, s: Text)
    requires language != [] && After(LanguageTag(language), InText) == InQuote && QUOTE !in s
    ensures ReadBack(WrapEntity(s, Pre(Some(language)))) == Unescape(Stripped(LanguageTag(language), InText))
  {
    EscapeIsOnePass(s);
    EscapedHasNoQuotes(s);
    ReadUnchanged(AfterTag(s), InQuote);
    PreParts(language, s);
    assert Stripped(LanguageTag(language), InText) + [] == Stripped(LanguageTag(language), InText);
  }

  /** A language that is not harmless spoils some text. */
  lemma {:induction false} HarmfulSpoils(language: Text) returns (s: Text)
    requires !Harmless(language)
    ensures ReadBack(WrapEntity(s, Pre(Some(language)))) != s
  {
    var shown := Stripped(LanguageTag(language), InText);
    TagEndsOutside(language);
    if After(LanguageTag(language), InText) == InText {
      s := [];
      ShowsEscaped(s);
      ShowsTag([SLASH] + NAME_CODE);
      ShowsTag([SLASH] + NAME_PRE);
      ShowsConcat(EscapeHtml(s), CloseTag(NAME_CODE), [], []);
      ShowsConcat(EscapeHtml(s) + CloseTag(NAME_CODE), CloseTag(NAME_PRE), [] + [], []);
      PreParts(language, s);
      assert shown + [] == shown;
    } else {
      OpenQuoteSwallowsText(language, [97]);
      OpenQuoteSwallowsText(language, [98]);
      s := if Unescape(shown) == [97] then [98] else [97];
    }
  }

  /** A code block reads back whatever its text exactly when its language is harmless. */
  lemma {:induction false} HarmlessExactly(language: Text)
    ensures Harmless(language) <==> forall s: Text :: ReadBack(WrapEntity(s, Pre(Some(language)))) == s
  {
    if Harmless(language) {
      forall s: Text
        ensures ReadBack(WrapEntity(s, Pre(Some(language)))) == s
      {
        ShowsEntity(s, Pre(Some(language)));
        UnescapeEscaped(s);
      }
    } else {
      var s := HarmfulSpoils(language);
    }
  }

  /** How the language reads inside its attribute's quotes decides: it must end there and show nothing. */
  lemma {:induction false} HarmlessIffQuoteKept(language: Text)
    requires language != []
    ensures Harmless(language) <==> After(language, InQuote) == InQuote && Stripped(language, InQuote) == []
  {
    var front, end := [LT] + CODE_CLASS + [QUOTE], [QUOTE] + [GT];
    assert LanguageTag(language) == (front + LANGUAGE) + (language + end);
    ReadAttributeHead(CODE_CLASS);
    ReadUnchanged(LANGUAGE, InQuote);
    ReadConcat(front, LANGUAGE, InText);
    ReadConcat(front + LANGUAGE, language + end, InText);
    ReadConcat(language, end, InQuote);
    ReadTagEnd(After(language, InQuote));
  }

  lemma {:induction false} ReadTagEnd(mode: Mode)
    ensures After([QUOTE] + [GT], mode) == InText && Stripped([QUOTE] + [GT], mode) == [] <==> mode == InQuote
  {
    StrippedCons(QUOTE, [GT], mode);
    ReadOne(GT, NextMode(mode, QUOTE));
  }

  /** Two quotes as language name close and open the attribute, which harms nothing. */
  lemma {:induction false} TwoQuotesAreHarmless()
    ensures Harmless([QUOTE, QUOTE])
  {
    HarmlessIffQuoteKept([QUOTE, QUOTE]);
    StrippedCons(QUOTE, [QUOTE], InQuote);
    ReadOne(QUOTE, InTag);
    assert [QUOTE] + [QUOTE] == [QUOTE, QUOTE];
  }

  /** A single quote as language name leaves a quote open and shows nothing: the text is gone. */
  lemma {:induction false} QuoteInLanguageSwallowsText(text: Text)
    requires text != [] && QUOTE !in text
    ensures ReadBack(Rendered(text, Sorted([Entity(0, |text|, Pre(Some([QUOTE])))]), 0)) == []
  {
    RenderedWhole(text, Pre(Some([QUOTE])));
    ReadBrokenAttribute();
    OpenQuoteSwallowsText([QUOTE], text);
  }

  lemma {:induction false} RenderedWhole(text: Text, kind: EntityKind)
    requires text != []
    ensures Rendered(text, Sorted([Entity(0, |text|, kind)]), 0) == WrapEntity(text, kind)
  {
    var e := Entity(0, |text|, kind);
    assert [e][1..] == [] && Sorted([e]) == [e];
    assert Slice(text, 0, |text|) == text;
    assert Rendered(text, [], |text|) == [];
  }

  lemma {:induction false} ReadBrokenAttribute()
    ensures After(LanguageTag([QUOTE]), InText) == InQuote && Stripped(LanguageTag([QUOTE]), InText) == []
  {
    var front, rest := [LT] + CODE_CLASS + [QUOTE], [QUOTE] + [QUOTE, GT];
    assert LanguageTag([QUOTE]) == (front + LANGUAGE) + rest;
    ReadAttributeHead(CODE_CLASS);
    ReadUnchanged(LANGUAGE, InQuote);
    ReadConcat(front, LANGUAGE, InText);
    ReadConcat(front + LANGUAGE, rest, InText);
    ReadTwoQuotes();
  }

  lemma {:induction false} ReadTwoQuotes()
    ensures After([QUOTE] + [QUOTE, GT], InQuote) == InQuote && Stripped([QUOTE] + [QUOTE, GT], InQuote) == []
  {
    ReadOne(GT, InQuote);
    StrippedCons(QUOTE, [GT], InTag);
    StrippedCons(QUOTE, [QUOTE, GT], InQuote);
    assert [QUOTE] + [GT] == [QUOTE, GT];
  }
}
