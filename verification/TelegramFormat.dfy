/**
 * What the rendered entities look like to a reader that keeps the tags open at each character: every
 * character of the message is shown with the formatting of its entity and no other.
 */
module TelegramFormat {
  import opened JsText
  import opened TelegramHtml
  import opened Wrappers

  // ---- A reader that keeps the open tags ----

  /** Where the reader is, what it has read of a tag, and the tags that are open. */
  datatype Reader = Reader(mode: Mode, tag: Text, open: seq<Text>)

  /** A character of the text, and the tags open around it. */
  datatype Unit = Unit(c: CodeUnit, open: seq<Text>)

  function Outside(open: seq<Text>): Reader {
    Reader(InText, [], open)
  }

  function AfterTagRead(open: seq<Text>, tag: Text): seq<Text> {
    if tag != [] && tag[0] == SLASH then (if open == [] then [] else open[..|open| - 1]) else open + [tag]
  }

  function Next(r: Reader, c: CodeUnit): Reader {
    match r.mode
    case InText => if c == LT then Reader(InTag, [], r.open) else r
    case InTag =>
      if c == GT then Outside(AfterTagRead(r.open, r.tag))
      else Reader(if c == QUOTE then InQuote else InTag, r.tag + [c], r.open)
    case InQuote => Reader(if c == QUOTE then InTag else InQuote, r.tag + [c], r.open)
  }

  function Output(r: Reader, c: CodeUnit): seq<Unit> {
    if r.mode == InText && c != LT then [Unit(c, r.open)] else []
  }

  function Ends(html: Text, r: Reader): Reader
    decreases html
  {
    if html == [] then r else Ends(html[1..], Next(r, html[0]))
  }

  function Units(html: Text, r: Reader): seq<Unit>
    decreases html
  {
    if html == [] then [] else Output(r, html[0]) + Units(html[1..], Next(r, html[0]))
  }

  lemma {:induction false} ReadFirst(c: CodeUnit, rest: Text, r: Reader)
    ensures Ends([c] + rest, r) == Ends(rest, Next(r, c))
    ensures Units([c] + rest, r) == Output(r, c) + Units(rest, Next(r, c))
  {
    assert ([c] + rest)[1..] == rest;
  }

  lemma {:induction false} Both(a: Text, b: Text, r: Reader)
    ensures Ends(a + b, r) == Ends(b, Ends(a, r))
    ensures Units(a + b, r) == Units(a, r) + Units(b, Ends(a, r))
    decreases a
  {
    if a == [] {
      assert a + b == b;
    } else {
      var c, rest := a[0], a[1..];
      var next := Next(r, c);
      assert a == [c] + rest && a + b == [c] + (rest + b);
      ReadFirst(c, rest, r);
      ReadFirst(c, rest + b, r);
      Both(rest, b, next);
      Regroup3(Output(r, c), Units(rest, next), Units(b, Ends(rest, next)));
    }
  }

  lemma {:induction false} Regroup3<T>(a: seq<T>, b: seq<T>, c: seq<T>)
    ensures a + (b + c) == a + b + c
  {
  }

  /** The text's characters, all with the same open tags. */
  function Marked(s: Text, open: seq<Text>): (r: seq<Unit>)
  {
    seq(|s|, i requires 0 <= i < |s| => Unit(s[i], open))
  }

  /** Outside tags, `html` shows these characters and leaves these tags open. */
  ghost predicate Shows(html: Text, before: seq<Text>, units: seq<Unit>, after: seq<Text>) {
    Units(html, Outside(before)) == units && Ends(html, Outside(before)) == Outside(after)
  }

  lemma {:induction false} ShowsBoth(a: Text, b: Text, before: seq<Text>, x: seq<Unit>, between: seq<Text>,
      y: seq<Unit>, after: seq<Text>)
    requires Shows(a, before, x, between) && Shows(b, between, y, after)
    ensures Shows(a + b, before, x + y, after)
  {
    Both(a, b, Outside(before));
  }

  lemma {:induction false} ShowsText(s: Text, open: seq<Text>)
    requires LT !in s
    ensures Shows(s, open, Marked(s, open), open)
  {
    if s != [] {
      ShowsText(s[1..], open);
      assert Marked(s, open) == [Unit(s[0], open)] + Marked(s[1..], open);
    }
  }

  /** Within a tag the characters are collected. */
  lemma {:induction false} Collects(s: Text, r: Reader)
    requires r.mode == InTag || r.mode == InQuote
    requires QUOTE !in s && (r.mode == InTag ==> GT !in s)
    ensures Units(s, r) == [] && Ends(s, r) == Reader(r.mode, r.tag + s, r.open)
    decreases s
  {
    if s == [] {
      assert r.tag + s == r.tag;
    } else {
      Collects(s[1..], Next(r, s[0]));
      assert r.tag + [s[0]] + s[1..] == r.tag + s;
    }
  }

  lemma {:induction false} ReadOne(c: CodeUnit, r: Reader)
    ensures Ends([c], r) == Next(r, c) && Units([c], r) == Output(r, c)
  {
    assert [c][1..] == [];
  }

  lemma {:induction false} ReadTag(body: Text, open: seq<Text>)
    requires GT !in body && QUOTE !in body
    ensures Shows([LT] + body + [GT], open, [], AfterTagRead(open, body))
  {
    var r := Outside(open);
    ReadOne(LT, r);
    Both([LT], body, r);
    Collects(body, Reader(InTag, [], open));
    assert [] + body == body;
    Both([LT] + body, [GT], r);
    ReadOne(GT, Reader(InTag, body, open));
  }

  lemma {:induction false} ReadAttribute(head: Text, value: Text, open: seq<Text>)
    requires GT !in head && QUOTE !in head && QUOTE !in value && head != [] && head[0] != SLASH
    ensures Shows(AttributeTag(head, value), open, [], open + [head + [QUOTE] + value + [QUOTE]])
  {
    var r := Outside(open);
    ReadOne(LT, r);
    Collects(head, Reader(InTag, [], open));
    assert [] + head == head;
    Both([LT], head, r);
    ReadOne(QUOTE, Reader(InTag, head, open));
    Both([LT] + head, [QUOTE], r);
    Collects(value, Reader(InQuote, head + [QUOTE], open));
    Both([LT] + head + [QUOTE], value, r);
    var tag := head + [QUOTE] + value;
    ReadOne(QUOTE, Reader(InQuote, tag, open));
    ReadOne(GT, Reader(InTag, tag + [QUOTE], open));
    Both([QUOTE], [GT], Reader(InQuote, tag, open));
    assert [QUOTE] + [GT] == [QUOTE, GT];
    Both([LT] + head + [QUOTE] + value, [QUOTE, GT], r);
  }

  lemma {:induction false} ReadClose(name: Text, open: seq<Text>, inner: Text)
    requires GT !in name && QUOTE !in name
    ensures Shows(CloseTag(name), open + [inner], [], open)
  {
    ReadTag([SLASH] + name, open + [inner]);
    assert (open + [inner])[..|open|] == open;
  }

  // ---- The formatting of an entity ----

  /** The tags around an entity's text, outermost first. */
  function Tags(kind: EntityKind): seq<Text> {
    match kind
    case Bold => [NAME_B]
    case Italic => [NAME_I]
    case Underline => [NAME_U]
    case Strikethrough => [NAME_S]
    case Code => [NAME_CODE]
    case Pre(None) => [NAME_PRE]
    case Pre(Some(language)) =>
      if language == [] then [NAME_PRE]
      else [NAME_PRE, CODE_CLASS + [QUOTE] + (LANGUAGE + language) + [QUOTE]]
    case TextLink(None) => [A_HREF + [QUOTE, QUOTE]]
    case TextLink(Some(url)) => [A_HREF + [QUOTE] + ReplaceAll(url, QUOTE, QUOT_ENTITY) + [QUOTE]]
    case Spoiler => [NAME_SPOILER]
    case Blockquote => [NAME_BLOCKQUOTE]
    case ExpandableBlockquote => [NAME_BLOCKQUOTE]
    case OtherKind => []
  }

  /** The target of a link without quotes is in its tag as it is. */
  lemma {:induction false} LinkKeepsTarget(url: Text)
    requires QUOTE !in url
    ensures Tags(TextLink(Some(url))) == [A_HREF + [QUOTE] + url + [QUOTE]]
  {
    ReplaceAllAbsent(url, QUOTE, QUOT_ENTITY);
  }

  predicate QuoteFree(kind: EntityKind) {
    kind.Pre? && kind.language.Some? ==> QUOTE !in kind.language.value
  }

  /** The escaped text, with these tags open. */
  ghost predicate ShowsAs(html: Text, s: Text, open: seq<Text>, tags: seq<Text>) {
    Shows(html, open, Marked(Escaped(s), open + tags), open)
  }

  lemma {:induction false} EscapedShown(s: Text, open: seq<Text>)
    ensures Shows(EscapeHtml(s), open, Marked(Escaped(s), open), open)
  {
    EscapeIsOnePass(s);
    EscapedHasNoTags(s);
    ShowsText(Escaped(s), open);
  }

  lemma {:induction false} Enclosed(opening: Text, tag: Text, name: Text, s: Text, open: seq<Text>)
    requires Shows(opening, open, [], open + [tag]) && GT !in name && QUOTE !in name
    ensures ShowsAs(opening + EscapeHtml(s) + CloseTag(name), s, open, [tag])
  {
    var units := Marked(Escaped(s), open + [tag]);
    EscapedShown(s, open + [tag]);
    ShowsBoth(opening, EscapeHtml(s), open, [], open + [tag], units, open + [tag]);
    ReadClose(name, open, tag);
    ShowsBoth(opening + EscapeHtml(s), CloseTag(name), open, [] + units, open + [tag], [], open);
    assert [] + units + [] == units;
  }

  lemma {:induction false} WrappedShown(name: Text, s: Text, open: seq<Text>)
    requires GT !in name && QUOTE !in name && name != [] && name[0] != SLASH
    ensures ShowsAs(Wrapped(name, EscapeHtml(s)), s, open, [name])
  {
    ReadTag(name, open);
    Enclosed(OpenTag(name), name, name, s, open);
  }

  lemma {:induction false} LinkShown(url: Option<Text>, s: Text, open: seq<Text>)
    ensures ShowsAs(WrapEntity(s, TextLink(url)), s, open, Tags(TextLink(url)))
  {
    var target := if url.Some? then url.value else [];
    var value := ReplaceAll(target, QUOTE, QUOT_ENTITY);
    NoQuotesLeft(target);
    ReadAttribute(A_HREF, value, open);
    Enclosed(AttributeTag(A_HREF, value), A_HREF + [QUOTE] + value + [QUOTE], NAME_A, s, open);
    assert url == None ==> A_HREF + [QUOTE] + value + [QUOTE] == A_HREF + [QUOTE, QUOTE];
  }

  lemma {:induction false} Nested(inner: Text, s: Text, open: seq<Text>, outer: Text, tag: Text)
    requires GT !in outer && QUOTE !in outer && outer != [] && outer[0] != SLASH
    requires ShowsAs(inner, s, open + [outer], [tag])
    ensures ShowsAs(OpenTag(outer) + inner + CloseTag(outer), s, open, [outer, tag])
  {
    var within := open + [outer];
    var units := Marked(Escaped(s), within + [tag]);
    ReadTag(outer, open);
    ShowsBoth(OpenTag(outer), inner, open, [], within, units, within);
    ReadClose(outer, open, outer);
    ShowsBoth(OpenTag(outer) + inner, CloseTag(outer), open, [] + units, within, [], open);
    assert [] + units + [] == units && within + [tag] == open + [outer, tag];
  }

  lemma {:induction false} PreShown(language: Text, s: Text, open: seq<Text>)
    requires language != [] && QUOTE !in language
    ensures ShowsAs(WrapEntity(s, Pre(Some(language))), s, open, Tags(Pre(Some(language))))
  {
    var attribute, tag := AttributeTag(CODE_CLASS, LANGUAGE + language), Tags(Pre(Some(language)))[1];
    var inner := attribute + EscapeHtml(s) + CloseTag(NAME_CODE);
    ReadAttribute(CODE_CLASS, LANGUAGE + language, open + [NAME_PRE]);
    Enclosed(attribute, tag, NAME_CODE, s, open + [NAME_PRE]);
    Nested(inner, s, open, NAME_PRE, tag);
    InnerRegroup(OpenTag(NAME_PRE), attribute, EscapeHtml(s), CloseTag(NAME_CODE), CloseTag(NAME_PRE));
  }

  lemma {:induction false} InnerRegroup(a: Text, b: Text, c: Text, d: Text, e: Text)
    ensures a + (b + c + d) + e == a + b + c + d + e
  {
  }

  /** Every character of a wrapped piece is shown with exactly its entity's tags around it. */
  lemma {:induction false} EntityShown(s: Text, kind: EntityKind, open: seq<Text>)
    requires QuoteFree(kind)
    ensures ShowsAs(WrapEntity(s, kind), s, open, Tags(kind))
  {
    match kind
    case Bold => WrappedShown(NAME_B, s, open);
    case Italic => WrappedShown(NAME_I, s, open);
    case Underline => WrappedShown(NAME_U, s, open);
    case Strikethrough => WrappedShown(NAME_S, s, open);
    case Code => WrappedShown(NAME_CODE, s, open);
    case Pre(language) =>
      if language.Some? && language.value != [] {
        PreShown(language.value, s, open);
      } else {
        WrappedShown(NAME_PRE, s, open);
      }
    case TextLink(url) => LinkShown(url, s, open);
    case Spoiler => WrappedShown(NAME_SPOILER, s, open);
    case Blockquote => WrappedShown(NAME_BLOCKQUOTE, s, open);
    case ExpandableBlockquote => WrappedShown(NAME_BLOCKQUOTE, s, open);
    case OtherKind =>
      EscapedShown(s, open);
      assert open + [] == open;
  }

  // ---- The formatting of a whole message ----

  function Repeat(tags: seq<Text>, n: nat): (r: seq<seq<Text>>)
  {
    seq(n, _ => tags)
  }

  /** The text, escaped, each character with its own tags. */
  function Spread(s: Text, styles: seq<seq<Text>>): seq<Unit>
    requires |styles| == |s|
  {
    if s == [] then [] else Marked(EscapeUnit(s[0]), styles[0]) + Spread(s[1..], styles[1..])
  }

  lemma {:induction false} MarkedConcat(a: Text, b: Text, open: seq<Text>)
    ensures Marked(a + b, open) == Marked(a, open) + Marked(b, open)
  {
  }

  lemma {:induction false} SpreadAlike(s: Text, tags: seq<Text>)
    ensures Spread(s, Repeat(tags, |s|)) == Marked(Escaped(s), tags)
  {
    if s != [] {
      SpreadAlike(s[1..], tags);
      assert Repeat(tags, |s|)[1..] == Repeat(tags, |s| - 1);
      MarkedConcat(EscapeUnit(s[0]), Escaped(s[1..]), tags);
    }
  }

  lemma {:induction false} SpreadConcat(a: Text, b: Text, x: seq<seq<Text>>, y: seq<seq<Text>>)
    requires |x| == |a| && |y| == |b|
    ensures Spread(a + b, x + y) == Spread(a, x) + Spread(b, y)
  {
    if a == [] {
      assert a + b == b && x + y == y;
    } else {
      assert (a + b)[1..] == a[1..] + b && (x + y)[1..] == x[1..] + y;
      SpreadConcat(a[1..], b, x[1..], y);
      Regroup3(Marked(EscapeUnit(a[0]), x[0]), Spread(a[1..], x[1..]), Spread(b, y));
    }
  }

  ghost predicate Placed(sorted: seq<Entity>, last: nat, length: nat)
    decreases sorted
  {
    if sorted == [] then last <= length
    else last <= sorted[0].offset <= sorted[0].End() && Placed(sorted[1..], sorted[0].End(), length)
  }

  /** The tags of every character from `last` on: those of its entity, or none. */
  ghost function Styles(sorted: seq<Entity>, last: nat, length: nat): (r: seq<seq<Text>>)
    requires Placed(sorted, last, length)
    ensures last <= length && |r| == length - last
    decreases sorted
  {
    if sorted == [] then Repeat([], length - last)
    else
      var e := sorted[0];
      var rest := Styles(sorted[1..], e.End(), length);
      Repeat([], e.offset - last) + Repeat(Tags(e.kind), e.length) + rest
  }

  ghost predicate QuoteFreeKinds(entities: seq<Entity>) {
    forall i | 0 <= i < |entities| :: QuoteFree(entities[i].kind)
  }

  lemma {:induction false} GapShown(text: Text, last: nat, e: Entity)
    requires last <= e.offset <= e.End() <= |text|
    ensures Shows(Gap(text, last, e), [], Spread(text[last..e.offset], Repeat([], e.offset - last)), [])
  {
    var gap := text[last..e.offset];
    SpreadAlike(gap, []);
    if e.offset > last {
      assert Slice(text, last, e.offset) == gap;
      EscapedShown(gap, []);
    } else {
      assert gap == [] && Marked(Escaped([]), []) == [];
    }
  }

  lemma {:induction false} PieceShown(text: Text, e: Entity)
    requires 0 <= e.offset <= e.End() <= |text| && QuoteFree(e.kind)
    ensures Shows(Piece(text, e), [], Spread(text[e.offset..e.End()], Repeat(Tags(e.kind), e.length)), [])
  {
    var piece := text[e.offset..e.End()];
    SpreadAlike(piece, Tags(e.kind));
    assert Slice(text, e.offset, e.End()) == piece;
    EntityShown(piece, e.kind, []);
    assert [] + Tags(e.kind) == Tags(e.kind);
  }

  /** A text and its styles, shown by some html. */
  ghost predicate ShowsStyled(html: Text, s: Text, styles: seq<seq<Text>>) {
    |styles| == |s| && Shows(html, [], Spread(s, styles), [])
  }

  lemma {:induction false} StyledBoth(a: Text, b: Text, s: Text, t: Text, x: seq<seq<Text>>, y: seq<seq<Text>>)
    requires ShowsStyled(a, s, x) && ShowsStyled(b, t, y)
    ensures ShowsStyled(a + b, s + t, x + y)
  {
    ShowsBoth(a, b, [], Spread(s, x), [], Spread(t, y), []);
    SpreadConcat(s, t, x, y);
  }

  lemma {:induction false} LastGapShown(text: Text, last: nat)
    requires last <= |text|
    ensures ShowsStyled(Rendered(text, [], last), text[last..], Repeat([], |text| - last))
  {
    SpreadAlike(text[last..], []);
    EscapedShown(text[last..], []);
    if last < |text| {
      assert Slice(text, last, |text|) == text[last..];
    } else {
      assert text[last..] == [] && Marked(Escaped([]), []) == [];
    }
  }

  lemma {:induction false} RestShown(text: Text, sorted: seq<Entity>, last: nat)
    requires Placed(sorted, last, |text|) && QuoteFreeKinds(sorted)
    ensures last <= |text| && ShowsStyled(Rendered(text, sorted, last), text[last..], Styles(sorted, last, |text|))
    decreases sorted
  {
    if sorted == [] {
      LastGapShown(text, last);
    } else {
      var e := sorted[0];
      RestShown(text, sorted[1..], e.End());
      OneEntityShown(text, e, last, Rendered(text, sorted[1..], e.End()), Styles(sorted[1..], e.End(), |text|));
    }
  }

  lemma {:induction false} OneEntityShown(text: Text, e: Entity, last: nat, rest: Text, styles: seq<seq<Text>>)
    requires last <= e.offset <= e.End() <= |text| && QuoteFree(e.kind)
    requires ShowsStyled(rest, text[e.End()..], styles)
    ensures ShowsStyled(Gap(text, last, e) + Piece(text, e) + rest, text[last..],
                        Repeat([], e.offset - last) + Repeat(Tags(e.kind), e.length) + styles)
  {
    var a, b := text[last..e.offset], text[e.offset..e.End()];
    var x, y := Repeat([], e.offset - last), Repeat(Tags(e.kind), e.length);
    GapShown(text, last, e);
    PieceShown(text, e);
    StyledBoth(Gap(text, last, e), Piece(text, e), a, b, x, y);
    StyledBoth(Gap(text, last, e) + Piece(text, e), rest, a + b, text[e.End()..], x + y, styles);
    ThreeParts(text, last, e.offset, e.End());
  }

  /** The tags of the character at `p` are those of the entity that contains it. */
  lemma {:induction false} StyleAt(sorted: seq<Entity>, last: nat, length: nat, p: nat)
    requires Placed(sorted, last, length) && last <= p < length
    ensures forall e | e in sorted && e.offset <= p < e.End() :: Styles(sorted, last, length)[p - last] == Tags(e.kind)
    ensures (forall e | e in sorted :: !(e.offset <= p < e.End())) ==> Styles(sorted, last, length)[p - last] == []
    decreases sorted
  {
    if sorted != [] {
      var e, rest := sorted[0], sorted[1..];
      assert sorted == [e] + rest;
      LaterEntities(rest, e.End(), length);
      if p >= e.End() {
        StyleAt(rest, e.End(), length, p);
      }
    }
  }

  lemma {:induction false} LaterEntities(sorted: seq<Entity>, last: nat, length: nat)
    requires Placed(sorted, last, length)
    ensures last <= length && forall e | e in sorted :: last <= e.offset && e.End() <= length
    decreases sorted
  {
    if sorted != [] {
      LaterEntities(sorted[1..], sorted[0].End(), length);
    }
  }

  lemma {:induction false} InBoundsPlaced(text: Text, sorted: seq<Entity>, last: nat)
    requires InBounds(text, sorted) && NoOverlap(sorted, last) && last <= |text|
    ensures Placed(sorted, last, |text|)
    decreases sorted
  {
    if sorted != [] {
      InBoundsPlaced(text, sorted[1..], sorted[0].End());
    }
  }

  /** Each character has the tags of its entity, and none outside entities. */
  ghost predicate Styled(entities: seq<Entity>, styles: seq<seq<Text>>) {
    forall p | 0 <= p < |styles| ::
      && (forall e | e in entities && e.offset <= p < e.End() :: styles[p] == Tags(e.kind))
      && ((forall e | e in entities :: !(e.offset <= p < e.End())) ==> styles[p] == [])
  }

  /**
   * Non-empty, pairwise disjoint entities within the text: the rendering shows every character of the text in
   * order, each with exactly the formatting and link of its entity, and leaves no tag open.
   */
  lemma {:induction false} FormattingKept(text: Text, entities: seq<Entity>)
    requires InBounds(text, entities) && QuoteFreeKinds(entities)
    requires PairwiseApart(entities) && forall e | e in entities :: e.length >= 1
    ensures exists styles :: |styles| == |text| && Styled(entities, styles)
                             && ShowsStyled(Rendered(text, Sorted(entities), 0), text, styles)
  {
    var sorted := Sorted(entities);
    SortedApart(entities);
    SortedInOrder(entities);
    SortedKeeps(entities);
    assert InBounds(text, sorted) && QuoteFreeKinds(sorted) by {
      forall i | 0 <= i < |sorted|
        ensures 0 <= sorted[i].offset && 0 <= sorted[i].length && sorted[i].End() <= |text| && QuoteFree(sorted[i].kind)
      {
        assert sorted[i] in entities;
      }
    }
    ApartInOrder(sorted, 0);
    InBoundsPlaced(text, sorted, 0);
    RestShown(text, sorted, 0);
    assert text[0..] == text;
    var styles := Styles(sorted, 0, |text|);
    forall p | 0 <= p < |styles|
      ensures forall e | e in entities && e.offset <= p < e.End() :: styles[p] == Tags(e.kind)
      ensures (forall e | e in entities :: !(e.offset <= p < e.End())) ==> styles[p] == []
    {
      StyleAt(sorted, 0, |text|, p);
    }
    assert Styled(entities, styles);
  }
}
