/**
 * The list of calls that sends a message: all texts joined and cut to size, and with the last
 * piece all files and all rows of buttons.
 */
module DiscordPlan {
  import opened ActionIds
  import opened Blocks
  import opened JsText
  import opened Numerals
  import opened Selections
  import opened Wrappers

  datatype FileData = FileData(url: Text, filename: Text)

  datatype ButtonData = ButtonData(style: int, caption: Text, customId: Text)

  datatype Base = Base(threadId: Option<Text>, replyTo: Option<Text>)

  datatype Call = Call(content: Text, files: seq<FileData>, components: seq<seq<ButtonData>>, base: Base)

  const MAX_CONTENT_LENGTH: nat := 2000

  const ROW: nat := 5

  /** "image.png" */
  const IMAGE_PNG: Text := [105, 109, 97, 103, 101, 46, 112, 110, 103]

  function MapButtonStyle(style: Option<Style>): int {
    match style
    case Some(Primary) => 1
    case Some(Danger) => 4
    case _ => 2
  }

  function Buttons(specs: seq<ButtonSpec>): (r: seq<ButtonData>)
  {
    seq(|specs|, i requires 0 <= i < |specs| =>
      ButtonData(MapButtonStyle(specs[i].style), specs[i].caption, ActionId(specs[i].action, i)))
  }

  function Flatten(rows: seq<seq<ButtonData>>): seq<ButtonData> {
    if rows == [] then [] else Flatten(rows[..|rows| - 1]) + rows[|rows| - 1]
  }

  lemma {:induction false} FlattenAppend(a: seq<seq<ButtonData>>, b: seq<seq<ButtonData>>)
    ensures Flatten(a + b) == Flatten(a) + Flatten(b)
  {
    if b == [] {
      assert a + b == a;
    } else {
      FlattenAppend(a, b[..|b| - 1]);
      assert (a + b)[..|a + b| - 1] == a + b[..|b| - 1];
    }
  }

  /** Buttons in rows of five, the last row with the rest. */
  function RowsFrom(buttons: seq<ButtonData>): seq<seq<ButtonData>> {
    if buttons == [] then []
    else if |buttons| <= ROW then [buttons]
    else [buttons[..ROW]] + RowsFrom(buttons[ROW..])
  }

  function RowsAfter(buttons: seq<ButtonData>, i: nat): seq<seq<ButtonData>> {
    if i < |buttons| then RowsFrom(buttons[i..]) else []
  }

  function RowAt(buttons: seq<ButtonData>, i: nat): seq<ButtonData>
    requires i < |buttons|
  {
    buttons[i..if i + ROW <= |buttons| then i + ROW else |buttons|]
  }

  lemma {:induction false} RowsStep(buttons: seq<ButtonData>, i: nat)
    requires i < |buttons|
    ensures RowsAfter(buttons, i) == [RowAt(buttons, i)] + RowsAfter(buttons, i + ROW)
  {
    var rest := buttons[i..];
    if |rest| > ROW {
      assert rest[..ROW] == buttons[i..i + ROW] && rest[ROW..] == buttons[i + ROW..];
    } else {
      assert rest == buttons[i..|buttons|];
    }
  }

  lemma {:induction false} RowsGrow(buttons: seq<ButtonData>, rows: seq<seq<ButtonData>>, i: nat)
    requires i < |buttons| && RowsFrom(buttons) == rows + RowsAfter(buttons, i)
    ensures RowsFrom(buttons) == (rows + [RowAt(buttons, i)]) + RowsAfter(buttons, i + ROW)
  {
    RowsStep(buttons, i);
    var row, rest := [RowAt(buttons, i)], RowsAfter(buttons, i + ROW);
    assert rows + (row + rest) == (rows + row) + rest;
  }

  method MakeRows(buttons: seq<ButtonData>) returns (rows: seq<seq<ButtonData>>)
    ensures rows == RowsFrom(buttons)
  {
    rows := [];
    var i := 0;
    while i < |buttons|
      invariant 0 <= i && RowsFrom(buttons) == rows + RowsAfter(buttons, i)
    {
      RowsGrow(buttons, rows, i);
      var end := if i + ROW <= |buttons| then i + ROW else |buttons|;
      rows := rows + [buttons[i..end]];
      i := i + ROW;
    }
  }

  /** Rows keep the buttons in order; none is empty or longer than five, and all but the last are full. */
  lemma {:induction false} RowsKeepButtons(buttons: seq<ButtonData>, i: nat)
    ensures Flatten(RowsFrom(buttons)) == buttons
    ensures i < |RowsFrom(buttons)| ==> 1 <= |RowsFrom(buttons)[i]| <= ROW
    ensures i + 1 < |RowsFrom(buttons)| ==> |RowsFrom(buttons)[i]| == ROW
  {
    if |buttons| > ROW {
      RowsKeepButtons(buttons[ROW..], if i > 0 then i - 1 else 0);
      FlattenAppend([buttons[..ROW]], RowsFrom(buttons[ROW..]));
    }
  }

  // ---- What has to be sent ----

  /**
   * The texts, each on a new line; a text is not preceded by a line break while nothing but empty texts came
   * before.
   */
  function CombinedText(blocks: seq<Block>): Text {
    if blocks == [] then []
    else
      var before, last := CombinedText(blocks[..|blocks| - 1]), blocks[|blocks| - 1];
      if last.TextBlock? then before + (if before != [] then [NEWLINE] else []) + last.content else before
  }

  function FilesOf(blocks: seq<Block>): seq<FileData> {
    if blocks == [] then []
    else
      FilesOf(blocks[..|blocks| - 1]) +
      match blocks[|blocks| - 1]
      case ImageBlock(url, alt) => [FileData(url, if alt.Some? then alt.value else IMAGE_PNG)]
      case FileBlock(url, filename) => [FileData(url, filename)]
      case _ => []
  }

  function ButtonsOf(blocks: seq<Block>): seq<ButtonData> {
    if blocks == [] then []
    else ButtonsOf(blocks[..|blocks| - 1]) +
         if blocks[|blocks| - 1].ButtonBlock? then Buttons(blocks[|blocks| - 1].buttons) else []
  }

  function RowsOf(blocks: seq<Block>): seq<seq<ButtonData>> {
    if blocks == [] then []
    else RowsOf(blocks[..|blocks| - 1]) +
         if blocks[|blocks| - 1].ButtonBlock? then RowsFrom(Buttons(blocks[|blocks| - 1].buttons)) else []
  }

  /** All buttons of all blocks are in the rows, in order. */
  lemma {:induction false} RowsOfKeepButtons(blocks: seq<Block>)
    ensures Flatten(RowsOf(blocks)) == ButtonsOf(blocks)
  {
    if blocks != [] {
      var before, last := blocks[..|blocks| - 1], blocks[|blocks| - 1];
      RowsOfKeepButtons(before);
      if last.ButtonBlock? {
        RowsKeepButtons(Buttons(last.buttons), 0);
        FlattenAppend(RowsOf(before), RowsFrom(Buttons(last.buttons)));
      } else {
        assert RowsOf(blocks) == RowsOf(before) && ButtonsOf(blocks) == ButtonsOf(before);
      }
    }
  }

  lemma {:induction false} RowsOfFit(blocks: seq<Block>, i: nat)
    requires i < |RowsOf(blocks)|
    ensures 1 <= |RowsOf(blocks)[i]| <= ROW
  {
    var before, last := blocks[..|blocks| - 1], blocks[|blocks| - 1];
    if i < |RowsOf(before)| {
      RowsOfFit(before, i);
    } else {
      assert last.ButtonBlock? && RowsOf(blocks)[i] == RowsFrom(Buttons(last.buttons))[i - |RowsOf(before)|];
      RowsKeepButtons(Buttons(last.buttons), i - |RowsOf(before)|);
    }
  }

  // ---- What has to be sent, said block by block ----

  predicate IsFile(b: Block) {
    b.ImageBlock? || b.FileBlock?
  }

  predicate IsText(b: Block) {
    b.TextBlock?
  }

  /** The file has the block's url, and its name or description. */
  predicate FileSends(f: FileData, b: Block) {
    match b
    case ImageBlock(url, alt) => f.url == url && f.filename == if alt.Some? then alt.value else IMAGE_PNG
    case FileBlock(url, filename) => f.url == url && f.filename == filename
    case _ => false
  }

  /** The files are those of the image and file blocks, one each, in order. */
  ghost predicate SendsFiles(files: seq<FileData>, blocks: seq<Block>) {
    exists at :: Selects(blocks, at, IsFile) && SendsFilesAt(files, blocks, at)
  }

  ghost predicate SendsFilesAt(files: seq<FileData>, blocks: seq<Block>, at: seq<nat>) {
    |files| == |at| && forall k | 0 <= k < |at| :: at[k] < |blocks| && FileSends(files[k], blocks[at[k]])
  }

  function FileOf(b: Block): seq<FileData> {
    match b
    case ImageBlock(url, alt) => [FileData(url, if alt.Some? then alt.value else IMAGE_PNG)]
    case FileBlock(url, filename) => [FileData(url, filename)]
    case _ => []
  }

  lemma {:induction false} FilesOfAppend(xs: seq<Block>, ys: seq<Block>)
    ensures FilesOf(xs + ys) == FilesOf(xs) + FilesOf(ys)
  {
    if ys == [] {
      assert xs + ys == xs;
    } else {
      var fewer, last := ys[..|ys| - 1], ys[|ys| - 1];
      FilesOfAppend(xs, fewer);
      FilesOfInit(xs + fewer, last);
      FilesOfInit(fewer, last);
      assert xs + ys == (xs + fewer) + [last] && ys == fewer + [last];
      var more := FilesOf([last]);
      assert (FilesOf(xs) + FilesOf(fewer)) + more == FilesOf(xs) + (FilesOf(fewer) + more);
    }
  }

  lemma {:induction false} FilesOfInit(xs: seq<Block>, b: Block)
    ensures FilesOf(xs + [b]) == FilesOf(xs) + FilesOf([b])
  {
    assert (xs + [b])[..|xs|] == xs && [b][..0] == [];
  }

  lemma {:induction false} FilesOfCons(b: Block, rest: seq<Block>)
    ensures FilesOf([b] + rest) == FileOf(b) + FilesOf(rest)
  {
    assert [b][..0] == [];
    FilesOfAppend([b], rest);
  }

  lemma {:induction false} FilesOfFront(blocks: seq<Block>)
    requires blocks != []
    ensures FilesOf(blocks) == FileOf(blocks[0]) + FilesOf(blocks[1..])
  {
    assert blocks == [blocks[0]] + blocks[1..];
    FilesOfCons(blocks[0], blocks[1..]);
  }

  lemma {:induction false} NoFiles()
    ensures SendsFiles([], [])
  {
    assert Selects([], [], IsFile) && SendsFilesAt([], [], []);
  }

  lemma {:induction false} FilesOfSends(blocks: seq<Block>)
    ensures SendsFiles(FilesOf(blocks), blocks)
  {
    if blocks == [] {
      NoFiles();
    } else {
      FilesOfSends(blocks[1..]);
      SendsMoreFiles(FilesOf(blocks[1..]), blocks);
      FilesOfFront(blocks);
    }
  }

  lemma {:induction false} SendsMoreFiles(files: seq<FileData>, blocks: seq<Block>)
    requires blocks != [] && SendsFiles(files, blocks[1..])
    ensures SendsFiles(FileOf(blocks[0]) + files, blocks)
  {
    var at :| Selects(blocks[1..], at, IsFile) && SendsFilesAt(files, blocks[1..], at);
    SelectsCons(blocks, at, IsFile);
    SendsFilesCons(files, blocks, at);
  }

  lemma {:induction false} SendsFilesCons(files: seq<FileData>, blocks: seq<Block>, at: seq<nat>)
    requires blocks != [] && SendsFilesAt(files, blocks[1..], at)
    ensures SendsFilesAt(FileOf(blocks[0]) + files, blocks, Behind(blocks[0], at, IsFile))
  {
    assert forall k | 0 <= k < |at| :: blocks[OneLater(at)[k]] == blocks[1..][at[k]];
  }

  lemma {:induction false} FilesOfCoalesced(blocks: seq<Block>)
    ensures FilesOf(Coalesced(blocks)) == FilesOf(blocks)
  {
    if blocks != [] {
      var rest := Coalesced(blocks[1..]);
      FilesOfCoalesced(blocks[1..]);
      assert blocks == [blocks[0]] + blocks[1..];
      FilesOfCons(blocks[0], blocks[1..]);
      FilesOfCons(blocks[0], rest);
      if blocks[0].TextBlock? && rest != [] && rest[0].TextBlock? {
        assert rest == [rest[0]] + rest[1..];
        FilesOfCons(rest[0], rest[1..]);
        FilesOfCons(TextBlock(blocks[0].content + [NEWLINE] + rest[0].content), rest[1..]);
      }
    }
  }

  /** The texts are those of the text blocks, in order. */
  ghost predicate AreTexts(texts: seq<Text>, blocks: seq<Block>) {
    exists at :: Selects(blocks, at, IsText) && TextsAt(texts, blocks, at)
  }

  ghost predicate TextsAt(texts: seq<Text>, blocks: seq<Block>, at: seq<nat>) {
    |texts| == |at| &&
    forall k | 0 <= k < |at| :: at[k] < |blocks| && blocks[at[k]].TextBlock? && blocks[at[k]].content == texts[k]
  }

  function Texts(blocks: seq<Block>): seq<Text> {
    if blocks == [] then []
    else (if blocks[0].TextBlock? then [blocks[0].content] else []) + Texts(blocks[1..])
  }

  lemma {:induction false} TextsAreTexts(blocks: seq<Block>)
    ensures AreTexts(Texts(blocks), blocks)
  {
    if blocks == [] {
      assert Selects(blocks, [], IsText) && TextsAt([], blocks, []);
    } else {
      TextsAreTexts(blocks[1..]);
      var at :| Selects(blocks[1..], at, IsText) && TextsAt(Texts(blocks[1..]), blocks[1..], at);
      SelectsCons(blocks, at, IsText);
      TextsAtCons(Texts(blocks[1..]), blocks, at);
    }
  }

  lemma {:induction false} TextsAtCons(texts: seq<Text>, blocks: seq<Block>, at: seq<nat>)
    requires blocks != [] && TextsAt(texts, blocks[1..], at)
    ensures TextsAt((if blocks[0].TextBlock? then [blocks[0].content] else []) + texts, blocks,
                    Behind(blocks[0], at, IsText))
  {
    assert forall k | 0 <= k < |at| :: blocks[OneLater(at)[k]] == blocks[1..][at[k]];
  }

  lemma {:induction false} JoinMerged(a: Text, b: Text, rest: seq<Text>)
    ensures Join([a + [NEWLINE] + b] + rest, NEWLINE) == a + [NEWLINE] + Join([b] + rest, NEWLINE)
  {
    JoinCons(a + [NEWLINE] + b, rest, NEWLINE);
    JoinCons(b, rest, NEWLINE);
    if rest != [] {
      var tail := Join(rest, NEWLINE);
      assert a + [NEWLINE] + (b + [NEWLINE] + tail) == a + [NEWLINE] + b + [NEWLINE] + tail;
    }
  }

  lemma {:induction false} TextsCons(b: Block, rest: seq<Block>)
    ensures Texts([b] + rest) == (if b.TextBlock? then [b.content] else []) + Texts(rest)
  {
    assert ([b] + rest)[1..] == rest;
  }

  /** Coalescing keeps what all texts, joined line by line, make up. */
  lemma {:induction false} TextsCoalesced(blocks: seq<Block>)
    ensures Join(Texts(Coalesced(blocks)), NEWLINE) == Join(Texts(blocks), NEWLINE)
    ensures Texts(Coalesced(blocks)) == [] <==> Texts(blocks) == []
    ensures Texts(blocks) != [] && Texts(blocks)[0] != [] ==> Texts(Coalesced(blocks))[0] != []
  {
    if blocks != [] {
      TextsCoalesced(blocks[1..]);
      TextsMerged(blocks[0], Coalesced(blocks[1..]), Texts(blocks[1..]));
    }
  }

  lemma {:induction false} TextsMerged(b: Block, rest: seq<Block>, texts: seq<Text>)
    requires Join(Texts(rest), NEWLINE) == Join(texts, NEWLINE) && (Texts(rest) == [] <==> texts == [])
    requires texts != [] && texts[0] != [] ==> Texts(rest)[0] != []
    ensures var (now, all) := (Texts(Merge(b, rest)), (if b.TextBlock? then [b.content] else []) + texts);
            && Join(now, NEWLINE) == Join(all, NEWLINE) && (now == [] <==> all == [])
            && (all != [] && all[0] != [] ==> now[0] != [])
  {
    TextsCons(b, rest);
    assert [] + texts == texts && [] + Texts(rest) == Texts(rest);
    if b.TextBlock? {
      JoinCons(b.content, texts, NEWLINE);
      JoinCons(b.content, Texts(rest), NEWLINE);
      if rest != [] && rest[0].TextBlock? {
        assert rest == [rest[0]] + rest[1..];
        TextsCons(rest[0], rest[1..]);
        TextsCons(TextBlock(b.content + [NEWLINE] + rest[0].content), rest[1..]);
        JoinMerged(b.content, rest[0].content, Texts(rest[1..]));
      }
    }
  }

  lemma {:induction false} JoinAppend(texts: seq<Text>, t: Text)
    ensures Join(texts + [t], NEWLINE) == if texts == [] then t else Join(texts, NEWLINE) + [NEWLINE] + t
  {
    if texts == [] {
      assert texts + [t] == [t];
    } else {
      assert (texts + [t])[1..] == texts[1..] + [t];
      JoinAppend(texts[1..], t);
    }
  }

  lemma {:induction false} TextsAppend(blocks: seq<Block>, b: Block)
    ensures Texts(blocks + [b]) == Texts(blocks) + if b.TextBlock? then [b.content] else []
  {
    if blocks == [] {
      assert blocks + [b] == [b];
      TextsCons(b, []);
    } else {
      var first, rest := if blocks[0].TextBlock? then [blocks[0].content] else [], Texts(blocks[1..]);
      assert blocks + [b] == [blocks[0]] + (blocks[1..] + [b]);
      TextsCons(blocks[0], blocks[1..] + [b]);
      TextsAppend(blocks[1..], b);
      var last := if b.TextBlock? then [b.content] else [];
      assert first + (rest + last) == (first + rest) + last;
    }
  }

  predicate LineBreaks(s: Text) {
    forall i | 0 <= i < |s| :: s[i] == NEWLINE
  }

  lemma {:induction false} LeadKept(lead: Text, combined: Text, content: Text)
    ensures lead + combined + [NEWLINE] + content == lead + (combined + [NEWLINE] + content)
    ensures combined == [] ==> lead + combined + [NEWLINE] + content == (lead + [NEWLINE]) + content
  {
  }

  /** The combined text is the joined texts, but for the line breaks after empty texts at the start. */
  lemma {:induction false} CombinedIsJoined(blocks: seq<Block>) returns (lead: Text)
    ensures Join(Texts(blocks), NEWLINE) == lead + CombinedText(blocks) && LineBreaks(lead)
    ensures Texts(blocks) != [] && Texts(blocks)[0] != [] ==> lead == [] && CombinedText(blocks) != []
  {
    lead := [];
    if blocks != [] {
      var before, last := blocks[..|blocks| - 1], blocks[|blocks| - 1];
      lead := CombinedIsJoined(before);
      assert blocks == before + [last];
      TextsAppend(before, last);
      var texts, combined := Texts(before), CombinedText(before);
      if !last.TextBlock? {
        assert texts + [] == texts;
      } else {
        JoinAppend(texts, last.content);
        LeadKept(lead, combined, last.content);
        if combined == [] && texts != [] {
          lead := lead + [NEWLINE];
        }
      }
    }
  }

  /**
   * The pieces, with white space between them, are all texts of the blocks in order, each on a new line; only line
   * breaks after empty texts at the start are left out.
   */
  ghost predicate ReadsAsTexts(pieces: seq<Text>, blocks: seq<Block>) {
    exists texts: seq<Text>, lead: Text, gaps: seq<Text> ::
      AreTexts(texts, blocks) && ReadsAs(pieces, texts, lead, gaps)
  }

  ghost predicate ReadsAs(pieces: seq<Text>, texts: seq<Text>, lead: Text, gaps: seq<Text>) {
    && LineBreaks(lead) && (texts != [] && texts[0] != [] ==> lead == [])
    && GapsFor(pieces, gaps)
    && Join(texts, NEWLINE) == lead + Interleave(pieces, gaps)
    && (pieces != [] ==> SplitInto(Interleave(pieces, gaps), MAX_CONTENT_LENGTH, pieces, gaps))
  }

  ghost predicate GapsFor(pieces: seq<Text>, gaps: seq<Text>) {
    |gaps| == |pieces| && forall i | 0 <= i < |gaps| :: AllWhitespace(gaps[i])
  }

  lemma {:induction false} PiecesReadAsTexts(pieces: seq<Text>, blocks: seq<Block>, gaps: seq<Text>)
    requires GapsFor(pieces, gaps) && Interleave(pieces, gaps) == CombinedText(Coalesced(blocks))
    requires pieces != [] ==> SplitInto(CombinedText(Coalesced(blocks)), MAX_CONTENT_LENGTH, pieces, gaps)
    ensures ReadsAsTexts(pieces, blocks)
  {
    TextsAreTexts(blocks);
    TextsCoalesced(blocks);
    var lead := CombinedIsJoined(Coalesced(blocks));
    assert ReadsAs(pieces, Texts(blocks), lead, gaps);
  }

  ghost predicate ButtonAt(blocks: seq<Block>, i: int, x: int) {
    0 <= i < |blocks| && blocks[i].ButtonBlock? && 0 <= x < |blocks[i].buttons|
  }

  /** The button has its caption, the identifier of its action and index, and the number of its style. */
  predicate ButtonSends(d: ButtonData, spec: ButtonSpec, x: nat) {
    && d.caption == spec.caption
    && d.customId == spec.action + [UNDERSCORE] + Decimal(x)
    && d.style == match spec.style {
                    case Some(Primary) => 1
                    case Some(Danger) => 4
                    case Some(Secondary) => 2
                    case None => 2
                  }
  }

  predicate Earlier(p: (nat, nat), q: (nat, nat)) {
    p.0 < q.0 || (p.0 == q.0 && p.1 < q.1)
  }

  ghost predicate SentFor(d: ButtonData, blocks: seq<Block>, p: (nat, nat)) {
    ButtonAt(blocks, p.0, p.1) && ButtonSends(d, blocks[p.0].buttons[p.1], p.1)
  }

  ghost predicate ButtonsAt(buttons: seq<ButtonData>, blocks: seq<Block>, at: seq<(nat, nat)>) {
    && |buttons| == |at|
    && (forall k, l | 0 <= k < l < |at| :: Earlier(at[k], at[l]))
    && (forall k | 0 <= k < |at| :: SentFor(buttons[k], blocks, at[k]))
    && (forall i: nat, x: nat | ButtonAt(blocks, i, x) :: (i, x) in at)
  }

  /** The buttons are those of the blocks, one each, in order. */
  ghost predicate ShowsButtons(buttons: seq<ButtonData>, blocks: seq<Block>) {
    exists at :: ButtonsAt(buttons, blocks, at)
  }

  function Places(n: nat, count: nat): (r: seq<(nat, nat)>)
  {
    seq(count, x => (n, x))
  }

  lemma {:induction false} PlacesAll(blocks: seq<Block>, at: seq<(nat, nat)>)
    requires blocks != [] && forall i: nat, x: nat | ButtonAt(blocks[..|blocks| - 1], i, x) :: (i, x) in at
    ensures var n := |blocks| - 1;
            var more := if blocks[n].ButtonBlock? then Places(n, |blocks[n].buttons|) else [];
            forall i: nat, x: nat | ButtonAt(blocks, i, x) :: (i, x) in at + more
  {
    var n := |blocks| - 1;
    var more := if blocks[n].ButtonBlock? then Places(n, |blocks[n].buttons|) else [];
    forall i: nat, x: nat | ButtonAt(blocks, i, x) ensures (i, x) in at + more {
      if i < n {
        assert ButtonAt(blocks[..n], i, x);
      } else {
        assert more[x] == (i, x);
      }
    }
  }

  lemma {:induction false} EarlierBlocks(at: seq<(nat, nat)>, n: nat, count: nat)
    requires forall k, l | 0 <= k < l < |at| :: Earlier(at[k], at[l])
    requires forall k | 0 <= k < |at| :: at[k].0 < n
    ensures var all := at + Places(n, count);
            forall k, l | 0 <= k < l < |all| :: Earlier(all[k], all[l])
  {
  }

  lemma {:induction false} ButtonsAtInit(buttons: seq<ButtonData>, blocks: seq<Block>, at: seq<(nat, nat)>)
    requires blocks != [] && ButtonsAt(buttons, blocks[..|blocks| - 1], at)
    ensures var last := blocks[|blocks| - 1];
            ButtonsAt(buttons + (if last.ButtonBlock? then Buttons(last.buttons) else []), blocks,
                      at + if last.ButtonBlock? then Places(|blocks| - 1, |last.buttons|) else [])
  {
    var n := |blocks| - 1;
    PlacesAll(blocks, at);
    forall k | 0 <= k < |at| ensures SentFor(buttons[k], blocks, at[k]) && at[k].0 < n {
      SentBefore(buttons[k], blocks, at[k]);
    }
    if blocks[n].ButtonBlock? {
      EarlierBlocks(at, n, |blocks[n].buttons|);
      LastSent(blocks);
      AtConcat(buttons, at, Buttons(blocks[n].buttons), Places(n, |blocks[n].buttons|), blocks);
    } else {
      assert buttons + [] == buttons && at + [] == at;
    }
  }

  lemma {:induction false} LastSent(blocks: seq<Block>)
    requires blocks != [] && blocks[|blocks| - 1].ButtonBlock?
    ensures var n := |blocks| - 1;
            var more, places := Buttons(blocks[n].buttons), Places(n, |blocks[n].buttons|);
            forall x | 0 <= x < |more| :: SentFor(more[x], blocks, places[x])
  {
  }

  lemma {:induction false} SentBefore(d: ButtonData, blocks: seq<Block>, p: (nat, nat))
    requires blocks != [] && SentFor(d, blocks[..|blocks| - 1], p)
    ensures SentFor(d, blocks, p) && p.0 < |blocks| - 1
  {
    assert ButtonAt(blocks[..|blocks| - 1], p.0, p.1);
  }

  lemma {:induction false} AtConcat(a: seq<ButtonData>, at: seq<(nat, nat)>, b: seq<ButtonData>,
      places: seq<(nat, nat)>, blocks: seq<Block>)
    requires |a| == |at| && |b| == |places|
    requires forall k | 0 <= k < |at| :: SentFor(a[k], blocks, at[k])
    requires forall k | 0 <= k < |places| :: SentFor(b[k], blocks, places[k])
    ensures |a + b| == |at + places|
    ensures forall k | 0 <= k < |at + places| :: SentFor((a + b)[k], blocks, (at + places)[k])
  {
  }

  lemma {:induction false} ButtonsOfShown(blocks: seq<Block>)
    ensures ShowsButtons(ButtonsOf(blocks), blocks)
  {
    if blocks == [] {
      assert ButtonsAt([], blocks, []);
    } else {
      var before := blocks[..|blocks| - 1];
      ButtonsOfShown(before);
      var at :| ButtonsAt(ButtonsOf(before), before, at);
      ButtonsAtInit(ButtonsOf(before), blocks, at);
    }
  }

  lemma {:induction false} ButtonsOfAppend(xs: seq<Block>, ys: seq<Block>)
    ensures ButtonsOf(xs + ys) == ButtonsOf(xs) + ButtonsOf(ys)
  {
    if ys == [] {
      assert xs + ys == xs && ButtonsOf(ys) == [];
    } else {
      var fewer, last := ys[..|ys| - 1], ys[|ys| - 1];
      assert xs + ys == (xs + fewer) + [last] && ys == fewer + [last];
      calc {
        ButtonsOf(xs + ys);
        { ButtonsOfInit(xs + fewer, last); }
        ButtonsOf(xs + fewer) + ButtonsOf([last]);
        { ButtonsOfAppend(xs, fewer); }
        ButtonsOf(xs) + ButtonsOf(fewer) + ButtonsOf([last]);
        { Assoc(ButtonsOf(xs), ButtonsOf(fewer), ButtonsOf([last])); }
        ButtonsOf(xs) + (ButtonsOf(fewer) + ButtonsOf([last]));
        { ButtonsOfInit(fewer, last); }
        ButtonsOf(xs) + ButtonsOf(ys);
      }
    }
  }

  lemma {:induction false} Assoc<T>(a: seq<T>, b: seq<T>, c: seq<T>)
    ensures a + b + c == a + (b + c)
  {
  }

  lemma {:induction false} ButtonsOfInit(xs: seq<Block>, b: Block)
    ensures ButtonsOf(xs + [b]) == ButtonsOf(xs) + ButtonsOf([b])
  {
    assert (xs + [b])[..|xs|] == xs && [b][..0] == [];
  }

  lemma {:induction false} ButtonsOfCoalesced(blocks: seq<Block>)
    ensures ButtonsOf(Coalesced(blocks)) == ButtonsOf(blocks)
  {
    if blocks != [] {
      var rest := Coalesced(blocks[1..]);
      ButtonsOfCoalesced(blocks[1..]);
      assert blocks == [blocks[0]] + blocks[1..];
      ButtonsOfAppend([blocks[0]], blocks[1..]);
      ButtonsOfAppend([blocks[0]], rest);
      if blocks[0].TextBlock? && rest != [] && rest[0].TextBlock? {
        var merged := TextBlock(blocks[0].content + [NEWLINE] + rest[0].content);
        assert rest == [rest[0]] + rest[1..];
        ButtonsOfAppend([rest[0]], rest[1..]);
        ButtonsOfAppend([merged], rest[1..]);
        TextHasNoButtons(merged);
        TextHasNoButtons(blocks[0]);
        TextHasNoButtons(rest[0]);
      }
    }
  }

  lemma {:induction false} TextHasNoButtons(b: Block)
    requires b.TextBlock?
    ensures ButtonsOf([b]) == []
  {
    assert [b][..0] == [];
  }

  // ---- Identifiers ----

  /** Some button of these blocks has the identifier. */
  ghost predicate HasId(blocks: seq<Block>, id: Text) {
    exists i, x :: ButtonAt(blocks, i, x) && ActionId(blocks[i].buttons[x].action, x) == id
  }

  ghost predicate DistinctIds(buttons: seq<ButtonData>) {
    forall p, q | 0 <= p < q < |buttons| :: buttons[p].customId != buttons[q].customId
  }

  /** The blocks at `i` and `j` have the same action at the index `x`. */
  ghost predicate SameActionAt(blocks: seq<Block>, i: int, j: int, x: int) {
    && i < j && ButtonAt(blocks, i, x) && ButtonAt(blocks, j, x)
    && blocks[i].buttons[x].action == blocks[j].buttons[x].action
  }

  /** Some of these buttons has the identifier. */
  ghost predicate Carries(buttons: seq<ButtonData>, id: Text) {
    exists p :: 0 <= p < |buttons| && buttons[p].customId == id
  }

  lemma {:induction false} CarriesConcat(a: seq<ButtonData>, b: seq<ButtonData>, id: Text)
    ensures Carries(a + b, id) <==> Carries(a, id) || Carries(b, id)
  {
    var c := a + b;
    if p :| 0 <= p < |a| && a[p].customId == id {
      assert c[p].customId == id;
    }
    if p :| 0 <= p < |b| && b[p].customId == id {
      assert c[|a| + p].customId == id;
    }
  }

  /** Some button of the block at `i` has the identifier. */
  ghost predicate BlockHasId(blocks: seq<Block>, i: int, id: Text) {
    exists x :: ButtonAt(blocks, i, x) && ActionId(blocks[i].buttons[x].action, x) == id
  }

  lemma {:induction false} HasIdInit(blocks: seq<Block>, id: Text)
    requires blocks != []
    ensures var n := |blocks| - 1;
            HasId(blocks, id) <==> HasId(blocks[..n], id) || BlockHasId(blocks, n, id)
  {
    var n := |blocks| - 1;
    if i, x :| ButtonAt(blocks[..n], i, x) && ActionId(blocks[..n][i].buttons[x].action, x) == id {
      assert ButtonAt(blocks, i, x);
    }
    if i, x :| ButtonAt(blocks, i, x) && ActionId(blocks[i].buttons[x].action, x) == id && i < n {
      assert ButtonAt(blocks[..n], i, x);
    }
  }

  lemma {:induction false} BlockCarries(blocks: seq<Block>, i: nat, id: Text)
    requires i < |blocks| && blocks[i].ButtonBlock?
    ensures BlockHasId(blocks, i, id) <==> Carries(Buttons(blocks[i].buttons), id)
  {
    var specs := blocks[i].buttons;
    if x :| ButtonAt(blocks, i, x) && ActionId(specs[x].action, x) == id {
      assert Buttons(specs)[x].customId == id;
    }
    if p :| 0 <= p < |Buttons(specs)| && Buttons(specs)[p].customId == id {
      assert ButtonAt(blocks, i, p);
    }
  }

  /** The identifiers of a message are those of its buttons. */
  lemma {:induction false} IdsOfButtons(blocks: seq<Block>, id: Text)
    ensures HasId(blocks, id) <==> Carries(ButtonsOf(blocks), id)
  {
    if blocks != [] {
      var n := |blocks| - 1;
      IdsOfButtons(blocks[..n], id);
      HasIdInit(blocks, id);
      if blocks[n].ButtonBlock? {
        BlockCarries(blocks, n, id);
        CarriesConcat(ButtonsOf(blocks[..n]), Buttons(blocks[n].buttons), id);
      } else {
        assert ButtonsOf(blocks) == ButtonsOf(blocks[..n]);
      }
    }
  }

  /** Within one block the index keeps identifiers apart. */
  lemma {:induction false} OwnIdsDistinct(specs: seq<ButtonSpec>)
    ensures DistinctIds(Buttons(specs))
  {
    forall x, y | 0 <= x < y < |specs| ensures Buttons(specs)[x].customId != Buttons(specs)[y].customId {
      ActionIdInjective(specs[x].action, x, specs[y].action, y);
    }
  }

  lemma {:induction false} DistinctConcat(a: seq<ButtonData>, b: seq<ButtonData>)
    ensures DistinctIds(a + b) <==>
            && DistinctIds(a) && DistinctIds(b)
            && forall p, q | 0 <= p < |a| && 0 <= q < |b| :: a[p].customId != b[q].customId
  {
    var c := a + b;
    assert forall p | 0 <= p < |a| :: c[p] == a[p];
    assert forall q | 0 <= q < |b| :: c[|a| + q] == b[q];
    if DistinctIds(c) {
      forall p, q | 0 <= p < q < |b| ensures b[p].customId != b[q].customId {
        assert c[|a| + p].customId != c[|a| + q].customId;
      }
      forall p, q | 0 <= p < |a| && 0 <= q < |b| ensures a[p].customId != b[q].customId {
        assert c[p].customId != c[|a| + q].customId;
      }
    }
  }

  /** Two blocks of buttons have the same action at the same index. */
  ghost predicate Clashing(blocks: seq<Block>) {
    exists i, j, x :: SameActionAt(blocks, i, j, x)
  }

  /** A button's identifier was there before exactly if an earlier block has the same action at its index. */
  lemma {:induction false} IdTakenIff(blocks: seq<Block>, x: nat)
    requires blocks != [] && ButtonAt(blocks, |blocks| - 1, x)
    ensures var n := |blocks| - 1;
            HasId(blocks[..n], ActionId(blocks[n].buttons[x].action, x)) <==> exists i :: SameActionAt(blocks, i, n, x)
  {
    var n := |blocks| - 1;
    var action := blocks[n].buttons[x].action;
    forall i, y | ButtonAt(blocks[..n], i, y)
      ensures ActionId(blocks[..n][i].buttons[y].action, y) == ActionId(action, x) <==>
              y == x && blocks[i].buttons[y].action == action
    {
      ActionIdInjective(blocks[i].buttons[y].action, y, action, x);
    }
    if i :| SameActionAt(blocks, i, n, x) {
      assert ButtonAt(blocks[..n], i, x);
    }
    if i, y :| ButtonAt(blocks[..n], i, y) && ActionId(blocks[..n][i].buttons[y].action, y) == ActionId(action, x) {
      assert SameActionAt(blocks, i, n, x);
    }
  }

  lemma {:induction false} ClashingInit(blocks: seq<Block>)
    requires blocks != []
    ensures var n := |blocks| - 1;
            Clashing(blocks) <==> Clashing(blocks[..n]) || exists i, x :: SameActionAt(blocks, i, n, x)
  {
    var n := |blocks| - 1;
    if i, j, x :| SameActionAt(blocks[..n], i, j, x) {
      assert SameActionAt(blocks, i, j, x);
    }
    if i, j, x :| SameActionAt(blocks, i, j, x) && j < n {
      assert SameActionAt(blocks[..n], i, j, x);
    }
  }

  lemma {:induction false} NewIdTakenIff(blocks: seq<Block>, x: nat)
    requires blocks != [] && ButtonAt(blocks, |blocks| - 1, x)
    ensures var n := |blocks| - 1;
            Carries(ButtonsOf(blocks[..n]), Buttons(blocks[n].buttons)[x].customId)
            <==> exists i :: SameActionAt(blocks, i, n, x)
  {
    IdTakenIff(blocks, x);
    IdsOfButtons(blocks[..|blocks| - 1], Buttons(blocks[|blocks| - 1].buttons)[x].customId);
  }

  /** One more block of buttons brings in a known identifier exactly if it clashes with an earlier one. */
  lemma {:induction false} NewIdsTakenIff(blocks: seq<Block>)
    requires blocks != [] && blocks[|blocks| - 1].ButtonBlock?
    ensures var n := |blocks| - 1;
            var a, b := ButtonsOf(blocks[..n]), Buttons(blocks[n].buttons);
            (forall p, q | 0 <= p < |a| && 0 <= q < |b| :: a[p].customId != b[q].customId)
            <==> !exists i, x :: SameActionAt(blocks, i, n, x)
  {
    var n := |blocks| - 1;
    var a, b := ButtonsOf(blocks[..n]), Buttons(blocks[n].buttons);
    forall p, q | 0 <= p < |a| && 0 <= q < |b| && a[p].customId == b[q].customId
      ensures exists i :: SameActionAt(blocks, i, n, q)
    {
      assert ButtonAt(blocks, n, q) && Carries(a, b[q].customId);
      NewIdTakenIff(blocks, q);
    }
    if i, x :| SameActionAt(blocks, i, n, x) {
      assert ButtonAt(blocks, n, x);
      NewIdTakenIff(blocks, x);
      assert Carries(a, b[x].customId);
    }
  }

  /** The identifiers of a message are distinct exactly when no two blocks have the same action at the same index. */
  lemma {:induction false} IdsDistinctIff(blocks: seq<Block>)
    ensures DistinctIds(ButtonsOf(blocks)) <==> !Clashing(blocks)
  {
    if blocks != [] {
      var n := |blocks| - 1;
      IdsDistinctIff(blocks[..n]);
      ClashingInit(blocks);
      if blocks[n].ButtonBlock? {
        OwnIdsDistinct(blocks[n].buttons);
        DistinctConcat(ButtonsOf(blocks[..n]), Buttons(blocks[n].buttons));
        NewIdsTakenIff(blocks);
      } else {
        assert ButtonsOf(blocks) == ButtonsOf(blocks[..n]);
      }
    }
  }

  /** Two blocks that offer the same button repeat its identifier. */
  lemma {:induction false} SameButtonTwice(spec: ButtonSpec)
    ensures !DistinctIds(ButtonsOf([ButtonBlock([spec]), ButtonBlock([spec])]))
  {
    var blocks := [ButtonBlock([spec]), ButtonBlock([spec])];
    assert SameActionAt(blocks, 0, 1, 0);
    IdsDistinctIff(blocks);
  }

  // ---- The plan ----

  /** One call a piece of the combined text; files and buttons go with the last. */
  function PlanOf(text: Text, files: seq<FileData>, components: seq<seq<ButtonData>>, base: Base): (r: seq<Call>)
    ensures |r| == |Split(text, MAX_CONTENT_LENGTH)|
    ensures forall i | 0 <= i < |r| :: r[i].content == Split(text, MAX_CONTENT_LENGTH)[i] && r[i].base == base
    ensures forall i | 0 <= i < |r| - 1 :: r[i].files == [] && r[i].components == []
    ensures r != [] ==> r[|r| - 1].files == files && r[|r| - 1].components == components
  {
    var chunks := Split(text, MAX_CONTENT_LENGTH);
    seq(|chunks|, i requires 0 <= i < |chunks| =>
      if i == |chunks| - 1 then Call(chunks[i], files, components, base) else Call(chunks[i], [], [], base))
  }

  method Collect(blocks: seq<Block>) returns (combinedText: Text, files: seq<FileData>,
      components: seq<seq<ButtonData>>)
    ensures combinedText == CombinedText(blocks) && files == FilesOf(blocks) && components == RowsOf(blocks)
  {
    combinedText, files, components := [], [], [];
    for i := 0 to |blocks|
      invariant combinedText == CombinedText(blocks[..i])
      invariant files == FilesOf(blocks[..i]) && components == RowsOf(blocks[..i])
    {
      assert blocks[..i + 1][..i] == blocks[..i];
      match blocks[i] {
        case TextBlock(content) =>
          if |combinedText| > 0 {
            combinedText := combinedText + [NEWLINE];
          }
          combinedText := combinedText + content;
        case ImageBlock(url, alt) =>
          files := files + [FileData(url, if alt.Some? then alt.value else IMAGE_PNG)];
        case FileBlock(url, filename) =>
          files := files + [FileData(url, filename)];
        case ButtonBlock(specs) =>
          var rows := MakeRows(Buttons(specs));
          components := components + rows;
      }
    }
    assert blocks[..|blocks|] == blocks;
  }

  /** The text cut to size, with the attachments on the last piece. */
  method CutToSize(combinedText: Text, files: seq<FileData>, components: seq<seq<ButtonData>>,
      base: Base) returns (plan: seq<Call>)
    ensures plan == PlanOf(combinedText, files, components, base)
  {
    if |combinedText| <= MAX_CONTENT_LENGTH {
      return [Call(combinedText, files, components, base)];
    }
    var chunks := SplitText(combinedText, MAX_CONTENT_LENGTH);
    plan := [];
    ghost var all := PlanOf(combinedText, files, components, base);
    for i := 0 to |chunks|
      invariant plan == all[..i]
    {
      assert all[..i + 1] == all[..i] + [all[i]];
      var isLast := i == |chunks| - 1;
      plan := plan + [Call(chunks[i], if isLast then files else [], if isLast then components else [], base)];
    }
    assert all[..|all|] == all;
  }

  function Contents(plan: seq<Call>): (r: seq<Text>)
  {
    seq(|plan|, i requires 0 <= i < |plan| => plan[i].content)
  }

  function Files(plan: seq<Call>): seq<FileData> {
    if plan == [] then [] else Files(plan[..|plan| - 1]) + plan[|plan| - 1].files
  }

  function Components(plan: seq<Call>): seq<seq<ButtonData>> {
    if plan == [] then [] else Components(plan[..|plan| - 1]) + plan[|plan| - 1].components
  }

  lemma {:induction false} PlainCalls(plan: seq<Call>)
    requires forall i | 0 <= i < |plan| :: plan[i].files == [] && plan[i].components == []
    ensures Files(plan) == [] && Components(plan) == []
  {
    if plan != [] {
      PlainCalls(plan[..|plan| - 1]);
    }
  }

  /** The contents are the combined text but for white space between pieces, each within the limit. */
  lemma {:induction false} PlanKeepsText(text: Text, files: seq<FileData>, components: seq<seq<ButtonData>>, base: Base)
    ensures var contents := Contents(PlanOf(text, files, components, base));
            && (exists gaps: seq<Text> ::
                  && |gaps| == |contents|
                  && Interleave(contents, gaps) == text
                  && forall i | 0 <= i < |gaps| :: AllWhitespace(gaps[i]))
            && forall i | 0 <= i < |contents| :: |contents[i]| <= MAX_CONTENT_LENGTH
  {
    SplitKeepsText(text, MAX_CONTENT_LENGTH);
    assert Contents(PlanOf(text, files, components, base)) == Split(text, MAX_CONTENT_LENGTH);
  }

  lemma {:induction false} LastCallCarriesAll(plan: seq<Call>)
    requires plan != [] && forall i | 0 <= i < |plan| - 1 :: plan[i].files == [] && plan[i].components == []
    ensures Files(plan) == plan[|plan| - 1].files && Components(plan) == plan[|plan| - 1].components
  {
    PlainCalls(plan[..|plan| - 1]);
  }

  /** Over the whole plan every file and every row is sent once, in order, with the last piece. */
  lemma {:induction false} PlanKeepsAttachments(text: Text, files: seq<FileData>,
      components: seq<seq<ButtonData>>, base: Base)
    ensures var plan := PlanOf(text, files, components, base);
            plan != [] && Files(plan) == files && Components(plan) == components
  {
    SplitKeepsText(text, MAX_CONTENT_LENGTH);
    LastCallCarriesAll(PlanOf(text, files, components, base));
  }

  /** Within the platform's limits, all to one place, with attachments on the last piece only. */
  ghost predicate Fits(plan: seq<Call>, base: Base) {
    && (forall i | 0 <= i < |plan| :: plan[i].base == base && |plan[i].content| <= MAX_CONTENT_LENGTH)
    && (forall i | 0 <= i < |plan| - 1 :: plan[i].files == [] && plan[i].components == [])
    && (forall i | 0 <= i < |Components(plan)| :: 1 <= |Components(plan)[i]| <= ROW)
  }

  /** So many buttons in rows of five, the last row with the rest. */
  ghost predicate InFives(rows: seq<seq<ButtonData>>, count: nat) {
    && 5 * |rows| - 4 <= count <= 5 * |rows|
    && forall r | 0 <= r < |rows| :: |rows[r]| == if r < |rows| - 1 then 5 else count - 5 * r
  }

  ghost predicate RowsFor(rows: seq<seq<ButtonData>>, b: Block, from: nat, to: nat) {
    && from <= to <= |rows|
    && if b.ButtonBlock? && b.buttons != [] then InFives(rows[from..to], |b.buttons|) else from == to
  }

  /** Cut at these positions, the rows are those of the blocks, in order. */
  ghost predicate RowsAt(rows: seq<seq<ButtonData>>, blocks: seq<Block>, cuts: seq<nat>) {
    && |cuts| == |blocks| + 1 && cuts[0] == 0 && cuts[|blocks|] == |rows|
    && forall i | 0 <= i < |blocks| :: RowsFor(rows, blocks[i], cuts[i], cuts[i + 1])
  }

  ghost predicate Attaches(plan: seq<Call>, blocks: seq<Block>) {
    && SendsFiles(Files(plan), blocks)
    && ShowsButtons(Flatten(Components(plan)), blocks)
    && exists cuts :: RowsAt(Components(plan), Coalesced(blocks), cuts)
  }

  lemma {:induction false} RowsInFives(buttons: seq<ButtonData>)
    requires buttons != []
    ensures InFives(RowsFrom(buttons), |buttons|)
  {
    if |buttons| > ROW {
      RowsInFives(buttons[ROW..]);
    }
  }

  lemma {:induction false} RowsPrefix(blocks: seq<Block>, i: nat, n: nat)
    requires i <= n <= |blocks|
    ensures RowsOf(blocks[..i]) <= RowsOf(blocks[..n])
    decreases n
  {
    if i < n {
      assert blocks[..n][..n - 1] == blocks[..n - 1];
      RowsPrefix(blocks, i, n - 1);
    }
  }

  lemma {:induction false} RowsForBlock(blocks: seq<Block>, i: nat)
    requires i < |blocks|
    ensures RowsFor(RowsOf(blocks), blocks[i], |RowsOf(blocks[..i])|, |RowsOf(blocks[..i + 1])|)
  {
    RowsPrefix(blocks, i + 1, |blocks|);
    assert blocks[..|blocks|] == blocks;
    assert blocks[..i + 1][..i] == blocks[..i];
    if blocks[i].ButtonBlock? && blocks[i].buttons != [] {
      var part := RowsFrom(Buttons(blocks[i].buttons));
      RowsInFives(Buttons(blocks[i].buttons));
      assert RowsOf(blocks[..i]) + part <= RowsOf(blocks);
    }
  }

  lemma {:induction false} RowsByBlocks(blocks: seq<Block>) returns (cuts: seq<nat>)
    ensures RowsAt(RowsOf(blocks), blocks, cuts)
  {
    cuts := seq(|blocks| + 1, i requires 0 <= i <= |blocks| => |RowsOf(blocks[..i])|);
    assert blocks[..|blocks|] == blocks;
    forall i | 0 <= i < |blocks| ensures RowsFor(RowsOf(blocks), blocks[i], cuts[i], cuts[i + 1]) {
      RowsForBlock(blocks, i);
    }
  }


  /** The plan sends the message: all its texts, files and buttons, in order. */
  ghost predicate Sends(plan: seq<Call>, blocks: seq<Block>, base: Base) {
    (plan == [] <==> blocks == []) && ReadsAsTexts(Contents(plan), blocks) && Attaches(plan, blocks) && Fits(plan, base)
  }

  lemma {:induction false} PlanReadsAsTexts(blocks: seq<Block>, files: seq<FileData>,
      components: seq<seq<ButtonData>>, base: Base)
    ensures ReadsAsTexts(Contents(PlanOf(CombinedText(Coalesced(blocks)), files, components, base)), blocks)
  {
    var text := CombinedText(Coalesced(blocks));
    var contents := Contents(PlanOf(text, files, components, base));
    SplitIsFirstPieces(text, MAX_CONTENT_LENGTH);
    assert contents == Split(text, MAX_CONTENT_LENGTH);
    var gaps :| SplitInto(text, MAX_CONTENT_LENGTH, contents, gaps);
    PiecesReadAsTexts(contents, blocks, gaps);
  }

  lemma {:induction false} PlanAttaches(blocks: seq<Block>, text: Text, base: Base)
    ensures var c := Coalesced(blocks);
            Attaches(PlanOf(text, FilesOf(c), RowsOf(c), base), blocks)
  {
    var c := Coalesced(blocks);
    PlanKeepsAttachments(text, FilesOf(c), RowsOf(c), base);
    FilesOfCoalesced(blocks);
    FilesOfSends(blocks);
    RowsOfKeepButtons(c);
    ButtonsOfCoalesced(blocks);
    ButtonsOfShown(blocks);
    var cuts := RowsByBlocks(c);
  }

  lemma {:induction false} PlanFits(blocks: seq<Block>, text: Text, files: seq<FileData>, base: Base)
    ensures PlanOf(text, files, RowsOf(blocks), base) != []
    ensures Fits(PlanOf(text, files, RowsOf(blocks), base), base)
  {
    var plan := PlanOf(text, files, RowsOf(blocks), base);
    PlanKeepsAttachments(text, files, RowsOf(blocks), base);
    SplitKeepsText(text, MAX_CONTENT_LENGTH);
    forall i | 0 <= i < |RowsOf(blocks)| ensures 1 <= |RowsOf(blocks)[i]| <= ROW {
      RowsOfFit(blocks, i);
    }
  }

  lemma {:induction false} PlanSends(blocks: seq<Block>, base: Base)
    requires blocks != []
    ensures var c := Coalesced(blocks);
            Sends(PlanOf(CombinedText(c), FilesOf(c), RowsOf(c), base), blocks, base)
  {
    var c := Coalesced(blocks);
    PlanReadsAsTexts(blocks, FilesOf(c), RowsOf(c), base);
    PlanAttaches(blocks, CombinedText(c), base);
    PlanFits(c, CombinedText(c), FilesOf(c), base);
  }

  lemma {:induction false} NothingSent(base: Base)
    ensures Sends([], [], base)
  {
    assert Contents([]) == [];
    PiecesReadAsTexts([], [], []);
    FilesOfSends([]);
    ButtonsOfShown([]);
    var cuts := RowsByBlocks([]);
    assert RowsAt(Components([]), Coalesced([]), cuts);
    assert Attaches([], []);
    assert Fits([], base);
  }

  method BuildRenderPlan(blocks: seq<Block>, base: Base) returns (plan: seq<Call>)
    ensures blocks != [] ==>
              var c := Coalesced(blocks);
              plan == PlanOf(CombinedText(c), FilesOf(c), RowsOf(c), base)
    ensures Sends(plan, blocks, base)
  {
    if |blocks| == 0 {
      NothingSent(base);
      return [];
    }
    var coalesced := CoalesceBlocks(blocks);
    var combinedText, files, components := Collect(coalesced);
    plan := CutToSize(combinedText, files, components, base);
    PlanSends(blocks, base);
  }
}
