/** Message content blocks, their coalescing, and the splitting of long texts. */
module Blocks {
  import opened JsText
  import opened Selections
  import opened Wrappers

  datatype Style = Primary | Secondary | Danger

  datatype ButtonSpec = ButtonSpec(caption: Text, action: Text, style: Option<Style>)

  datatype Block =
    | TextBlock(content: Text)
    | ImageBlock(url: Text, alt: Option<Text>)
    | FileBlock(url: Text, filename: Text)
    | ButtonBlock(buttons: seq<ButtonSpec>)

  const NEWLINE: CodeUnit := 10
  const SPACE: CodeUnit := 32

  // ---- Coalescing ----

  /** Puts a block in front of coalesced ones: a text melts into a following text. */
  function Merge(b: Block, rest: seq<Block>): seq<Block> {
    if b.TextBlock? && rest != [] && rest[0].TextBlock? then
      [TextBlock(b.content + [NEWLINE] + rest[0].content)] + rest[1..]
    else [b] + rest
  }

  function Coalesced(blocks: seq<Block>): seq<Block> {
    if blocks == [] then [] else Merge(blocks[0], Coalesced(blocks[1..]))
  }

  function Flushed(buffer: seq<Text>): seq<Block> {
    if buffer == [] then [] else [TextBlock(Join(buffer, NEWLINE))]
  }

  ghost function TextBlocks(buffer: seq<Text>): seq<Block> {
    seq(|buffer|, i requires 0 <= i < |buffer| => TextBlock(buffer[i]))
  }

  method CoalesceBlocks(blocks: seq<Block>) returns (result: seq<Block>)
    ensures result == Coalesced(blocks)
  {
    result := [];
    var textBuffer: seq<Text> := [];
    assert TextBlocks([]) + blocks == blocks;
    for i := 0 to |blocks|
      invariant Coalesced(blocks) == result + Coalesced(TextBlocks(textBuffer) + blocks[i..])
    {
      var block := blocks[i];
      BufferStep(textBuffer, blocks, i);
      if block.TextBlock? {
        textBuffer := textBuffer + [block.content];
      } else {
        result := result + (Flushed(textBuffer) + [block]);
        textBuffer := [];
      }
    }
    CoalescedTexts(textBuffer);
    assert TextBlocks(textBuffer) + blocks[|blocks|..] == TextBlocks(textBuffer);
    result := result + Flushed(textBuffer);
  }

  /** What one block does to the buffered texts. */
  lemma {:induction false} BufferStep(buffer: seq<Text>, blocks: seq<Block>, i: nat)
    requires i < |blocks|
    ensures var now := Coalesced(TextBlocks(buffer) + blocks[i..]);
            now == match blocks[i]
                   case TextBlock(content) => Coalesced(TextBlocks(buffer + [content]) + blocks[i + 1..])
                   case _ => (Flushed(buffer) + [blocks[i]]) + Coalesced(TextBlocks([]) + blocks[i + 1..])
  {
    assert blocks[i..] == [blocks[i]] + blocks[i + 1..];
    if blocks[i].TextBlock? {
      assert TextBlocks(buffer + [blocks[i].content]) + blocks[i + 1..] == TextBlocks(buffer) + blocks[i..];
    } else {
      CoalescedBuffer(buffer, blocks[i], blocks[i + 1..]);
      assert TextBlocks([]) + blocks[i + 1..] == blocks[i + 1..];
    }
  }

  lemma {:induction false} CoalescedTexts(buffer: seq<Text>)
    ensures Coalesced(TextBlocks(buffer)) == Flushed(buffer)
  {
    if buffer != [] {
      assert TextBlocks(buffer)[1..] == TextBlocks(buffer[1..]);
      CoalescedTexts(buffer[1..]);
    }
  }

  /** A block that is no text is a boundary. */
  lemma {:induction false} CoalescedBuffer(buffer: seq<Text>, b: Block, rest: seq<Block>)
    requires !b.TextBlock?
    ensures Coalesced(TextBlocks(buffer) + ([b] + rest)) == Flushed(buffer) + [b] + Coalesced(rest)
  {
    var all := TextBlocks(buffer) + ([b] + rest);
    if buffer == [] {
      assert all == [b] + rest;
    } else {
      assert all[1..] == TextBlocks(buffer[1..]) + ([b] + rest);
      CoalescedBuffer(buffer[1..], b, rest);
    }
  }

  ghost predicate NoAdjacentTexts(blocks: seq<Block>) {
    forall i | 0 <= i < |blocks| - 1 :: !(blocks[i].TextBlock? && blocks[i + 1].TextBlock?)
  }

  lemma {:induction false} CoalescedHasNoAdjacentTexts(blocks: seq<Block>)
    ensures NoAdjacentTexts(Coalesced(blocks))
  {
    if blocks != [] {
      CoalescedHasNoAdjacentTexts(blocks[1..]);
    }
  }

  lemma {:induction false} CoalescedFixed(blocks: seq<Block>)
    requires NoAdjacentTexts(blocks)
    ensures Coalesced(blocks) == blocks
  {
    if blocks != [] {
      CoalescedFixed(blocks[1..]);
    }
  }

  function ContentsOfTexts(group: seq<Block>): (r: seq<Text>)
    requires forall i | 0 <= i < |group| :: group[i].TextBlock?
  {
    seq(|group|, i requires 0 <= i < |group| => group[i].content)
  }

  /** A text stands for texts, joined by line breaks; any other block for itself. */
  ghost predicate StandsFor(b: Block, group: seq<Block>) {
    if b.TextBlock? then
      && group != []
      && (forall i | 0 <= i < |group| :: group[i].TextBlock?)
      && b.content == Join(ContentsOfTexts(group), NEWLINE)
    else group == [b]
  }

  ghost predicate GroupAt(blocks: seq<Block>, b: Block, from: nat, to: nat) {
    from < to <= |blocks| && StandsFor(b, blocks[from..to])
  }

  /** Cut at these positions, the blocks fall into consecutive groups, one for each block of the result. */
  ghost predicate GroupedAt(blocks: seq<Block>, result: seq<Block>, cuts: seq<nat>) {
    && |cuts| == |result| + 1 && cuts[0] == 0 && cuts[|result|] == |blocks|
    && (forall k | 0 <= k < |result| :: GroupAt(blocks, result[k], cuts[k], cuts[k + 1]))
  }

  /** The result stands for runs of texts, merged line by line, and for every other block, all in order. */
  ghost predicate Coalesces(blocks: seq<Block>, result: seq<Block>) {
    NoAdjacentTexts(result) && exists cuts :: GroupedAt(blocks, result, cuts)
  }

  lemma {:induction false} GroupLater(blocks: seq<Block>, b: Block, from: nat, to: nat)
    requires blocks != [] && GroupAt(blocks[1..], b, from, to)
    ensures GroupAt(blocks, b, from + 1, to + 1)
  {
    SliceLater(blocks, from, to);
  }

  lemma {:induction false} SliceLater(blocks: seq<Block>, from: nat, to: nat)
    requires from <= to < |blocks|
    ensures blocks[from + 1..to + 1] == blocks[1..][from..to]
  {
    var a, b := blocks[from + 1..to + 1], blocks[1..][from..to];
    forall i | 0 <= i < |a| ensures a[i] == b[i] {
      assert a[i] == blocks[from + 1 + i] == blocks[1..][from + i];
    }
  }

  lemma {:induction false} ContentsCons(b: Block, group: seq<Block>)
    requires b.TextBlock? && forall i | 0 <= i < |group| :: group[i].TextBlock?
    ensures ContentsOfTexts([b] + group) == [b.content] + ContentsOfTexts(group)
    ensures group != [] ==> Join(ContentsOfTexts([b] + group), NEWLINE) ==
                            b.content + [NEWLINE] + Join(ContentsOfTexts(group), NEWLINE)
  {
    JoinCons(b.content, ContentsOfTexts(group), NEWLINE);
  }

  lemma {:induction false} GroupMerged(blocks: seq<Block>, b: Block, to: nat)
    requires blocks != [] && blocks[0].TextBlock? && b.TextBlock? && GroupAt(blocks[1..], b, 0, to)
    ensures GroupAt(blocks, TextBlock(blocks[0].content + [NEWLINE] + b.content), 0, to + 1)
  {
    var group := blocks[1..][0..to];
    assert blocks[0..to + 1] == [blocks[0]] + group;
    ContentsCons(blocks[0], group);
  }

  lemma {:induction false} GroupAlone(blocks: seq<Block>)
    requires blocks != []
    ensures GroupAt(blocks, blocks[0], 0, 1)
  {
    assert blocks[0..1] == [blocks[0]];
    if blocks[0].TextBlock? {
      assert ContentsOfTexts([blocks[0]]) == [blocks[0].content];
    }
  }

  lemma {:induction false} GroupsMerge(blocks: seq<Block>, rest: seq<Block>, cuts: seq<nat>)
    requires blocks != [] && GroupedAt(blocks[1..], rest, cuts)
    requires blocks[0].TextBlock? && rest != [] && rest[0].TextBlock?
    ensures GroupedAt(blocks, Merge(blocks[0], rest), [0] + OneLater(cuts)[1..])
  {
    var merged, later := Merge(blocks[0], rest), [0] + OneLater(cuts)[1..];
    GroupMerged(blocks, rest[0], cuts[1]);
    forall k | 0 <= k < |merged| ensures GroupAt(blocks, merged[k], later[k], later[k + 1]) {
      if k > 0 {
        GroupLater(blocks, rest[k], cuts[k], cuts[k + 1]);
      }
    }
  }

  lemma {:induction false} GroupsCons(blocks: seq<Block>, rest: seq<Block>, cuts: seq<nat>)
    requires blocks != [] && GroupedAt(blocks[1..], rest, cuts)
    ensures GroupedAt(blocks, [blocks[0]] + rest, [0] + OneLater(cuts))
  {
    var all, later := [blocks[0]] + rest, [0] + OneLater(cuts);
    GroupAlone(blocks);
    forall k | 0 <= k < |all| ensures GroupAt(blocks, all[k], later[k], later[k + 1]) {
      if k > 0 {
        GroupLater(blocks, rest[k - 1], cuts[k - 1], cuts[k]);
      }
    }
  }

  lemma {:induction false} CoalescedGroups(blocks: seq<Block>) returns (cuts: seq<nat>)
    ensures GroupedAt(blocks, Coalesced(blocks), cuts)
  {
    if blocks == [] {
      cuts := [0];
    } else {
      var rest := Coalesced(blocks[1..]);
      var before := CoalescedGroups(blocks[1..]);
      if blocks[0].TextBlock? && rest != [] && rest[0].TextBlock? {
        GroupsMerge(blocks, rest, before);
        cuts := [0] + OneLater(before)[1..];
      } else {
        GroupsCons(blocks, rest, before);
        cuts := [0] + OneLater(before);
      }
    }
  }

  lemma {:induction false} CoalescedCoalesces(blocks: seq<Block>)
    ensures Coalesces(blocks, Coalesced(blocks))
  {
    CoalescedHasNoAdjacentTexts(blocks);
    var cuts := CoalescedGroups(blocks);
  }

  // ---- Coalescing twice ----

  lemma {:induction false} MergeTwice(a: Text, b: Text, rest: seq<Block>)
    ensures Merge(TextBlock(a), Merge(TextBlock(b), rest)) == Merge(TextBlock(a + [NEWLINE] + b), rest)
  {
    if rest != [] && rest[0].TextBlock? {
      assert a + [NEWLINE] + (b + [NEWLINE] + rest[0].content) == (a + [NEWLINE] + b) + [NEWLINE] + rest[0].content;
    }
  }

  lemma {:induction false} CoalesceLeftFirst(xs: seq<Block>, ys: seq<Block>)
    ensures Coalesced(Coalesced(xs) + ys) == Coalesced(xs + ys)
  {
    if xs == [] {
      assert xs + ys == ys == Coalesced(xs) + ys;
    } else {
      CoalesceLeftFirst(xs[1..], ys);
      assert (xs + ys)[1..] == xs[1..] + ys;
      MergeThenCoalesce(xs[0], Coalesced(xs[1..]), ys);
    }
  }

  lemma {:induction false} MergeThenCoalesce(x: Block, rest: seq<Block>, ys: seq<Block>)
    ensures Coalesced(Merge(x, rest) + ys) == Merge(x, Coalesced(rest + ys))
  {
    if x.TextBlock? && rest != [] && rest[0].TextBlock? {
      var merged := TextBlock(x.content + [NEWLINE] + rest[0].content);
      TextsThenCoalesce(x.content, rest[0].content, rest[1..] + ys);
      FrontFirst(merged, rest[1..], ys);
      FrontFirst(rest[0], rest[1..], ys);
      assert rest == [rest[0]] + rest[1..];
    } else {
      FrontFirst(x, rest, ys);
      assert ([x] + (rest + ys))[1..] == rest + ys;
    }
  }

  lemma {:induction false} FrontFirst(b: Block, xs: seq<Block>, ys: seq<Block>)
    ensures [b] + xs + ys == [b] + (xs + ys)
  {
  }

  lemma {:induction false} TextsThenCoalesce(a: Text, b: Text, tail: seq<Block>)
    ensures Coalesced([TextBlock(a + [NEWLINE] + b)] + tail) == Merge(TextBlock(a), Coalesced([TextBlock(b)] + tail))
  {
    MergeTwice(a, b, Coalesced(tail));
  }

  lemma {:induction false} CoalesceRightFirst(xs: seq<Block>, ys: seq<Block>)
    ensures Coalesced(xs + Coalesced(ys)) == Coalesced(xs + ys)
  {
    if xs == [] {
      CoalescedHasNoAdjacentTexts(ys);
      CoalescedFixed(Coalesced(ys));
      assert xs + ys == ys && xs + Coalesced(ys) == Coalesced(ys);
    } else {
      CoalesceRightFirst(xs[1..], ys);
      assert (xs + ys)[1..] == xs[1..] + ys && (xs + Coalesced(ys))[1..] == xs[1..] + Coalesced(ys);
    }
  }

  /** Coalescing piecewise and again gives the same blocks as coalescing at once. */
  lemma {:induction false} CoalescePiecewise(xs: seq<Block>, ys: seq<Block>)
    ensures Coalesced(xs + ys) == Coalesced(Coalesced(xs) + Coalesced(ys))
  {
    CoalesceLeftFirst(xs, Coalesced(ys));
    CoalesceRightFirst(xs, ys);
  }

  // ---- Splitting ----

  /** The last position of `c` that is at most `from`, or -1. */
  function LastIndexOf(s: Text, c: CodeUnit, from: int): (r: int)
    requires from < |s|
    ensures r == -1 || 0 <= r <= from
    ensures r >= 0 ==> s[r] == c
    ensures forall i | 0 <= i <= from && i > r :: s[i] != c
    decreases from + 1
  {
    if from < 0 then -1 else if s[from] == c then from else LastIndexOf(s, c, from - 1)
  }

  function TrimStart(s: Text): Text {
    if s != [] && IsWhitespace(s[0]) then TrimStart(s[1..]) else s
  }

  /** Where a too long text is cut: at the last newline, else the last space, else at the limit. */
  function SplitPosition(s: Text, maxLength: nat): int
    requires |s| > maxLength
  {
    var newline := LastIndexOf(s, NEWLINE, maxLength);
    var space := LastIndexOf(s, SPACE, maxLength);
    if newline > 0 then newline else if space > 0 then space else maxLength
  }

  /** What remains after one cut. */
  function Remainder(s: Text, maxLength: nat): Text
    requires |s| > maxLength
  {
    TrimStart(s[SplitPosition(s, maxLength)..])
  }

  lemma {:induction false} RemainderShorter(s: Text, maxLength: nat)
    requires |s| > maxLength >= 1
    ensures 1 <= SplitPosition(s, maxLength) <= maxLength && |Remainder(s, maxLength)| < |s|
  {
    TrimStartSuffix(s[SplitPosition(s, maxLength)..]);
  }

  function Chunks(s: Text, maxLength: nat): seq<Text>
    requires maxLength >= 1
    decreases |s|
  {
    if s == [] then []
    else if |s| <= maxLength then [s]
    else
      RemainderShorter(s, maxLength);
      [s[..SplitPosition(s, maxLength)]] + Chunks(Remainder(s, maxLength), maxLength)
  }

  function Split(s: Text, maxLength: nat): seq<Text>
    requires maxLength >= 1
  {
    if |s| <= maxLength then [s] else Chunks(s, maxLength)
  }

  method SplitText(text: Text, maxLength: nat) returns (chunks: seq<Text>)
    requires maxLength >= 1
    ensures chunks == Split(text, maxLength)
  {
    if |text| <= maxLength {
      return [text];
    }
    chunks := [];
    var remaining := text;
    while |remaining| > 0
      invariant Chunks(text, maxLength) == chunks + Chunks(remaining, maxLength)
      decreases |remaining|
    {
      if |remaining| <= maxLength {
        chunks := chunks + [remaining];
        break;
      }
      var splitPos := LastIndexOf(remaining, NEWLINE, maxLength);
      if splitPos <= 0 {
        splitPos := LastIndexOf(remaining, SPACE, maxLength);
      }
      if splitPos <= 0 {
        splitPos := maxLength;
      }
      assert splitPos == SplitPosition(remaining, maxLength);
      RemainderShorter(remaining, maxLength);
      ChunksGrow(text, chunks, remaining, maxLength);
      chunks := chunks + [remaining[..splitPos]];
      remaining := TrimStart(remaining[splitPos..]);
    }
  }

  /** What a cut adds to the chunks made so far. */
  lemma {:induction false} ChunksGrow(text: Text, chunks: seq<Text>, s: Text, maxLength: nat)
    requires |s| > maxLength >= 1 && Chunks(text, maxLength) == chunks + Chunks(s, maxLength)
    ensures Chunks(text, maxLength) ==
            (chunks + [s[..SplitPosition(s, maxLength)]]) + Chunks(Remainder(s, maxLength), maxLength)
  {
    RemainderShorter(s, maxLength);
    var chunk, rest := [s[..SplitPosition(s, maxLength)]], Chunks(Remainder(s, maxLength), maxLength);
    assert chunks + (chunk + rest) == (chunks + chunk) + rest;
  }

  /** Trimming removes exactly the leading white space. */
  lemma {:induction false} TrimStartSuffix(s: Text)
    ensures |TrimStart(s)| <= |s| && s[|s| - |TrimStart(s)|..] == TrimStart(s)
    ensures AllWhitespace(s[..|s| - |TrimStart(s)|])
    ensures TrimStart(s) != [] ==> !IsWhitespace(TrimStart(s)[0])
  {
    if s != [] && IsWhitespace(s[0]) {
      TrimStartSuffix(s[1..]);
      var n := |s| - |TrimStart(s)|;
      assert s[..n] == [s[0]] + s[1..][..n - 1];
    }
  }

  /** Chunks alternating with gaps, the gap of a chunk after it. */
  ghost function Interleave(chunks: seq<Text>, gaps: seq<Text>): Text
    requires |gaps| == |chunks|
  {
    if chunks == [] then [] else chunks[0] + gaps[0] + Interleave(chunks[1..], gaps[1..])
  }

  ghost function Gaps(s: Text, maxLength: nat): (gaps: seq<Text>)
    requires maxLength >= 1
    ensures |gaps| == |Chunks(s, maxLength)|
    decreases |s|
  {
    if s == [] then []
    else if |s| <= maxLength then [[]]
    else
      RemainderShorter(s, maxLength);
      [FirstGap(s, maxLength)] + Gaps(Remainder(s, maxLength), maxLength)
  }

  /** The gap after the first chunk, if the text is too long. */
  ghost function FirstGap(s: Text, maxLength: nat): Text
    requires |s| > maxLength
  {
    var tail := s[SplitPosition(s, maxLength)..];
    TrimStartSuffix(tail);
    tail[..|tail| - |TrimStart(tail)|]
  }

  lemma {:induction false} FirstCut(s: Text, maxLength: nat)
    requires |s| > maxLength
    ensures s == s[..SplitPosition(s, maxLength)] + (FirstGap(s, maxLength) + Remainder(s, maxLength))
    ensures AllWhitespace(FirstGap(s, maxLength))
  {
    var tail := s[SplitPosition(s, maxLength)..];
    TrimStartSuffix(tail);
    var k := |tail| - |TrimStart(tail)|;
    assert FirstGap(s, maxLength) == tail[..k] && Remainder(s, maxLength) == tail[k..];
    assert tail == tail[..k] + tail[k..];
    assert s == s[..SplitPosition(s, maxLength)] + tail;
  }

  /** Nothing but white space between chunks is lost, at the start of a chunk's successor or at the very end. */
  lemma {:induction false} ChunksKeepText(s: Text, maxLength: nat)
    requires maxLength >= 1
    ensures Interleave(Chunks(s, maxLength), Gaps(s, maxLength)) == s
    decreases |s|
  {
    if |s| > maxLength {
      var cut, rest := SplitPosition(s, maxLength), Remainder(s, maxLength);
      RemainderShorter(s, maxLength);
      FirstCut(s, maxLength);
      ChunksKeepText(rest, maxLength);
      InterleaveHead(s[..cut], FirstGap(s, maxLength), Chunks(rest, maxLength), Gaps(rest, maxLength));
    }
  }

  lemma {:induction false} GapsAreBlank(s: Text, maxLength: nat)
    requires maxLength >= 1
    ensures forall i | 0 <= i < |Gaps(s, maxLength)| :: AllWhitespace(Gaps(s, maxLength)[i])
    decreases |s|
  {
    if |s| > maxLength {
      RemainderShorter(s, maxLength);
      FirstCut(s, maxLength);
      GapsAreBlank(Remainder(s, maxLength), maxLength);
    }
  }

  lemma {:induction false} InterleaveHead(chunk: Text, gap: Text, chunks: seq<Text>, gaps: seq<Text>)
    requires |gaps| == |chunks|
    ensures Interleave([chunk] + chunks, [gap] + gaps) == chunk + (gap + Interleave(chunks, gaps))
  {
    assert ([chunk] + chunks)[1..] == chunks && ([gap] + gaps)[1..] == gaps;
  }

  /** Every chunk fits the limit and none is empty; every chunk but the first starts with a visible character. */
  lemma {:induction false} ChunksFit(s: Text, maxLength: nat, i: nat)
    requires maxLength >= 1 && i < |Chunks(s, maxLength)|
    ensures 1 <= |Chunks(s, maxLength)[i]| <= maxLength
    ensures Chunks(s, maxLength)[0] != [] && Chunks(s, maxLength)[0][0] == s[0]
    ensures i > 0 ==> !IsWhitespace(Chunks(s, maxLength)[i][0])
    decreases |s|
  {
    if |s| > maxLength {
      var rest := Remainder(s, maxLength);
      RemainderShorter(s, maxLength);
      if i > 0 {
        TrimStartSuffix(s[SplitPosition(s, maxLength)..]);
        ChunksFit(rest, maxLength, i - 1);
        assert Chunks(s, maxLength)[i] == Chunks(rest, maxLength)[i - 1];
      }
    }
  }

  /** Splitting keeps the text, whatever its length. */
  lemma {:induction false} SplitKeepsText(s: Text, maxLength: nat)
    requires maxLength >= 1
    ensures exists gaps: seq<Text> ::
              && |gaps| == |Split(s, maxLength)|
              && Interleave(Split(s, maxLength), gaps) == s
              && forall i | 0 <= i < |gaps| :: AllWhitespace(gaps[i])
    ensures Split(s, maxLength) != []
    ensures forall i | 0 <= i < |Split(s, maxLength)| :: |Split(s, maxLength)[i]| <= maxLength
  {
    if |s| <= maxLength {
      assert Interleave([s], [[]]) == s + [] + Interleave([], []);
      var gaps: seq<Text> := [[]];
      assert Interleave(Split(s, maxLength), gaps) == s;
    } else {
      ChunksKeepText(s, maxLength);
      GapsAreBlank(s, maxLength);
      forall i | 0 <= i < |Chunks(s, maxLength)|
        ensures |Chunks(s, maxLength)[i]| <= maxLength
      {
        ChunksFit(s, maxLength, i);
      }
      assert Interleave(Split(s, maxLength), Gaps(s, maxLength)) == s;
    }
  }

  /** A cut inside a word happens only when the allowed stretch has neither newline nor space past its start. */
  lemma {:induction false} HardCutOnlyWithoutBreaks(s: Text, maxLength: nat)
    requires |s| > maxLength >= 1
    ensures var cut := SplitPosition(s, maxLength);
            && 1 <= cut <= maxLength
            && (s[cut] != NEWLINE ==> forall i | 1 <= i <= maxLength :: s[i] != NEWLINE)
            && (s[cut] != NEWLINE && s[cut] != SPACE ==>
                  cut == maxLength && forall i | 1 <= i <= maxLength :: s[i] != SPACE)
            && (s[cut] == NEWLINE ==> forall i | cut < i <= maxLength :: s[i] != NEWLINE)
            && (s[cut] != NEWLINE && s[cut] == SPACE ==> forall i | cut < i <= maxLength :: s[i] != SPACE)
  {
  }

  // ---- The chunks, said without the cuts ----

  /** The text's first piece of length `n` ends at `c`, and no `c` comes later within the limit. */
  ghost predicate EndsAtLast(s: Text, n: nat, maxLength: nat, c: CodeUnit)
    requires |s| > maxLength
  {
    1 <= n <= maxLength && s[n] == c && forall i | n < i <= maxLength :: s[i] != c
  }

  ghost predicate LacksWithin(s: Text, maxLength: nat, c: CodeUnit)
    requires |s| > maxLength
  {
    forall i | 1 <= i <= maxLength :: s[i] != c
  }

  /**
   * The length of the first piece: all of a text that fits; else up to the last newline within the limit; without
   * one up to the last space; without either the limit. A break at the very start does not count.
   */
  ghost predicate FirstPieceLength(s: Text, n: nat, maxLength: nat) {
    if |s| <= maxLength then n == |s|
    else if !LacksWithin(s, maxLength, NEWLINE) then EndsAtLast(s, n, maxLength, NEWLINE)
    else if !LacksWithin(s, maxLength, SPACE) then EndsAtLast(s, n, maxLength, SPACE)
    else n == maxLength
  }

  /** What is left of the text from the i-th chunk on. */
  ghost function RestFrom(chunks: seq<Text>, gaps: seq<Text>, i: nat): Text
    requires |gaps| == |chunks| && i <= |chunks|
  {
    Interleave(chunks[i..], gaps[i..])
  }

  /**
   * The chunks and the white space after each make up the text; each chunk is the first piece of what is left, and
   * each but the first begins with a visible character.
   */
  ghost predicate SplitInto(s: Text, maxLength: nat, chunks: seq<Text>, gaps: seq<Text>) {
    && |gaps| == |chunks| && chunks != []
    && Interleave(chunks, gaps) == s
    && (forall i | 0 <= i < |chunks| :: AllWhitespace(gaps[i]))
    && (forall i | 0 <= i < |chunks| :: FirstPieceLength(RestFrom(chunks, gaps, i), |chunks[i]|, maxLength))
    && (forall i | 1 <= i < |chunks| :: chunks[i] != [] && !IsWhitespace(chunks[i][0]))
  }

  lemma {:induction false} SplitPositionIsFirstPiece(s: Text, maxLength: nat)
    requires |s| > maxLength >= 1
    ensures SplitPosition(s, maxLength) >= 1 && FirstPieceLength(s, SplitPosition(s, maxLength), maxLength)
  {
    var newline, space := LastIndexOf(s, NEWLINE, maxLength), LastIndexOf(s, SPACE, maxLength);
    assert newline > 0 ==> s[newline] == NEWLINE;
    assert space > 0 ==> s[space] == SPACE;
  }

  lemma {:induction false} FirstPieceUnique(s: Text, m: nat, n: nat, maxLength: nat)
    requires FirstPieceLength(s, m, maxLength) && FirstPieceLength(s, n, maxLength)
    ensures m == n
  {
  }

  lemma {:induction false} SplitCons(s: Text, maxLength: nat, chunk: Text, gap: Text, chunks: seq<Text>,
      gaps: seq<Text>)
    requires |gaps| == |chunks| && (chunks != [] ==> SplitInto(Interleave(chunks, gaps), maxLength, chunks, gaps))
    requires s == chunk + (gap + Interleave(chunks, gaps)) && AllWhitespace(gap)
    requires FirstPieceLength(s, |chunk|, maxLength)
    requires chunks != [] ==> chunks[0] != [] && !IsWhitespace(chunks[0][0])
    ensures SplitInto(s, maxLength, [chunk] + chunks, [gap] + gaps)
  {
    var all, between := [chunk] + chunks, [gap] + gaps;
    InterleaveHead(chunk, gap, chunks, gaps);
    assert RestFrom(all, between, 0) == s by {
      assert all[0..] == all && between[0..] == between;
    }
    forall i | 1 <= i < |all| ensures RestFrom(all, between, i) == RestFrom(chunks, gaps, i - 1) {
      assert all[i..] == chunks[i - 1..] && between[i..] == gaps[i - 1..];
    }
  }

  lemma {:induction false} ChunksSplitInto(s: Text, maxLength: nat)
    requires maxLength >= 1 && s != []
    ensures SplitInto(s, maxLength, Chunks(s, maxLength), Gaps(s, maxLength))
    decreases |s|
  {
    if |s| <= maxLength {
      SplitCons(s, maxLength, s, [], [], []);
    } else {
      var cut, rest := SplitPosition(s, maxLength), Remainder(s, maxLength);
      RemainderShorter(s, maxLength);
      FirstCut(s, maxLength);
      SplitPositionIsFirstPiece(s, maxLength);
      ChunksKeepText(rest, maxLength);
      if rest != [] {
        ChunksSplitInto(rest, maxLength);
        ChunksFit(rest, maxLength, 0);
        TrimStartSuffix(s[cut..]);
      }
      SplitCons(s, maxLength, s[..cut], FirstGap(s, maxLength), Chunks(rest, maxLength), Gaps(rest, maxLength));
    }
  }

  /** Every text is split into its first pieces, one after the other, up to white space between them. */
  lemma {:induction false} SplitIsFirstPieces(s: Text, maxLength: nat)
    requires maxLength >= 1
    ensures exists gaps :: SplitInto(s, maxLength, Split(s, maxLength), gaps)
  {
    if |s| <= maxLength {
      var gaps: seq<Text> := [[]];
      SplitCons(s, maxLength, s, [], [], []);
      assert [s] + [] == Split(s, maxLength) && [[]] + [] == gaps;
      assert SplitInto(s, maxLength, Split(s, maxLength), gaps);
    } else {
      ChunksSplitInto(s, maxLength);
      assert SplitInto(s, maxLength, Split(s, maxLength), Gaps(s, maxLength));
    }
  }

  lemma {:induction false} GapNotLonger(g: Text, h: Text, x: Text, y: Text)
    requires g + x == h + y && AllWhitespace(g) && (y != [] ==> !IsWhitespace(y[0]))
    ensures |g| <= |h|
  {
    assert |g + x| == |g| + |x| == |h| + |y|;
    assert forall i | 0 <= i < |g| :: (g + x)[i] == g[i];
    assert y != [] ==> (h + y)[|h|] == y[0];
  }

  lemma {:induction false} GapUnique(g: Text, h: Text, x: Text, y: Text)
    requires g + x == h + y && AllWhitespace(g) && AllWhitespace(h)
    requires (x != [] ==> !IsWhitespace(x[0])) && (y != [] ==> !IsWhitespace(y[0]))
    ensures g == h && x == y
  {
    GapNotLonger(g, h, x, y);
    GapNotLonger(h, g, y, x);
    assert g == (g + x)[..|g|] && h == (h + y)[..|h|];
    assert x == (g + x)[|g|..] && y == (h + y)[|h|..];
  }

  lemma {:induction false} SplitHead(s: Text, maxLength: nat, chunks: seq<Text>, gaps: seq<Text>)
    requires SplitInto(s, maxLength, chunks, gaps)
    ensures var rest := Interleave(chunks[1..], gaps[1..]);
            && s == chunks[0] + (gaps[0] + rest)
            && FirstPieceLength(s, |chunks[0]|, maxLength)
            && (rest == [] <==> |chunks| == 1)
            && (rest != [] ==> !IsWhitespace(rest[0]))
            && (|chunks| > 1 ==> SplitInto(rest, maxLength, chunks[1..], gaps[1..]))
  {
    var tail, tailGaps := chunks[1..], gaps[1..];
    assert chunks[0..] == chunks && gaps[0..] == gaps && RestFrom(chunks, gaps, 0) == s;
    forall i | 0 <= i < |tail| ensures RestFrom(tail, tailGaps, i) == RestFrom(chunks, gaps, i + 1) {
      assert tail[i..] == chunks[i + 1..] && tailGaps[i..] == gaps[i + 1..];
    }
  }

  /** There is one way to do so: the chunks are determined by the text and the limit. */
  lemma {:induction false} SplitIsUnique(s: Text, maxLength: nat, chunks: seq<Text>, gaps: seq<Text>,
      others: seq<Text>, otherGaps: seq<Text>)
    requires SplitInto(s, maxLength, chunks, gaps) && SplitInto(s, maxLength, others, otherGaps)
    ensures chunks == others && gaps == otherGaps
    decreases |chunks|
  {
    var rest, otherRest := Interleave(chunks[1..], gaps[1..]), Interleave(others[1..], otherGaps[1..]);
    SplitHead(s, maxLength, chunks, gaps);
    SplitHead(s, maxLength, others, otherGaps);
    FirstPieceUnique(s, |chunks[0]|, |others[0]|, maxLength);
    SamePieces(chunks[0], others[0], gaps[0] + rest, otherGaps[0] + otherRest);
    GapUnique(gaps[0], otherGaps[0], rest, otherRest);
    if |chunks| > 1 {
      SplitIsUnique(rest, maxLength, chunks[1..], gaps[1..], others[1..], otherGaps[1..]);
    }
    assert chunks == [chunks[0]] + chunks[1..] && others == [others[0]] + others[1..];
    assert gaps == [gaps[0]] + gaps[1..] && otherGaps == [otherGaps[0]] + otherGaps[1..];
  }

  lemma {:induction false} SamePieces(a: Text, b: Text, x: Text, y: Text)
    requires a + x == b + y && |a| == |b|
    ensures a == b && x == y
  {
    assert a == (a + x)[..|a|] && b == (b + y)[..|b|] && x == (a + x)[|a|..] && y == (b + y)[|b|..];
  }

  /** With a limit of zero every cut takes an empty piece and then drops the white space in front. */
  lemma {:induction false} ZeroLimitOnlyTrims(s: Text)
    requires s != []
    ensures SplitPosition(s, 0) == 0 && Remainder(s, 0) == TrimStart(s)
  {
    assert s[0..] == s;
  }

  lemma {:induction false} TrimsToNothing(s: Text)
    ensures TrimStart(s) == [] <==> AllWhitespace(s)
    ensures TrimStart(TrimStart(s)) == TrimStart(s)
  {
    TrimStartSuffix(s);
    assert s[..|s|] == s;
  }

  /** What is left after `rounds` cuts with a limit of zero, which a loop over a non-empty text goes on to cut. */
  function LeftOfZeroLimit(s: Text, rounds: nat): Text
    decreases rounds
  {
    if rounds == 0 || s == [] then s else LeftOfZeroLimit(Remainder(s, 0), rounds - 1)
  }

  lemma {:induction false} LeftIsTrimmed(s: Text, rounds: nat)
    ensures rounds >= 1 ==> LeftOfZeroLimit(s, rounds) == TrimStart(s)
    decreases rounds
  {
    if rounds >= 1 && s != [] {
      ZeroLimitOnlyTrims(s);
      TrimsToNothing(s);
      LeftIsTrimmed(TrimStart(s), rounds - 1);
    }
  }

  /** With a limit of zero the loop ends exactly on blank texts: any visible character is never reached. */
  lemma {:induction false} ZeroLimitEndsIffBlank(s: Text)
    ensures (exists rounds :: LeftOfZeroLimit(s, rounds) == []) <==> AllWhitespace(s)
  {
    TrimsToNothing(s);
    forall rounds: nat ensures LeftOfZeroLimit(s, rounds) == [] ==> TrimStart(s) == [] {
      LeftIsTrimmed(s, rounds);
    }
    LeftIsTrimmed(s, 1);
    assert LeftOfZeroLimit(s, 1) == TrimStart(s);
  }
}
