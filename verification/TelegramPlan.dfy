/**
 * The list of calls that sends a message to a chat: a typing notice, the contents in order, and
 * each block of buttons as the keyboard of a neighbouring content.
 */
module TelegramPlan {
  import opened Blocks
  import opened JsText
  import opened Wrappers

  datatype KeyboardButton = KeyboardButton(caption: Text, callbackData: Text)

  type Keyboard = seq<seq<KeyboardButton>>

  /** Where a call goes: the chat, the thread in it, and the message replied to. */
  datatype Route = Route(chatId: Text, threadId: Option<Text>, replyTo: Option<Text>)

  datatype Content = Message(text: Text) | Photo(url: Text) | Document(url: Text, filename: Text)

  datatype Call =
    | Typing(chatId: Text)
    | Send(route: Route, content: Content, markup: Option<Keyboard>)

  const MAX_TEXT_LENGTH: nat := 4096

  /** "Please choose an option:" */
  const BUTTON_PLACEHOLDER: Text :=
    [80, 108, 101, 97, 115, 101, 32, 99, 104, 111, 111, 115, 101, 32, 97, 110, 32, 111, 112, 116, 105, 111, 110, 58]

  /** One button a row. */
  function InlineKeyboard(buttons: seq<ButtonSpec>): (k: Keyboard)
  {
    seq(|buttons|, i requires 0 <= i < |buttons| => [KeyboardButton(buttons[i].caption, buttons[i].action)])
  }

  function Messages(chunks: seq<Text>): (r: seq<Content>)
  {
    seq(|chunks|, i requires 0 <= i < |chunks| => Message(chunks[i]))
  }

  function ContentsOf(b: Block): seq<Content> {
    match b
    case TextBlock(content) => Messages(Split(content, MAX_TEXT_LENGTH))
    case ImageBlock(url, _) => [Photo(url)]
    case FileBlock(url, filename) => [Document(url, filename)]
    case ButtonBlock(_) => []
  }

  /** What has to be sent, in the order of the blocks. */
  function Contents(blocks: seq<Block>): seq<Content> {
    if blocks == [] then [] else Contents(blocks[..|blocks| - 1]) + ContentsOf(blocks[|blocks| - 1])
  }

  function Keyboards(blocks: seq<Block>): seq<Keyboard> {
    if blocks == [] then []
    else
      var last := blocks[|blocks| - 1];
      Keyboards(blocks[..|blocks| - 1]) + if last.ButtonBlock? then [InlineKeyboard(last.buttons)] else []
  }

  // ---- Which keyboards survive ----

  /**
   * Free: the last call is a content without keyboard. Taken: there is no such call. Waiting:
   * moreover a keyboard is held back for the next content.
   */
  datatype Phase = Free | Taken | Waiting

  function Next(p: Phase, b: Block): Phase {
    if b.ButtonBlock? then (if p == Free then Taken else Waiting)
    else (if p == Waiting then Taken else Free)
  }

  function PhaseAfter(blocks: seq<Block>): Phase {
    if blocks == [] then Taken else Next(PhaseAfter(blocks[..|blocks| - 1]), blocks[|blocks| - 1])
  }

  /** The keyboards sent: one that is held back is replaced by a keyboard directly following it. */
  function Shown(blocks: seq<Block>): (r: seq<Keyboard>)
    ensures PhaseAfter(blocks) == Waiting ==> r != []
  {
    if blocks == [] then []
    else
      var before, last := blocks[..|blocks| - 1], blocks[|blocks| - 1];
      if !last.ButtonBlock? then Shown(before)
      else if PhaseAfter(before) == Waiting then Shown(before)[..|Shown(before)| - 1] + [InlineKeyboard(last.buttons)]
      else Shown(before) + [InlineKeyboard(last.buttons)]
  }

  /**
   * Which contents carry the keyboards: the last content before the buttons if that is free,
   * otherwise the last piece of the next content block.
   */
  function Places(blocks: seq<Block>): seq<int> {
    if blocks == [] then []
    else
      var before, last := blocks[..|blocks| - 1], blocks[|blocks| - 1];
      if last.ButtonBlock? then Places(before) + if PhaseAfter(before) == Free then [|Contents(before)| - 1] else []
      else Places(before) + if PhaseAfter(before) == Waiting then [|Contents(blocks)| - 1] else []
  }

  /** How many keyboards are replaced while held back. */
  function Lost(blocks: seq<Block>): nat {
    if blocks == [] then 0
    else
      var before, last := blocks[..|blocks| - 1], blocks[|blocks| - 1];
      Lost(before) + if last.ButtonBlock? && PhaseAfter(before) == Waiting then 1 else 0
  }

  /** The sent keyboards and the lost ones are all there are. */
  lemma {:induction false} KeyboardsAccounted(blocks: seq<Block>)
    ensures |Shown(blocks)| + Lost(blocks) == |Keyboards(blocks)|
    ensures Lost(blocks) == 0 ==> Shown(blocks) == Keyboards(blocks)
  {
    if blocks != [] {
      KeyboardsAccounted(blocks[..|blocks| - 1]);
    }
  }

  /** Every keyboard is sent, in order, exactly when none is replaced. */
  lemma {:induction false} AllShownIffNoneLost(blocks: seq<Block>)
    ensures Shown(blocks) == Keyboards(blocks) <==> Lost(blocks) == 0
  {
    KeyboardsAccounted(blocks);
  }

  /**
   * The blocks from `j` to `i` are by turns buttons and a content, beginning and ending with buttons, and nothing
   * free precedes them: each keyboard of the stretch takes the content after it, which the next one then lacks.
   */
  ghost predicate Stuck(blocks: seq<Block>, j: nat, i: nat) {
    && j <= i < |blocks|
    && (i - j) % 2 == 0
    && (forall m | j <= m <= i :: blocks[m].ButtonBlock? <==> (m - j) % 2 == 0)
    && (j == 0 || blocks[j - 1].ButtonBlock?)
  }

  /** The keyboard of the block at `i` finds no free content before it. */
  ghost predicate Unplaced(blocks: seq<Block>, i: nat) {
    exists j :: Stuck(blocks, j, i)
  }

  /** The keyboard of the block at `i` finds no free content before it, and more buttons follow directly. */
  ghost predicate Loses(blocks: seq<Block>, i: nat) {
    i + 1 < |blocks| && blocks[i].ButtonBlock? && blocks[i + 1].ButtonBlock? && Unplaced(blocks, i)
  }

  /** A stretch that goes on by a content and buttons, or not. */
  lemma {:induction false} StuckShorter(blocks: seq<Block>, j: nat, k: nat, i: nat)
    requires j <= k && i == k + 2 < |blocks| && blocks[i].ButtonBlock? && !blocks[i - 1].ButtonBlock?
    ensures Stuck(blocks, j, i) <==> Stuck(blocks, j, k)
  {
    var d := k - j;
    assert (d + 1) % 2 != d % 2 && (d + 2) % 2 == d % 2;
    assert i - j == d + 2 && i - 1 - j == d + 1;
  }

  lemma {:induction false} UnplacedFurther(blocks: seq<Block>, k: nat, i: nat)
    requires i == k + 2 < |blocks| && blocks[i].ButtonBlock? && !blocks[i - 1].ButtonBlock?
    ensures Unplaced(blocks, i) <==> Unplaced(blocks, k)
  {
    if j: nat :| Stuck(blocks, j, i) {
      assert j != i && j != i - 1;
      StuckShorter(blocks, j, k, i);
    }
    if j: nat :| Stuck(blocks, j, k) {
      StuckShorter(blocks, j, k, i);
    }
  }

  /** The builder's state before a block of buttons, read off the kinds of the blocks before it. */
  lemma {:induction false} NoFreeContentIffUnplaced(blocks: seq<Block>, i: nat)
    requires i < |blocks| && blocks[i].ButtonBlock?
    ensures PhaseAfter(blocks[..i]) != Free <==> Unplaced(blocks, i)
    decreases i
  {
    if i == 0 || blocks[i - 1].ButtonBlock? {
      assert Stuck(blocks, i, i);
      assert i > 0 ==> blocks[..i][..i - 1] == blocks[..i - 1];
    } else {
      assert blocks[..i][..i - 1] == blocks[..i - 1];
      if i == 1 {
        assert !Unplaced(blocks, i);
      } else {
        assert blocks[..i - 1][..i - 2] == blocks[..i - 2];
        UnplacedFurther(blocks, i - 2, i);
        if blocks[i - 2].ButtonBlock? {
          NoFreeContentIffUnplaced(blocks, i - 2);
        } else {
          assert !Unplaced(blocks, i - 2);
        }
      }
    }
  }

  lemma {:induction false} LosesSooner(blocks: seq<Block>, n: nat, i: nat)
    requires i + 1 < n <= |blocks|
    ensures Loses(blocks[..n], i) <==> Loses(blocks, i)
  {
    if Unplaced(blocks[..n], i) {
      var j :| Stuck(blocks[..n], j, i);
      assert forall m | 0 <= m < n :: blocks[m] == blocks[..n][m];
      assert Stuck(blocks, j, i);
    }
    if Unplaced(blocks, i) {
      var j :| Stuck(blocks, j, i);
      assert Stuck(blocks[..n], j, i);
    }
  }

  /** The blocks whose keyboards are lost. */
  ghost function LostAt(blocks: seq<Block>): set<nat> {
    set i | 0 <= i < |blocks| && Loses(blocks, i)
  }

  /** The keyboards of the blocks before `n` that are not lost. */
  ghost function Surviving(blocks: seq<Block>, n: nat): seq<Keyboard>
    requires n <= |blocks|
  {
    if n == 0 then []
    else
      Surviving(blocks, n - 1) +
      if blocks[n - 1].ButtonBlock? && !Loses(blocks, n - 1) then [InlineKeyboard(blocks[n - 1].buttons)] else []
  }

  lemma {:induction false} SurvivingSooner(blocks: seq<Block>, k: nat, n: nat)
    requires k < n <= |blocks|
    ensures Surviving(blocks[..n], k) == Surviving(blocks, k)
  {
    if k > 0 {
      SurvivingSooner(blocks, k - 1, n);
      LosesSooner(blocks, n, k - 1);
    }
  }

  lemma {:induction false} SurvivingLast(blocks: seq<Block>)
    requires |blocks| >= 2
    ensures var last := |blocks| - 1;
            Surviving(blocks[..last], last) ==
            Surviving(blocks, last - 1)
            + if blocks[last - 1].ButtonBlock? then [InlineKeyboard(blocks[last - 1].buttons)] else []
  {
    SurvivingSooner(blocks, |blocks| - 2, |blocks| - 1);
  }

  /** Whether the last but one keyboard is lost is decided by the last block, and by nothing later. */
  lemma {:induction false} LostByNext(blocks: seq<Block>)
    requires |blocks| >= 2
    ensures var last := |blocks| - 1;
            Loses(blocks, last - 1) <==> blocks[last].ButtonBlock? && PhaseAfter(blocks[..last]) == Waiting
  {
    var last := |blocks| - 1;
    assert blocks[..last][..last - 1] == blocks[..last - 1];
    if blocks[last - 1].ButtonBlock? {
      NoFreeContentIffUnplaced(blocks, last - 1);
    }
  }

  /** One more block loses at most the keyboard before it. */
  lemma {:induction false} LostStep(blocks: seq<Block>)
    requires |blocks| >= 2
    ensures var last := |blocks| - 1;
            LostAt(blocks) == LostAt(blocks[..last]) + if Loses(blocks, last - 1) then {last - 1} else {}
    ensures |LostAt(blocks)| == |LostAt(blocks[..|blocks| - 1])| + if Loses(blocks, |blocks| - 2) then 1 else 0
  {
    var last := |blocks| - 1;
    forall i | 0 <= i < last - 1 ensures i in LostAt(blocks[..last]) <==> i in LostAt(blocks) {
      LosesSooner(blocks, last, i);
    }
    assert LostAt(blocks) == LostAt(blocks[..last]) + if Loses(blocks, last - 1) then {last - 1} else {};
  }

  /** As many keyboards are lost as there are blocks that `Loses` names. */
  lemma {:induction false} LostExactlyWhere(blocks: seq<Block>)
    ensures Lost(blocks) == |LostAt(blocks)|
  {
    if |blocks| == 1 {
      assert LostAt(blocks) == {};
    } else if |blocks| >= 2 {
      LostExactlyWhere(blocks[..|blocks| - 1]);
      LostStep(blocks);
      LostByNext(blocks);
    }
  }

  /** The keyboards sent are those of all other blocks, in order. */
  lemma {:induction false} OthersAreSent(blocks: seq<Block>)
    ensures Shown(blocks) == Surviving(blocks, |blocks|)
  {
    if |blocks| == 1 {
      assert Surviving(blocks, 1) == Surviving(blocks, 0) + Shown(blocks);
    } else if |blocks| >= 2 {
      var last := |blocks| - 1;
      OthersAreSent(blocks[..last]);
      SurvivingLast(blocks);
      LostByNext(blocks);
      if blocks[last].ButtonBlock? && PhaseAfter(blocks[..last]) == Waiting {
        assert Shown(blocks[..last])[..|Shown(blocks[..last])| - 1] == Surviving(blocks, last - 1);
      }
    }
  }

  ghost predicate NoAdjacentButtons(blocks: seq<Block>) {
    forall i | 0 <= i < |blocks| - 1 :: !(blocks[i].ButtonBlock? && blocks[i + 1].ButtonBlock?)
  }

  lemma {:induction false} ApartNoneLost(blocks: seq<Block>)
    requires NoAdjacentButtons(blocks)
    ensures Lost(blocks) == 0
  {
    LostExactlyWhere(blocks);
    assert LostAt(blocks) == {};
  }

  /** Three blocks of buttons in a row lose the keyboard of the middle one, and two at the start that of the first. */
  lemma {:induction false} CrowdedLoses(blocks: seq<Block>, i: nat)
    requires i + 1 < |blocks| && blocks[i].ButtonBlock? && blocks[i + 1].ButtonBlock?
    requires i == 0 || blocks[i - 1].ButtonBlock?
    ensures i in LostAt(blocks) && Lost(blocks) > 0
  {
    assert Stuck(blocks, i, i);
    LostExactlyWhere(blocks);
  }

  // ---- Coalescing does not touch the buttons ----

  lemma {:induction false} KeyboardsCons(b: Block, rest: seq<Block>)
    ensures Keyboards([b] + rest) == Keyboards([b]) + Keyboards(rest)
  {
    if rest == [] {
      assert [b] + rest == [b];
    } else {
      var all, fewer := [b] + rest, rest[..|rest| - 1];
      assert all[..|all| - 1] == [b] + fewer;
      KeyboardsCons(b, fewer);
    }
  }

  lemma {:induction false} KeyboardsCoalesced(blocks: seq<Block>)
    ensures Keyboards(Coalesced(blocks)) == Keyboards(blocks)
  {
    if blocks != [] {
      var rest := Coalesced(blocks[1..]);
      KeyboardsCoalesced(blocks[1..]);
      assert blocks == [blocks[0]] + blocks[1..];
      KeyboardsCons(blocks[0], blocks[1..]);
      KeyboardsCons(blocks[0], rest);
      if blocks[0].TextBlock? && rest != [] && rest[0].TextBlock? {
        assert rest == [rest[0]] + rest[1..];
        KeyboardsCons(rest[0], rest[1..]);
        KeyboardsCons(TextBlock(blocks[0].content + [NEWLINE] + rest[0].content), rest[1..]);
      }
    }
  }

  lemma {:induction false} ApartCoalesced(blocks: seq<Block>)
    requires NoAdjacentButtons(blocks)
    ensures NoAdjacentButtons(Coalesced(blocks))
    ensures blocks != [] ==> Coalesced(blocks) != [] && (Coalesced(blocks)[0].ButtonBlock? <==> blocks[0].ButtonBlock?)
  {
    if blocks != [] {
      ApartCoalesced(blocks[1..]);
    }
  }

  // ---- The plan ----

  /** Contents, the keyboards sent with some of them, and which contents those are. */
  datatype Sendings = Sendings(contents: seq<Content>, keyboards: seq<Keyboard>, places: seq<int>)

  function Plus(s: Sendings, content: Content, markup: Option<Keyboard>): Sendings {
    Sendings(s.contents + [content],
             s.keyboards + (if markup.Some? then [markup.value] else []),
             s.places + if markup.Some? then [|s.contents|] else [])
  }

  function SentBy(plan: seq<Call>): Sendings {
    if plan == [] then Sendings([], [], [])
    else
      var before, last := SentBy(plan[..|plan| - 1]), plan[|plan| - 1];
      if last.Send? then Plus(before, last.content, last.markup) else before
  }

  /** Every call but the leading typing notice sends something, to the message's chat, thread and reply target. */
  ghost predicate Routed(plan: seq<Call>, route: Route) {
    && plan != []
    && plan[0] == Typing(route.chatId)
    && forall i | 1 <= i < |plan| :: plan[i].Send? && plan[i].route == route
  }

  /** The state of the builder, as its plan and its held-back keyboard show it. */
  function PhaseOf(plan: seq<Call>, pending: Option<Keyboard>): Phase {
    if pending.Some? then Waiting
    else if plan != [] && plan[|plan| - 1].Send? && plan[|plan| - 1].markup.None? then Free
    else Taken
  }

  function HeldBack(pending: Option<Keyboard>): seq<Keyboard> {
    if pending.Some? then [pending.value] else []
  }

  ghost predicate Built(plan: seq<Call>, pending: Option<Keyboard>, route: Route, done: seq<Block>) {
    var sent := SentBy(plan);
    && Routed(plan, route)
    && sent.contents == Contents(done)
    && sent.keyboards + HeldBack(pending) == Shown(done)
    && sent.places == Places(done)
    && PhaseOf(plan, pending) == PhaseAfter(done)
    && (pending.Some? ==> PhaseOf(plan, None) != Free)
  }

  /** Some contents were sent, the last of them with the held-back keyboard. */
  ghost predicate Extends(plan: seq<Call>, longer: seq<Call>, route: Route, contents: seq<Content>,
      pending: Option<Keyboard>) {
    var sent := SentBy(plan);
    && Routed(longer, route)
    && PhaseOf(longer, None) == (if pending.Some? then Taken else Free)
    && SentBy(longer) == Sendings(sent.contents + contents,
                                  sent.keyboards + HeldBack(pending),
                                  sent.places + if pending.Some? then [|sent.contents| + |contents| - 1] else [])
  }

  method PushContent(plan: seq<Call>, route: Route, content: Content,
      pending: Option<Keyboard>) returns (longer: seq<Call>)
    requires Routed(plan, route)
    ensures Extends(plan, longer, route, [content], pending)
  {
    longer := plan + [Send(route, content, pending)];
    assert longer[..|plan|] == plan;
  }

  lemma {:induction false} ExtendsFurther(plan: seq<Call>, middle: seq<Call>, longer: seq<Call>, route: Route,
      contents: seq<Content>, content: Content, pending: Option<Keyboard>)
    requires if contents == [] then middle == plan else Extends(plan, middle, route, contents, None)
    requires Extends(middle, longer, route, [content], pending)
    ensures Extends(plan, longer, route, contents + [content], pending)
  {
    var sent := SentBy(plan);
    assert sent.contents + (contents + [content]) == (sent.contents + contents) + [content];
    assert sent.keyboards + [] == sent.keyboards && sent.places + [] == sent.places;
  }

  /** Only the last piece of a text takes the held-back keyboard. */
  method PushText(plan: seq<Call>, route: Route, chunks: seq<Text>,
      pending: Option<Keyboard>) returns (longer: seq<Call>)
    requires Routed(plan, route) && chunks != []
    ensures Extends(plan, longer, route, Messages(chunks), pending)
  {
    longer := plan;
    var kept := pending;
    for c := 0 to |chunks|
      invariant kept == if c == |chunks| then None else pending
      invariant c == 0 ==> longer == plan
      invariant c > 0 ==> Extends(plan, longer, route, Messages(chunks[..c]), if c == |chunks| then pending else None)
    {
      var isLast := c == |chunks| - 1;
      var middle, markup := longer, if isLast then kept else None;
      longer := PushContent(middle, route, Message(chunks[c]), markup);
      ExtendsFurther(plan, middle, longer, route, Messages(chunks[..c]), Message(chunks[c]), markup);
      if isLast {
        kept := None;
      }
      assert Messages(chunks[..c + 1]) == Messages(chunks[..c]) + [Message(chunks[c])];
    }
    assert chunks[..|chunks|] == chunks;
  }

  ghost predicate Attached(plan: seq<Call>, changed: seq<Call>, keyboard: Keyboard,
                           pending: Option<Keyboard>, held: Option<Keyboard>, route: Route) {
    if PhaseOf(plan, None) == Free then
      && held == pending
      && Routed(changed, route)
      && PhaseOf(changed, None) == Taken
      && SentBy(changed) == Sendings(SentBy(plan).contents, SentBy(plan).keyboards + [keyboard],
                                     SentBy(plan).places + [|SentBy(plan).contents| - 1])
    else changed == plan && held == Some(keyboard)
  }

  method Attach(plan: seq<Call>, keyboard: Keyboard, pending: Option<Keyboard>, route: Route)
    returns (changed: seq<Call>, held: Option<Keyboard>)
    requires Routed(plan, route)
    ensures Attached(plan, changed, keyboard, pending, held, route)
  {
    var last := plan[|plan| - 1];
    if last.Send? && last.markup.None? {
      changed, held := plan[|plan| - 1 := last.(markup := Some(keyboard))], pending;
      assert changed[..|plan| - 1] == plan[..|plan| - 1];
    } else {
      changed, held := plan, Some(keyboard);
    }
  }

  lemma {:induction false} ContentBuilt(plan: seq<Call>, longer: seq<Call>, pending: Option<Keyboard>,
      route: Route, block: Block, done: seq<Block>)
    requires Built(plan, pending, route, done) && !block.ButtonBlock?
    requires Extends(plan, longer, route, ContentsOf(block), pending)
    ensures Built(longer, None, route, done + [block])
  {
    assert (done + [block])[..|done|] == done;
  }

  method RenderBlock(plan: seq<Call>, pending: Option<Keyboard>, route: Route, block: Block, ghost done: seq<Block>)
    returns (longer: seq<Call>, held: Option<Keyboard>)
    requires Built(plan, pending, route, done)
    ensures Built(longer, held, route, done + [block])
  {
    if block.ButtonBlock? {
      longer, held := Attach(plan, InlineKeyboard(block.buttons), pending, route);
      assert (done + [block])[..|done|] == done;
    } else {
      match block {
        case TextBlock(content) =>
          var chunks := SplitText(content, MAX_TEXT_LENGTH);
          SplitKeepsText(content, MAX_TEXT_LENGTH);
          longer := PushText(plan, route, chunks, pending);
        case ImageBlock(url, _) =>
          longer := PushContent(plan, route, Photo(url), pending);
        case FileBlock(url, filename) =>
          longer := PushContent(plan, route, Document(url, filename), pending);
      }
      held := None;
      ContentBuilt(plan, longer, pending, route, block, done);
    }
  }

  /**
   * All contents in order, then a placeholder if a keyboard is left over, and every surviving keyboard on its
   * content.
   */
  ghost predicate Renders(plan: seq<Call>, route: Route, blocks: seq<Block>) {
    var leftOver := PhaseAfter(blocks) == Waiting;
    && Routed(plan, route)
    && SentBy(plan) == Sendings(Contents(blocks) + (if leftOver then [Message(BUTTON_PLACEHOLDER)] else []),
                                Shown(blocks),
                                Places(blocks) + if leftOver then [|Contents(blocks)|] else [])
  }

  /** A keyboard left over at the end is sent with a placeholder text. */
  method EmitLeftOver(plan: seq<Call>, pending: Option<Keyboard>, route: Route,
      ghost done: seq<Block>) returns (longer: seq<Call>)
    requires Built(plan, pending, route, done)
    ensures Renders(longer, route, done)
  {
    longer := plan;
    if pending.Some? {
      longer := PushContent(plan, route, Message(BUTTON_PLACEHOLDER), pending);
    }
  }

  lemma {:induction false} NothingBuilt(route: Route, blocks: seq<Block>)
    ensures Built([Typing(route.chatId)], None, route, blocks[..0])
  {
    assert [Typing(route.chatId)][..0] == [];
  }

  method RenderNext(plan: seq<Call>, pending: Option<Keyboard>, route: Route, blocks: seq<Block>, i: nat)
    returns (longer: seq<Call>, held: Option<Keyboard>)
    requires i < |blocks| && Built(plan, pending, route, blocks[..i])
    ensures Built(longer, held, route, blocks[..i + 1])
  {
    longer, held := RenderBlock(plan, pending, route, blocks[i], blocks[..i]);
    assert blocks[..i] + [blocks[i]] == blocks[..i + 1];
  }

  // ---- The plan, said block by block ----

  /** One row for each button, with its caption and its action as the data sent back. */
  ghost predicate IsKeyboard(keyboard: Keyboard, buttons: seq<ButtonSpec>) {
    && |keyboard| == |buttons|
    && forall i | 0 <= i < |buttons| :: keyboard[i] == [KeyboardButton(buttons[i].caption, buttons[i].action)]
  }

  ghost predicate AreMessages(contents: seq<Content>, texts: seq<Text>) {
    |contents| == |texts| && forall i | 0 <= i < |texts| :: contents[i] == Message(texts[i])
  }

  /** The contents of one block: the pieces of its text, its one image or file, and nothing for buttons. */
  ghost predicate ShowsBlock(contents: seq<Content>, b: Block) {
    match b
    case TextBlock(content) =>
      exists texts, gaps :: AreMessages(contents, texts) && SplitInto(content, MAX_TEXT_LENGTH, texts, gaps)
    case ImageBlock(url, _) => contents == [Photo(url)]
    case FileBlock(url, filename) => contents == [Document(url, filename)]
    case ButtonBlock(_) => contents == []
  }

  ghost predicate BlockAt(contents: seq<Content>, b: Block, from: nat, to: nat) {
    from <= to <= |contents| && ShowsBlock(contents[from..to], b)
  }

  /** Cut at these positions, the contents are those of the blocks, in order. */
  ghost predicate ShowsBlocks(contents: seq<Content>, blocks: seq<Block>, cuts: seq<nat>) {
    && |cuts| == |blocks| + 1 && cuts[0] == 0 && cuts[|blocks|] == |contents|
    && forall i | 0 <= i < |blocks| :: BlockAt(contents, blocks[i], cuts[i], cuts[i + 1])
  }

  ghost predicate Survives(blocks: seq<Block>, i: nat) {
    i < |blocks| && blocks[i].ButtonBlock? && !Loses(blocks, i)
  }

  /**
   * Which content carries the keyboard of the block at `i`: the last one before it if that is free, else the last one
   * of the next block, else the placeholder after all others.
   */
  ghost function Home(blocks: seq<Block>, cuts: seq<nat>, i: nat): int
    requires i < |blocks| && |cuts| == |blocks| + 1
  {
    if !Unplaced(blocks, i) then cuts[i] as int - 1
    else if i + 1 < |blocks| then cuts[i + 2] as int - 1
    else cuts[|blocks|]
  }

  ghost predicate NeedsPlaceholder(blocks: seq<Block>) {
    blocks != [] && blocks[|blocks| - 1].ButtonBlock? && Unplaced(blocks, |blocks| - 1)
  }

  /** The c-th content of a plan, after its typing notice, is sent with a keyboard. */
  ghost predicate HasKeyboard(plan: seq<Call>, c: int) {
    0 <= c < |plan| - 1 && plan[c + 1].Send? && plan[c + 1].markup.Some?
  }

  ghost predicate Carries(plan: seq<Call>, c: int, buttons: seq<ButtonSpec>) {
    HasKeyboard(plan, c) && IsKeyboard(plan[c + 1].markup.value, buttons)
  }

  ghost predicate Belongs(plan: seq<Call>, blocks: seq<Block>, cuts: seq<nat>, c: nat, i: nat)
    requires |cuts| == |blocks| + 1
  {
    Survives(blocks, i) && Home(blocks, cuts, i) == c && Carries(plan, c, blocks[i].buttons)
  }

  /** Every surviving keyboard is sent with its content, and no other keyboard is sent. */
  ghost predicate KeyboardsAtHome(plan: seq<Call>, blocks: seq<Block>, cuts: seq<nat>)
    requires |cuts| == |blocks| + 1
  {
    && (forall i: nat | Survives(blocks, i) :: Carries(plan, Home(blocks, cuts, i), blocks[i].buttons))
    && forall c: nat | HasKeyboard(plan, c) :: exists i :: Belongs(plan, blocks, cuts, c, i)
  }

  ghost function ContentsSent(plan: seq<Call>): (r: seq<Content>)
    requires plan != [] && forall c | 1 <= c < |plan| :: plan[c].Send?
  {
    seq(|plan| - 1, c requires 0 <= c < |plan| - 1 => plan[c + 1].content)
  }

  /** The plan sends the contents of the blocks, a placeholder where one is needed, and the keyboards at their homes. */
  ghost predicate Delivers(plan: seq<Call>, route: Route, blocks: seq<Block>, contents: seq<Content>,
      cuts: seq<nat>) {
    && Routed(plan, route)
    && ShowsBlocks(contents, blocks, cuts)
    && ContentsSent(plan) == contents + (if NeedsPlaceholder(blocks) then [Message(BUTTON_PLACEHOLDER)] else [])
    && KeyboardsAtHome(plan, blocks, cuts)
  }

  function Cuts(blocks: seq<Block>): (r: seq<nat>)
  {
    seq(|blocks| + 1, i requires 0 <= i <= |blocks| => |Contents(blocks[..i])|)
  }

  lemma {:induction false} ContentsPrefix(blocks: seq<Block>, i: nat, n: nat)
    requires i <= n <= |blocks|
    ensures Contents(blocks[..i]) <= Contents(blocks[..n])
    decreases n
  {
    if i < n {
      assert blocks[..n][..n - 1] == blocks[..n - 1];
      ContentsPrefix(blocks, i, n - 1);
    }
  }

  lemma {:induction false} ContentsAt(blocks: seq<Block>, i: nat)
    requires i < |blocks|
    ensures var cuts, contents := Cuts(blocks), Contents(blocks);
            cuts[i] <= cuts[i + 1] <= |contents| && contents[cuts[i]..cuts[i + 1]] == ContentsOf(blocks[i])
  {
    var upTo, part := Contents(blocks[..i]), ContentsOf(blocks[i]);
    assert Contents(blocks[..i + 1]) == upTo + part by {
      assert blocks[..i + 1][..i] == blocks[..i];
    }
    assert upTo + part <= Contents(blocks) by {
      ContentsPrefix(blocks, i + 1, |blocks|);
      assert blocks[..|blocks|] == blocks;
    }
  }

  lemma {:induction false} ContentsShowBlock(b: Block)
    ensures ShowsBlock(ContentsOf(b), b)
  {
    if b.TextBlock? {
      SplitIsFirstPieces(b.content, MAX_TEXT_LENGTH);
      assert AreMessages(ContentsOf(b), Split(b.content, MAX_TEXT_LENGTH));
    }
  }

  lemma {:induction false} ContentsShowBlocks(blocks: seq<Block>)
    ensures ShowsBlocks(Contents(blocks), blocks, Cuts(blocks))
  {
    assert blocks[..|blocks|] == blocks;
    forall i | 0 <= i < |blocks| ensures BlockAt(Contents(blocks), blocks[i], Cuts(blocks)[i], Cuts(blocks)[i + 1]) {
      ContentsAt(blocks, i);
      ContentsShowBlock(blocks[i]);
    }
  }

  /** The homes of the surviving keyboards among the first blocks, in order. */
  ghost function Homes(blocks: seq<Block>, n: nat): seq<int>
    requires n <= |blocks|
  {
    if n == 0 then []
    else Homes(blocks, n - 1) + if Survives(blocks, n - 1) then [Home(blocks, Cuts(blocks), n - 1)] else []
  }

  lemma {:induction false} UnplacedSooner(blocks: seq<Block>, n: nat, i: nat)
    requires i < n <= |blocks|
    ensures Unplaced(blocks[..n], i) <==> Unplaced(blocks, i)
  {
    if j: nat :| Stuck(blocks[..n], j, i) {
      assert forall m | 0 <= m < n :: blocks[m] == blocks[..n][m];
      assert Stuck(blocks, j, i);
    }
    if j: nat :| Stuck(blocks, j, i) {
      assert Stuck(blocks[..n], j, i);
    }
  }

  lemma {:induction false} HomeSooner(blocks: seq<Block>, n: nat, i: nat)
    requires i < n <= |blocks| && (i + 1 < n || !Unplaced(blocks, i))
    ensures Home(blocks[..n], Cuts(blocks[..n]), i) == Home(blocks, Cuts(blocks), i)
  {
    UnplacedSooner(blocks, n, i);
    assert blocks[..n][..i] == blocks[..i];
    if i + 1 < n {
      assert blocks[..n][..i + 2] == blocks[..i + 2];
    }
  }

  lemma {:induction false} HomesSooner(blocks: seq<Block>, k: nat, n: nat)
    requires k < n <= |blocks|
    ensures Homes(blocks[..n], k) == Homes(blocks, k)
  {
    if k > 0 {
      HomesSooner(blocks, k - 1, n);
      LosesSooner(blocks, n, k - 1);
      HomeSooner(blocks, n, k - 1);
    }
  }

  function LeftOver(blocks: seq<Block>): seq<int> {
    if PhaseAfter(blocks) == Waiting then [|Contents(blocks)|] else []
  }

  /** A keyboard is held back at the end exactly when the last block is buttons without a free content. */
  lemma {:induction false} WaitingIffNeedsPlaceholder(blocks: seq<Block>)
    ensures PhaseAfter(blocks) == Waiting <==> NeedsPlaceholder(blocks)
  {
    if blocks != [] && blocks[|blocks| - 1].ButtonBlock? {
      NoFreeContentIffUnplaced(blocks, |blocks| - 1);
    }
  }

  /** The home of the last block's keyboard. */
  lemma {:induction false} LastHome(blocks: seq<Block>)
    requires blocks != [] && blocks[|blocks| - 1].ButtonBlock?
    ensures var last := |blocks| - 1;
            Home(blocks, Cuts(blocks), last) ==
            if PhaseAfter(blocks[..last]) == Free then |Contents(blocks[..last])| - 1 else |Contents(blocks)|
  {
    NoFreeContentIffUnplaced(blocks, |blocks| - 1);
    assert blocks[..|blocks|] == blocks;
  }

  lemma {:induction false} HomesBeforeLast(blocks: seq<Block>)
    requires |blocks| >= 2
    ensures var last := |blocks| - 1;
            Homes(blocks[..last], last) ==
            Homes(blocks, last - 1)
            + if blocks[last - 1].ButtonBlock? then [Home(blocks[..last], Cuts(blocks[..last]), last - 1)] else []
  {
    HomesSooner(blocks, |blocks| - 2, |blocks| - 1);
    assert Survives(blocks[..|blocks| - 1], |blocks| - 2) <==> blocks[|blocks| - 2].ButtonBlock?;
  }

  lemma {:induction false} PlacedUnlessHeldBack(blocks: seq<Block>, n: nat)
    requires 1 <= n <= |blocks| && blocks[n - 1].ButtonBlock? && PhaseAfter(blocks[..n]) != Waiting
    ensures !Unplaced(blocks, n - 1)
  {
    NoFreeContentIffUnplaced(blocks, n - 1);
    assert blocks[..n][..n - 1] == blocks[..n - 1];
  }

  /** A last block after no keyboard held back changes no home before it. */
  lemma {:induction false} HomesStay(blocks: seq<Block>)
    requires |blocks| >= 2 && PhaseAfter(blocks[..|blocks| - 1]) != Waiting
    ensures Homes(blocks, |blocks| - 1) == Homes(blocks[..|blocks| - 1], |blocks| - 1)
  {
    var last := |blocks| - 1;
    HomesBeforeLast(blocks);
    if blocks[last - 1].ButtonBlock? {
      PlacedUnlessHeldBack(blocks, last);
      HomeSooner(blocks, last, last - 1);
      assert Survives(blocks, last - 1);
    }
  }

  /** After a keyboard held back, a last block gives it a home or replaces it. */
  lemma {:induction false} HomesSettle(blocks: seq<Block>)
    requires |blocks| >= 2 && PhaseAfter(blocks[..|blocks| - 1]) == Waiting
    ensures Homes(blocks, |blocks| - 1) ==
            Homes(blocks, |blocks| - 2) + if blocks[|blocks| - 1].ButtonBlock? then [] else [|Contents(blocks)| - 1]
  {
    var last := |blocks| - 1;
    LostByNext(blocks);
    WaitingIffNeedsPlaceholder(blocks[..last]);
    UnplacedSooner(blocks, last, last - 1);
    assert Home(blocks, Cuts(blocks), last - 1) == |Contents(blocks)| - 1 by {
      assert blocks[..last + 1] == blocks;
    }
  }

  /** The last block settles where a keyboard held back before it goes, unless it replaces it. */
  lemma {:induction false} HeldBackHome(blocks: seq<Block>)
    requires |blocks| >= 2
    requires Places(blocks[..|blocks| - 1]) + LeftOver(blocks[..|blocks| - 1])
             == Homes(blocks[..|blocks| - 1], |blocks| - 1)
    ensures var last := |blocks| - 1;
            Homes(blocks, last) ==
            Places(blocks[..last])
            + if PhaseAfter(blocks[..last]) == Waiting && !blocks[last].ButtonBlock?
              then [|Contents(blocks)| - 1] else []
  {
    var before, last := blocks[..|blocks| - 1], |blocks| - 1;
    HomesBeforeLast(blocks);
    if PhaseAfter(before) != Waiting {
      HomesStay(blocks);
    } else {
      HomesSettle(blocks);
      LastHome(before);
      var kept := Homes(blocks, last - 1);
      assert Homes(before, last) == kept + [|Contents(before)|];
      assert Places(before) == (Places(before) + LeftOver(before))[..|kept|] == kept;
    }
  }

  lemma {:induction false} LastContentPlaces(blocks: seq<Block>)
    requires blocks != [] && !blocks[|blocks| - 1].ButtonBlock?
    ensures LeftOver(blocks) == []
    ensures Places(blocks) ==
            Places(blocks[..|blocks| - 1])
            + if PhaseAfter(blocks[..|blocks| - 1]) == Waiting then [|Contents(blocks)| - 1] else []
  {
  }

  lemma {:induction false} LastButtonsPlaced(blocks: seq<Block>)
    requires blocks != [] && blocks[|blocks| - 1].ButtonBlock?
    ensures Places(blocks) + LeftOver(blocks) ==
            Places(blocks[..|blocks| - 1])
            + if PhaseAfter(blocks[..|blocks| - 1]) == Free then [|Contents(blocks[..|blocks| - 1])| - 1]
              else [|Contents(blocks)|]
  {
  }

  lemma {:induction false} LastHomeAdded(blocks: seq<Block>)
    requires blocks != []
    ensures Homes(blocks, |blocks|) ==
            Homes(blocks, |blocks| - 1)
            + if blocks[|blocks| - 1].ButtonBlock? then [Home(blocks, Cuts(blocks), |blocks| - 1)] else []
  {
    assert Survives(blocks, |blocks| - 1) <==> blocks[|blocks| - 1].ButtonBlock?;
  }

  /** The keyboards' places are the homes of the surviving blocks, in order. */
  lemma {:induction false} PlacesAreHomes(blocks: seq<Block>)
    ensures Places(blocks) + LeftOver(blocks) == Homes(blocks, |blocks|)
  {
    if blocks != [] {
      var last := |blocks| - 1;
      if last > 0 {
        PlacesAreHomes(blocks[..last]);
        HeldBackHome(blocks);
      }
      LastHomeAdded(blocks);
      if blocks[last].ButtonBlock? {
        LastHome(blocks);
        LastButtonsPlaced(blocks);
      } else {
        LastContentPlaces(blocks);
      }
    }
  }

  /** The k-th place of the sendings is that of a content sent with the k-th keyboard. */
  ghost predicate PlacedAt(plan: seq<Call>, sent: Sendings, k: nat)
    requires k < |sent.keyboards| == |sent.places|
  {
    HasKeyboard(plan, sent.places[k]) && plan[sent.places[k] + 1].markup == Some(sent.keyboards[k])
  }

  ghost predicate ReadsAs(plan: seq<Call>, sent: Sendings) {
    && |sent.keyboards| == |sent.places|
    && (forall k | 0 <= k < |sent.places| :: PlacedAt(plan, sent, k))
    && forall c | HasKeyboard(plan, c) :: c in sent.places
  }

  lemma {:induction false} ReadsFurther(plan: seq<Call>, sent: Sendings, call: Call)
    requires plan != [] && call.Send? && |sent.contents| == |plan| - 1 && ReadsAs(plan, sent)
    ensures ReadsAs(plan + [call], Plus(sent, call.content, call.markup))
  {
    var longer, more := plan + [call], Plus(sent, call.content, call.markup);
    forall k | 0 <= k < |more.places| ensures PlacedAt(longer, more, k) {
      if k < |sent.places| {
        assert PlacedAt(plan, sent, k);
      }
    }
    forall c | HasKeyboard(longer, c) ensures c in more.places {
      if c + 1 < |plan| {
        assert HasKeyboard(plan, c);
      }
    }
  }

  /** What is sent, read off the calls by their positions. */
  lemma {:induction false} SentByReads(plan: seq<Call>, route: Route)
    requires Routed(plan, route)
    ensures SentBy(plan).contents == ContentsSent(plan) && ReadsAs(plan, SentBy(plan))
  {
    var before, last := plan[..|plan| - 1], plan[|plan| - 1];
    if before == [] {
      assert SentBy(plan) == Sendings([], [], []);
    } else {
      SentByReads(before, route);
      ReadsFurther(before, SentBy(before), last);
      assert plan == before + [last];
    }
  }

  /** The keyboard of a surviving block and its home stand at one position. */
  ghost predicate StandsAt(blocks: seq<Block>, n: nat, i: nat, k: nat)
    requires n <= |blocks|
  {
    && Survives(blocks, i) && k < |Homes(blocks, n)| == |Surviving(blocks, n)|
    && Homes(blocks, n)[k] == Home(blocks, Cuts(blocks), i)
    && Surviving(blocks, n)[k] == InlineKeyboard(blocks[i].buttons)
  }

  lemma {:induction false} HomesAndSurviving(blocks: seq<Block>, n: nat)
    requires n <= |blocks|
    ensures |Homes(blocks, n)| == |Surviving(blocks, n)|
  {
    if n > 0 {
      HomesAndSurviving(blocks, n - 1);
    }
  }

  lemma {:induction false} StandsFurther(blocks: seq<Block>, n: nat, i: nat, k: nat)
    requires n < |blocks| && StandsAt(blocks, n, i, k)
    ensures StandsAt(blocks, n + 1, i, k)
  {
  }

  lemma {:induction false} LastStands(blocks: seq<Block>, n: nat)
    requires n < |blocks| && Survives(blocks, n)
    ensures StandsAt(blocks, n + 1, n, |Homes(blocks, n)|)
  {
    HomesAndSurviving(blocks, n);
  }

  lemma {:induction false} SurvivorStands(blocks: seq<Block>, n: nat, i: nat) returns (k: nat)
    requires i < n <= |blocks| && Survives(blocks, i)
    ensures StandsAt(blocks, n, i, k)
  {
    if i == n - 1 {
      k := |Homes(blocks, i)|;
      LastStands(blocks, i);
    } else {
      k := SurvivorStands(blocks, n - 1, i);
      StandsFurther(blocks, n - 1, i, k);
    }
  }

  lemma {:induction false} StandsForSurvivor(blocks: seq<Block>, n: nat, k: nat) returns (i: nat)
    requires n <= |blocks| && k < |Homes(blocks, n)|
    ensures StandsAt(blocks, n, i, k)
  {
    if k < |Homes(blocks, n - 1)| {
      i := StandsForSurvivor(blocks, n - 1, k);
      StandsFurther(blocks, n - 1, i, k);
    } else {
      i := n - 1;
      LastStands(blocks, i);
    }
  }

  lemma {:induction false} SurvivorCarried(plan: seq<Call>, sent: Sendings, blocks: seq<Block>, i: nat)
    requires ReadsAs(plan, sent) && Survives(blocks, i)
    requires sent.keyboards == Surviving(blocks, |blocks|) && sent.places == Homes(blocks, |blocks|)
    ensures Carries(plan, Home(blocks, Cuts(blocks), i), blocks[i].buttons)
  {
    var k := SurvivorStands(blocks, |blocks|, i);
    assert PlacedAt(plan, sent, k);
    assert sent.places[k] == Home(blocks, Cuts(blocks), i);
    assert sent.keyboards[k] == InlineKeyboard(blocks[i].buttons);
  }

  lemma {:induction false} CarriedSurvives(plan: seq<Call>, sent: Sendings, blocks: seq<Block>, c: nat)
    returns (i: nat)
    requires ReadsAs(plan, sent) && HasKeyboard(plan, c)
    requires sent.keyboards == Surviving(blocks, |blocks|) && sent.places == Homes(blocks, |blocks|)
    ensures Belongs(plan, blocks, Cuts(blocks), c, i)
  {
    var k :| 0 <= k < |sent.places| && sent.places[k] == c;
    i := StandsForSurvivor(blocks, |blocks|, k);
    SurvivorCarried(plan, sent, blocks, i);
  }

  lemma {:induction false} KeyboardsFindHome(plan: seq<Call>, route: Route, blocks: seq<Block>)
    requires Renders(plan, route, blocks)
    ensures KeyboardsAtHome(plan, blocks, Cuts(blocks))
  {
    var sent, cuts := SentBy(plan), Cuts(blocks);
    SentByReads(plan, route);
    PlacesAreHomes(blocks);
    OthersAreSent(blocks);
    forall i: nat | Survives(blocks, i) ensures Carries(plan, Home(blocks, cuts, i), blocks[i].buttons) {
      SurvivorCarried(plan, sent, blocks, i);
    }
    forall c: nat | HasKeyboard(plan, c) ensures exists i :: Belongs(plan, blocks, cuts, c, i) {
      var i := CarriedSurvives(plan, sent, blocks, c);
    }
  }

  lemma {:induction false} RendersDelivers(plan: seq<Call>, route: Route, blocks: seq<Block>)
    requires Renders(plan, route, blocks)
    ensures Delivers(plan, route, blocks, Contents(blocks), Cuts(blocks))
  {
    ContentsShowBlocks(blocks);
    SentByReads(plan, route);
    WaitingIffNeedsPlaceholder(blocks);
    KeyboardsFindHome(plan, route, blocks);
  }

  method BuildRenderPlan(route: Route, blocks: seq<Block>) returns (plan: seq<Call>)
    ensures if blocks == [] then plan == [] else Renders(plan, route, Coalesced(blocks))
    ensures blocks != [] ==> exists contents, cuts :: Delivers(plan, route, Coalesced(blocks), contents, cuts)
  {
    if blocks == [] {
      return [];
    }
    plan := [Typing(route.chatId)];
    var coalesced := CoalesceBlocks(blocks);
    var pending: Option<Keyboard> := None;
    NothingBuilt(route, coalesced);
    for i := 0 to |coalesced|
      invariant Built(plan, pending, route, coalesced[..i])
    {
      plan, pending := RenderNext(plan, pending, route, coalesced, i);
    }
    plan := EmitLeftOver(plan, pending, route, coalesced[..|coalesced|]);
    assert coalesced[..|coalesced|] == coalesced;
    RendersDelivers(plan, route, coalesced);
  }

  /** All keyboards of a message are sent, in order, exactly when none of its blocks loses one. */
  lemma {:induction false} EveryKeyboardSent(blocks: seq<Block>)
    ensures Shown(Coalesced(blocks)) == Keyboards(blocks) <==> LostAt(Coalesced(blocks)) == {}
    ensures NoAdjacentButtons(blocks) ==> LostAt(Coalesced(blocks)) == {}
  {
    KeyboardsCoalesced(blocks);
    AllShownIffNoneLost(Coalesced(blocks));
    LostExactlyWhere(Coalesced(blocks));
    if NoAdjacentButtons(blocks) {
      ApartCoalesced(blocks);
      ApartNoneLost(Coalesced(blocks));
    }
  }

  /** No message text exceeds the platform's limit. */
  lemma {:induction false} ContentsFit(blocks: seq<Block>, i: nat)
    requires i < |Contents(blocks)| && Contents(blocks)[i].Message?
    ensures |Contents(blocks)[i].text| <= MAX_TEXT_LENGTH
  {
    var before, last := blocks[..|blocks| - 1], blocks[|blocks| - 1];
    if i < |Contents(before)| {
      ContentsFit(before, i);
    } else if last.TextBlock? {
      SplitKeepsText(last.content, MAX_TEXT_LENGTH);
    }
  }
}
