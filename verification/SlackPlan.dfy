/**
 * The list of calls that posts a message: blocks gathered in posts of at most fifty, and each file
 * uploaded by itself between them.
 */
module SlackPlan {
  import opened ActionIds
  import opened Blocks
  import opened JsText
  import opened Numerals
  import opened Wrappers

  datatype ButtonElement = ButtonElement(caption: Text, actionId: Text, style: Option<Style>)

  datatype KitBlock = Section(text: Text) | Image(url: Text, alt: Text) | Actions(elements: seq<ButtonElement>)

  datatype Options = Options(channel: Text, threadTs: Option<Text>, username: Option<Text>, iconUrl: Option<Text>)

  datatype Call =
    | PostMessage(options: Options, text: Text, blocks: seq<KitBlock>)
    | FileUpload(channel: Text, url: Text, filename: Text, threadTs: Option<Text>)

  const MAX_BLOCKS_PER_MESSAGE: nat := 50

  /** "image" */
  const IMAGE: Text := [105, 109, 97, 103, 101]

  /** The platform knows no secondary style. */
  function MapButtonStyle(style: Option<Style>): Option<Style> {
    if style == Some(Secondary) then None else style
  }

  function Elements(buttons: seq<ButtonSpec>): (r: seq<ButtonElement>)
  {
    seq(|buttons|, i requires 0 <= i < |buttons| =>
      ButtonElement(buttons[i].caption, ActionId(buttons[i].action, i), MapButtonStyle(buttons[i].style)))
  }

  /** The platform demands distinct identifiers in a block. */
  lemma {:induction false} ElementIdsDistinct(buttons: seq<ButtonSpec>, i: nat, j: nat)
    requires i < |buttons| && j < |buttons| && i != j
    ensures Elements(buttons)[i].actionId != Elements(buttons)[j].actionId
  {
    ActionIdInjective(buttons[i].action, i, buttons[j].action, j);
  }

  // ---- Items: what a block becomes ----

  /** A block of a post, with its part of the fallback text if it has one, or a file. */
  datatype Item = Kit(block: KitBlock, fallback: Option<Text>) | Upload(url: Text, filename: Text)

  /** "[image: " and "]" around the description of an image. */
  function ImageFallback(description: Text): Text {
    [91, 105, 109, 97, 103, 101, 58, 32] + description + [93]
  }

  /** `mrkdwn` is the conversion to the platform's markup. */
  function ItemOf(b: Block, mrkdwn: Text -> Text): Item {
    match b
    case TextBlock(content) => Kit(Section(mrkdwn(content)), Some(content))
    case ImageBlock(url, alt) =>
      Kit(Image(url, if alt.Some? then alt.value else IMAGE), Some(ImageFallback(if alt.Some? then alt.value else url)))
    case ButtonBlock(buttons) => Kit(Actions(Elements(buttons)), None)
    case FileBlock(url, filename) => Upload(url, filename)
  }

  function Items(blocks: seq<Block>, mrkdwn: Text -> Text): (r: seq<Item>)
  {
    seq(|blocks|, i requires 0 <= i < |blocks| => ItemOf(blocks[i], mrkdwn))
  }

  // ---- Groups: the items of one call ----

  predicate AllKits(items: seq<Item>) {
    forall i | 0 <= i < |items| :: items[i].Kit?
  }

  function Concat(groups: seq<seq<Item>>): seq<Item> {
    if groups == [] then [] else Concat(groups[..|groups| - 1]) + groups[|groups| - 1]
  }

  predicate IsUpload(group: seq<Item>) {
    |group| == 1 && group[0].Upload?
  }

  predicate IsPost(group: seq<Item>) {
    1 <= |group| <= MAX_BLOCKS_PER_MESSAGE && AllKits(group)
  }

  /** Each call is one upload or a post of 1 to 50 blocks. */
  predicate WellSized(groups: seq<seq<Item>>) {
    forall i | 0 <= i < |groups| :: IsUpload(groups[i]) || IsPost(groups[i])
  }

  /** A post is directly followed by another only when it is full. */
  predicate NoEarlyBreak(groups: seq<seq<Item>>) {
    forall i | 0 <= i < |groups| - 1 ::
      IsPost(groups[i]) && IsPost(groups[i + 1]) ==> |groups[i]| == MAX_BLOCKS_PER_MESSAGE
  }

  /** The items in order, in well-sized groups, with no needless break. */
  ghost predicate Batched(groups: seq<seq<Item>>, items: seq<Item>) {
    Concat(groups) == items && WellSized(groups) && NoEarlyBreak(groups)
  }

  lemma {:induction false} ConcatFront(group: seq<Item>, groups: seq<seq<Item>>)
    ensures Concat([group] + groups) == group + Concat(groups)
  {
    var all := [group] + groups;
    if groups == [] {
      assert all[..|all| - 1] == [];
    } else {
      assert all[..|all| - 1] == [group] + groups[..|groups| - 1];
      ConcatFront(group, groups[..|groups| - 1]);
    }
  }

  /** A post goes on until it is full, or the items end, or a file comes. */
  lemma {:induction false} FirstPostIsLongest(g: seq<seq<Item>>, items: seq<Item>)
    requires Batched(g, items) && g != [] && IsPost(g[0])
    ensures |g[0]| == MAX_BLOCKS_PER_MESSAGE || |g[0]| == |items| || (|g[0]| < |items| && items[|g[0]|].Upload?)
  {
    ConcatFront(g[0], g[1..]);
    assert g == [g[0]] + g[1..];
    if |g| > 1 {
      ConcatFront(g[1], g[2..]);
      assert g[1..] == [g[1]] + g[2..];
      assert items[|g[0]|] == g[1][0];
    }
  }

  lemma {:induction false} FirstNotShorter(g: seq<seq<Item>>, h: seq<seq<Item>>, items: seq<Item>)
    requires Batched(g, items) && Batched(h, items) && g != [] && h != []
    ensures |g[0]| >= |h[0]|
  {
    ConcatFront(g[0], g[1..]);
    ConcatFront(h[0], h[1..]);
    assert g == [g[0]] + g[1..] && h == [h[0]] + h[1..];
    assert items[0] == g[0][0] == h[0][0];
    if IsPost(g[0]) {
      FirstPostIsLongest(g, items);
      assert forall k | 0 <= k < |h[0]| :: items[k] == h[0][k] && items[k].Kit?;
    }
  }

  /** There is only one way to batch: the plan is determined by sizes and order alone. */
  lemma {:induction false} BatchingIsUnique(g: seq<seq<Item>>, h: seq<seq<Item>>, items: seq<Item>)
    requires Batched(g, items) && Batched(h, items)
    ensures g == h
  {
    if g != [] && h != [] {
      FirstNotShorter(g, h, items);
      FirstNotShorter(h, g, items);
      ConcatFront(g[0], g[1..]);
      ConcatFront(h[0], h[1..]);
      assert g == [g[0]] + g[1..] && h == [h[0]] + h[1..];
      var n := |g[0]|;
      assert g[0] == items[..n] == h[0];
      assert Concat(g[1..]) == items[n..] == Concat(h[1..]);
      BatchingIsUnique(g[1..], h[1..], items[n..]);
    }
  }

  /** How many items from the start go into one post. */
  function PostLength(items: seq<Item>, room: nat): (n: nat)
    ensures n <= |items| && n <= room
  {
    if room == 0 || items == [] || items[0].Upload? then 0 else PostLength(items[1..], room - 1) + 1
  }

  lemma {:induction false} PostIsLongest(items: seq<Item>, room: nat)
    ensures var n := PostLength(items, room);
            AllKits(items[..n]) && (n == |items| || n == room || items[n].Upload?)
  {
    if room > 0 && items != [] && items[0].Kit? {
      PostIsLongest(items[1..], room - 1);
      var n := PostLength(items[1..], room - 1);
      assert items[..n + 1] == [items[0]] + items[1..][..n];
    }
  }

  function FirstLength(items: seq<Item>): (n: nat)
    requires items != []
    ensures 1 <= n <= |items|
  {
    if items[0].Upload? then 1 else PostLength(items, MAX_BLOCKS_PER_MESSAGE)
  }

  /** The batching, from the front: a post goes on until it is full or a file comes. */
  function Batches(items: seq<Item>): seq<seq<Item>> {
    if items == [] then []
    else
      var n := FirstLength(items);
      [items[..n]] + Batches(items[n..])
  }

  lemma {:induction false} GroupInFront(group: seq<Item>, groups: seq<seq<Item>>, rest: seq<Item>)
    requires Batched(groups, rest) && (IsUpload(group) || IsPost(group))
    requires IsPost(group) && groups != [] && IsPost(groups[0]) ==> |group| == MAX_BLOCKS_PER_MESSAGE
    ensures Batched([group] + groups, group + rest)
  {
    ConcatFront(group, groups);
  }

  lemma {:induction false} BatchesBatched(items: seq<Item>)
    ensures Batched(Batches(items), items)
    ensures items != [] ==> Batches(items) != [] && Batches(items)[0] != [] && Batches(items)[0][0] == items[0]
  {
    if items != [] {
      var n := FirstLength(items);
      PostIsLongest(items, MAX_BLOCKS_PER_MESSAGE);
      BatchesBatched(items[n..]);
      GroupInFront(items[..n], Batches(items[n..]), items[n..]);
      assert items == items[..n] + items[n..];
    }
  }

  /** Groups without their first `k` items. */
  function Shorten(groups: seq<seq<Item>>, k: nat): seq<seq<Item>> {
    if k == 0 || groups == [] then groups
    else if |groups[0]| <= k then Shorten(groups[1..], k - |groups[0]|)
    else [groups[0][k..]] + groups[1..]
  }

  lemma {:induction false} ShortenKeeps(groups: seq<seq<Item>>, k: nat)
    requires WellSized(groups) && k <= |Concat(groups)|
    ensures WellSized(Shorten(groups, k)) && |Shorten(groups, k)| <= |groups|
    ensures Concat(Shorten(groups, k)) == Concat(groups)[k..]
  {
    if k > 0 && groups != [] {
      var front, rest := groups[0], groups[1..];
      assert groups == [front] + rest;
      ConcatFront(front, rest);
      if |front| <= k {
        ShortenKeeps(rest, k - |front|);
        assert (front + Concat(rest))[k..] == Concat(rest)[k - |front|..];
      } else {
        CutFront(front, rest, k);
      }
    }
  }

  lemma {:induction false} CutFront(front: seq<Item>, rest: seq<seq<Item>>, k: nat)
    requires 0 < k < |front| && IsPost(front) && WellSized(rest)
    ensures WellSized([front[k..]] + rest)
    ensures Concat([front[k..]] + rest) == (front + Concat(rest))[k..]
  {
    ConcatFront(front[k..], rest);
    assert IsPost(front[k..]);
  }

  /** No grouping of the same items into posts and uploads has fewer calls. */
  lemma {:induction false} FewestCalls(items: seq<Item>, groups: seq<seq<Item>>)
    requires WellSized(groups) && Concat(groups) == items
    ensures |Batches(items)| <= |groups|
    decreases |items|
  {
    if items != [] {
      var front, rest := groups[0], groups[1..];
      assert groups == [front] + rest;
      ConcatFront(front, rest);
      var n := FirstLength(items);
      PostIsLongest(items, MAX_BLOCKS_PER_MESSAGE);
      assert forall i | 0 <= i < |front| :: items[i] == front[i];
      ShortenKeeps(rest, n - |front|);
      assert Concat(rest) == items[|front|..];
      assert Concat(rest)[n - |front|..] == items[n..];
      FewestCalls(items[n..], Shorten(rest, n - |front|));
    }
  }

  // ---- Posts ----

  function KitBlocks(group: seq<Item>): (r: seq<KitBlock>)
    requires AllKits(group)
  {
    seq(|group|, i requires 0 <= i < |group| => group[i].block)
  }

  function Fallbacks(group: seq<Item>): seq<Text>
    requires AllKits(group)
  {
    if group == [] then []
    else
      var last := group[|group| - 1];
      Fallbacks(group[..|group| - 1]) + if last.fallback.Some? then [last.fallback.value] else []
  }

  /** The fallback text is never empty. */
  function FallbackText(parts: seq<Text>): (r: Text)
  {
    if Join(parts, NEWLINE) == [] then [SPACE] else Join(parts, NEWLINE)
  }

  function CallOf(options: Options, group: seq<Item>): Call
    requires IsUpload(group) || IsPost(group)
  {
    if IsUpload(group) then FileUpload(options.channel, group[0].url, group[0].filename, options.threadTs)
    else PostMessage(options, FallbackText(Fallbacks(group)), KitBlocks(group))
  }

  function Calls(options: Options, groups: seq<seq<Item>>): (r: seq<Call>)
    requires WellSized(groups)
  {
    seq(|groups|, i requires 0 <= i < |groups| => CallOf(options, groups[i]))
  }

  /** The blocks waiting to be posted, and their fallback texts. */
  datatype Batch = Batch(blocks: seq<KitBlock>, fallbackParts: seq<Text>)

  const EMPTY: Batch := Batch([], [])

  function BatchOf(open: seq<Item>): Batch
    requires AllKits(open)
  {
    Batch(KitBlocks(open), Fallbacks(open))
  }

  function Push(batch: Batch, block: KitBlock, fallback: Option<Text>): Batch {
    Batch(batch.blocks + [block], batch.fallbackParts + if fallback.Some? then [fallback.value] else [])
  }

  /** The calls so far are those of the closed groups, and the waiting blocks are the open group. */
  ghost predicate Building(plan: seq<Call>, batch: Batch, options: Options, groups: seq<seq<Item>>,
      open: seq<Item>, done: seq<Item>) {
    && WellSized(groups) && NoEarlyBreak(groups)
    && AllKits(open) && |open| <= MAX_BLOCKS_PER_MESSAGE
    && plan == Calls(options, groups) && batch == BatchOf(open)
    && Concat(groups) + open == done
  }

  predicate LastFull(groups: seq<seq<Item>>) {
    groups == [] || IsUpload(groups[|groups| - 1]) || |groups[|groups| - 1]| == MAX_BLOCKS_PER_MESSAGE
  }

  lemma {:induction false} Pushed(plan: seq<Call>, batch: Batch, options: Options, groups: seq<seq<Item>>,
                                  open: seq<Item>, done: seq<Item>, block: KitBlock, fallback: Option<Text>)
    requires Building(plan, batch, options, groups, open, done) && |open| < MAX_BLOCKS_PER_MESSAGE
    ensures Building(plan, Push(batch, block, fallback), options, groups,
                     open + [Kit(block, fallback)], done + [Kit(block, fallback)])
  {
    assert (open + [Kit(block, fallback)])[..|open|] == open;
    assert Concat(groups) + (open + [Kit(block, fallback)]) == done + [Kit(block, fallback)];
  }

  lemma {:induction false} Closed(plan: seq<Call>, options: Options, groups: seq<seq<Item>>, group: seq<Item>)
    requires WellSized(groups) && NoEarlyBreak(groups) && plan == Calls(options, groups)
    requires IsUpload(group) || (IsPost(group) && LastFull(groups))
    ensures WellSized(groups + [group]) && NoEarlyBreak(groups + [group])
    ensures plan + [CallOf(options, group)] == Calls(options, groups + [group])
    ensures Concat(groups + [group]) == Concat(groups) + group
  {
    assert (groups + [group])[..|groups|] == groups;
  }

  /** Posts the waiting blocks, if there are any. */
  method FlushBlockKit(plan: seq<Call>, batch: Batch, options: Options,
                       ghost groups: seq<seq<Item>>, ghost open: seq<Item>, ghost done: seq<Item>)
    returns (longer: seq<Call>, ghost closed: seq<seq<Item>>)
    requires Building(plan, batch, options, groups, open, done) && LastFull(groups)
    ensures Building(longer, EMPTY, options, closed, [], done)
    ensures |open| == MAX_BLOCKS_PER_MESSAGE ==> LastFull(closed)
    ensures longer == if batch.blocks == [] then plan
                      else plan + [PostMessage(options, FallbackText(batch.fallbackParts), batch.blocks)]
  {
    if |batch.blocks| == 0 {
      return plan, groups;
    }
    Closed(plan, options, groups, open);
    longer, closed := plan + [PostMessage(options, FallbackText(batch.fallbackParts), batch.blocks)], groups + [open];
  }

  method UploadFile(plan: seq<Call>, options: Options, url: Text, filename: Text, ghost groups: seq<seq<Item>>,
      ghost done: seq<Item>)
    returns (longer: seq<Call>, ghost closed: seq<seq<Item>>)
    requires Building(plan, EMPTY, options, groups, [], done)
    ensures Building(longer, EMPTY, options, closed, [], done + [Upload(url, filename)]) && LastFull(closed)
  {
    ghost var group := [Upload(url, filename)];
    Closed(plan, options, groups, group);
    longer, closed := plan + [FileUpload(options.channel, url, filename, options.threadTs)], groups + [group];
  }

  method AddBlock(plan: seq<Call>, batch: Batch, options: Options, b: Block, mrkdwn: Text -> Text,
                  ghost groups: seq<seq<Item>>, ghost open: seq<Item>, ghost done: seq<Item>)
    returns (longer: seq<Call>, waiting: Batch, ghost closed: seq<seq<Item>>, ghost left: seq<Item>)
    requires Building(plan, batch, options, groups, open, done) && LastFull(groups)
    ensures Building(longer, waiting, options, closed, left, done + [ItemOf(b, mrkdwn)]) && LastFull(closed)
  {
    longer, waiting, closed, left := plan, batch, groups, open;
    if |waiting.blocks| >= MAX_BLOCKS_PER_MESSAGE {
      longer, closed := FlushBlockKit(longer, waiting, options, closed, left, done);
      waiting, left := EMPTY, [];
    }
    if b.FileBlock? {
      longer, closed := FlushBlockKit(longer, waiting, options, closed, left, done);
      waiting, left := EMPTY, [];
      longer, closed := UploadFile(longer, options, b.url, b.filename, closed, done);
    } else {
      var block, fallback := BuildKit(b, mrkdwn);
      Pushed(longer, waiting, options, closed, left, done, block, fallback);
      waiting := Push(waiting, block, fallback);
      left := left + [ItemOf(b, mrkdwn)];
    }
  }

  method AddBlocks(options: Options, blocks: seq<Block>, mrkdwn: Text -> Text)
    returns (plan: seq<Call>, batch: Batch, ghost groups: seq<seq<Item>>, ghost open: seq<Item>)
    ensures Building(plan, batch, options, groups, open, Items(blocks, mrkdwn)) && LastFull(groups)
  {
    plan, batch, groups, open := [], EMPTY, [], [];
    ghost var items := Items(blocks, mrkdwn);
    for i := 0 to |blocks|
      invariant Building(plan, batch, options, groups, open, items[..i]) && LastFull(groups)
    {
      plan, batch, groups, open := AddBlock(plan, batch, options, blocks[i], mrkdwn, groups, open, items[..i]);
      assert items[..i + 1] == items[..i] + [items[i]];
    }
    assert items[..|items|] == items;
  }

  /** The calls of the items, batched from the front. */
  function PlanOf(options: Options, items: seq<Item>): seq<Call> {
    BatchesBatched(items);
    Calls(options, Batches(items))
  }

  // ---- The calls, said block by block ----

  /** The element has its button's caption, the identifier of action and index, and a style the platform knows. */
  predicate ElementShows(e: ButtonElement, button: ButtonSpec, i: nat) {
    && e.caption == button.caption
    && e.actionId == button.action + [UNDERSCORE] + Decimal(i)
    && e.style == match button.style {
                    case Some(Primary) => Some(Primary)
                    case Some(Danger) => Some(Danger)
                    case Some(Secondary) => None
                    case None => None
                  }
  }

  predicate BlockShows(k: KitBlock, b: Block, mrkdwn: Text -> Text) {
    match b
    case TextBlock(content) => k.Section? && k.text == mrkdwn(content)
    case ImageBlock(url, alt) => k.Image? && k.url == url && k.alt == (if alt.Some? then alt.value else IMAGE)
    case ButtonBlock(buttons) =>
      && k.Actions? && |k.elements| == |buttons|
      && forall i | 0 <= i < |buttons| :: ElementShows(k.elements[i], buttons[i], i)
    case FileBlock(_, _) => false
  }

  /** The part of the fallback text for a block: a text itself, or the description of an image in brackets. */
  function Notice(b: Block): seq<Text> {
    match b
    case TextBlock(content) => [content]
    case ImageBlock(url, Some(alt)) => [[91, 105, 109, 97, 103, 101, 58, 32] + alt + [93]]
    case ImageBlock(url, None) => [[91, 105, 109, 97, 103, 101, 58, 32] + url + [93]]
    case _ => []
  }

  function Notices(group: seq<Block>): seq<Text> {
    if group == [] then [] else Notices(group[..|group| - 1]) + Notice(group[|group| - 1])
  }

  /** The call uploads the one file, or posts the blocks, to the message's channel and thread. */
  ghost predicate CallShows(call: Call, group: seq<Block>, options: Options, mrkdwn: Text -> Text) {
    match call
    case FileUpload(channel, url, filename, threadTs) =>
      && |group| == 1 && group[0].FileBlock? && url == group[0].url && filename == group[0].filename
      && channel == options.channel && threadTs == options.threadTs
    case PostMessage(to, text, blocks) =>
      && to == options && 1 <= |group| <= MAX_BLOCKS_PER_MESSAGE && |blocks| == |group|
      && (forall i | 0 <= i < |group| :: BlockShows(blocks[i], group[i], mrkdwn))
      && text == (if Join(Notices(group), NEWLINE) == [] then [SPACE] else Join(Notices(group), NEWLINE))
  }

  ghost predicate CallAt(call: Call, blocks: seq<Block>, from: nat, to: nat, options: Options, mrkdwn: Text -> Text) {
    from < to <= |blocks| && CallShows(call, blocks[from..to], options, mrkdwn)
  }

  /** Cut at these positions, the blocks fall into consecutive groups, one for each call. */
  ghost predicate ShowsAt(plan: seq<Call>, blocks: seq<Block>, options: Options, mrkdwn: Text -> Text,
      cuts: seq<nat>) {
    && |cuts| == |plan| + 1 && cuts[0] == 0 && cuts[|plan|] == |blocks|
    && forall k | 0 <= k < |plan| :: CallAt(plan[k], blocks, cuts[k], cuts[k + 1], options, mrkdwn)
  }

  ghost predicate ShowsAll(plan: seq<Call>, blocks: seq<Block>, options: Options, mrkdwn: Text -> Text) {
    exists cuts :: ShowsAt(plan, blocks, options, mrkdwn, cuts)
  }

  lemma {:induction false} ItemShows(b: Block, mrkdwn: Text -> Text)
    ensures match ItemOf(b, mrkdwn)
            case Kit(block, fallback) =>
              BlockShows(block, b, mrkdwn) && (if fallback.Some? then [fallback.value] else []) == Notice(b)
            case Upload(url, filename) => b.FileBlock? && url == b.url && filename == b.filename
  {
  }

  lemma {:induction false} FallbacksAreNotices(blocks: seq<Block>, mrkdwn: Text -> Text)
    requires AllKits(Items(blocks, mrkdwn))
    ensures Fallbacks(Items(blocks, mrkdwn)) == Notices(blocks)
  {
    if blocks != [] {
      var n := |blocks| - 1;
      var items := Items(blocks, mrkdwn);
      assert items[..n] == Items(blocks[..n], mrkdwn);
      assert items[n].Kit?;
      FallbacksAreNotices(blocks[..n], mrkdwn);
      ItemShows(blocks[n], mrkdwn);
    }
  }

  lemma {:induction false} CallShowsGroup(options: Options, blocks: seq<Block>, mrkdwn: Text -> Text)
    requires IsUpload(Items(blocks, mrkdwn)) || IsPost(Items(blocks, mrkdwn))
    ensures CallShows(CallOf(options, Items(blocks, mrkdwn)), blocks, options, mrkdwn)
  {
    var items := Items(blocks, mrkdwn);
    forall i | 0 <= i < |blocks| && items[i].Kit? ensures BlockShows(items[i].block, blocks[i], mrkdwn) {
      ItemShows(blocks[i], mrkdwn);
    }
    if IsPost(items) {
      FallbacksAreNotices(blocks, mrkdwn);
    } else {
      ItemShows(blocks[0], mrkdwn);
    }
  }

  lemma {:induction false} CallStays(call: Call, blocks: seq<Block>, n: nat, from: nat, to: nat, options: Options,
      mrkdwn: Text -> Text)
    requires n <= |blocks| && CallAt(call, blocks[..n], from, to, options, mrkdwn)
    ensures CallAt(call, blocks, from, to, options, mrkdwn)
  {
    assert blocks[..n][from..to] == blocks[from..to];
  }

  lemma {:induction false} OneMoreCall(plan: seq<Call>, call: Call, blocks: seq<Block>, n: nat, options: Options,
      mrkdwn: Text -> Text, cuts: seq<nat>)
    requires n < |blocks| && ShowsAt(plan, blocks[..n], options, mrkdwn, cuts)
    requires CallShows(call, blocks[n..], options, mrkdwn)
    ensures ShowsAt(plan + [call], blocks, options, mrkdwn, cuts + [|blocks|])
  {
    var longer, further := plan + [call], cuts + [|blocks|];
    assert blocks[n..|blocks|] == blocks[n..];
    forall k | 0 <= k < |longer| ensures CallAt(longer[k], blocks, further[k], further[k + 1], options, mrkdwn) {
      if k < |plan| {
        CallStays(plan[k], blocks, n, cuts[k], cuts[k + 1], options, mrkdwn);
      }
    }
  }

  lemma {:induction false} CallsShow(options: Options, groups: seq<seq<Item>>, blocks: seq<Block>,
      mrkdwn: Text -> Text) returns (cuts: seq<nat>)
    requires WellSized(groups) && Concat(groups) == Items(blocks, mrkdwn)
    ensures ShowsAt(Calls(options, groups), blocks, options, mrkdwn, cuts)
  {
    if groups == [] {
      cuts := [0];
    } else {
      var last := |groups| - 1;
      var front := groups[..last];
      var n := |Concat(front)|;
      assert Items(blocks[..n], mrkdwn) == Items(blocks, mrkdwn)[..n] == Concat(front);
      assert Items(blocks[n..], mrkdwn) == Items(blocks, mrkdwn)[n..] == groups[last];
      var before := CallsShow(options, front, blocks[..n], mrkdwn);
      CallShowsGroup(options, blocks[n..], mrkdwn);
      assert Calls(options, groups) == Calls(options, front) + [CallOf(options, groups[last])];
      OneMoreCall(Calls(options, front), CallOf(options, groups[last]), blocks, n, options, mrkdwn, before);
      cuts := before + [|blocks|];
    }
  }

  lemma {:induction false} PlanShowsAll(options: Options, blocks: seq<Block>, mrkdwn: Text -> Text)
    ensures ShowsAll(PlanOf(options, Items(blocks, mrkdwn)), blocks, options, mrkdwn)
  {
    BatchesBatched(Items(blocks, mrkdwn));
    var cuts := CallsShow(options, Batches(Items(blocks, mrkdwn)), blocks, mrkdwn);
  }

  /** The plan of a message: its items in order, in the one way to batch them. */
  method BuildRenderPlan(options: Options, blocks: seq<Block>, mrkdwn: Text -> Text) returns (plan: seq<Call>)
    ensures plan == PlanOf(options, Items(Coalesced(blocks), mrkdwn))
    ensures ShowsAll(plan, Coalesced(blocks), options, mrkdwn)
  {
    PlanShowsAll(options, Coalesced(blocks), mrkdwn);
    if |blocks| == 0 {
      return [];
    }
    var coalesced := CoalesceBlocks(blocks);
    ghost var items := Items(coalesced, mrkdwn);
    var batch;
    ghost var groups, open;
    plan, batch, groups, open := AddBlocks(options, coalesced, mrkdwn);
    plan, groups := FlushBlockKit(plan, batch, options, groups, open, items);
    BatchesBatched(items);
    BatchingIsUnique(groups, Batches(items), items);
  }

  method BuildKit(b: Block, mrkdwn: Text -> Text) returns (block: KitBlock, fallback: Option<Text>)
    requires !b.FileBlock?
    ensures ItemOf(b, mrkdwn) == Kit(block, fallback)
  {
    match b
    case TextBlock(content) =>
      block, fallback := Section(mrkdwn(content)), Some(content);
    case ImageBlock(url, alt) =>
      var description := if alt.Some? then alt.value else url;
      block, fallback := Image(url, if alt.Some? then alt.value else IMAGE), Some(ImageFallback(description));
    case ButtonBlock(buttons) =>
      block, fallback := Actions(Elements(buttons)), None;
  }

  // ---- What a plan shows ----

  datatype Entry = Shown(block: KitBlock) | Uploaded(url: Text, filename: Text)

  function EntriesOf(items: seq<Item>): (r: seq<Entry>)
  {
    seq(|items|, i requires 0 <= i < |items| =>
      match items[i] { case Kit(block, _) => Shown(block) case Upload(url, filename) => Uploaded(url, filename) })
  }

  function EntriesIn(call: Call): seq<Entry> {
    match call
    case PostMessage(_, _, blocks) => seq(|blocks|, i requires 0 <= i < |blocks| => Shown(blocks[i]))
    case FileUpload(_, url, filename, _) => [Uploaded(url, filename)]
  }

  function Entries(plan: seq<Call>): seq<Entry> {
    if plan == [] then [] else Entries(plan[..|plan| - 1]) + EntriesIn(plan[|plan| - 1])
  }

  lemma {:induction false} EntriesOfCalls(options: Options, groups: seq<seq<Item>>)
    requires WellSized(groups)
    ensures Entries(Calls(options, groups)) == EntriesOf(Concat(groups))
  {
    if groups != [] {
      var n := |groups| - 1;
      EntriesOfCalls(options, groups[..n]);
      assert Calls(options, groups)[..n] == Calls(options, groups[..n]);
    }
  }

  /** Read in order, the calls show every item once; each post has 1 to 50 blocks and some text. */
  lemma {:induction false} PlanLosesNothing(options: Options, items: seq<Item>, i: nat)
    ensures Entries(PlanOf(options, items)) == EntriesOf(items)
    ensures i < |PlanOf(options, items)| && PlanOf(options, items)[i].PostMessage? ==>
              1 <= |PlanOf(options, items)[i].blocks| <= MAX_BLOCKS_PER_MESSAGE && PlanOf(options, items)[i].text != []
  {
    BatchesBatched(items);
    EntriesOfCalls(options, Batches(items));
  }

  /** A post is directly followed by another one only when it is full. */
  lemma {:induction false} PostsAreFull(options: Options, items: seq<Item>, i: nat)
    requires i + 1 < |PlanOf(options, items)|
    requires PlanOf(options, items)[i].PostMessage? && PlanOf(options, items)[i + 1].PostMessage?
    ensures |PlanOf(options, items)[i].blocks| == MAX_BLOCKS_PER_MESSAGE
  {
    BatchesBatched(items);
  }
}
