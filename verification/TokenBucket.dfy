/** The clock-driven refill of the send limiter, and the rate bound it enforces. */
module TokenBucket {
  import opened Numerals

  /** The token count; dividing nothing by a delay of zero makes it not a number, for good. */
  datatype Tokens = Count(n: int) | NotANumber

  /** The refill for the time elapsed since the last send. */
  function Refill(bucket: Tokens, elapsed: int, burstLimit: int, messageDelay: int): Tokens {
    if bucket.NotANumber? || (messageDelay == 0 && elapsed == 0) then NotANumber
    else if messageDelay == 0 then Count(burstLimit)
    else
      var n := bucket.n + elapsed / messageDelay;
      Count(if n < burstLimit then n else burstLimit)
  }

  predicate MustWait(bucket: Tokens) {
    bucket.Count? && bucket.n <= 0
  }

  function TakeOne(bucket: Tokens): Tokens {
    if bucket.Count? then Count(bucket.n - 1) else NotANumber
  }

  /** One send: when the clock was read for the refill, when it was taken, and the tokens left. */
  datatype Send = Send(read: int, at: int, left: Tokens)

  /** `s` is a send that the limiter performs after the bucket was left at `bucket` at time `last`. */
  predicate IsSend(bucket: Tokens, last: int, s: Send, burstLimit: int, messageDelay: int) {
    var refilled := Refill(bucket, s.read - last, burstLimit, messageDelay);
    && last <= s.read
    && if MustWait(refilled) then s.read + messageDelay <= s.at && s.left == Count(0)
       else s.read <= s.at && s.left == TakeOne(refilled)
  }

  function BucketAfter(sends: seq<Send>, burstLimit: int): Tokens {
    if sends == [] then Count(burstLimit) else sends[|sends| - 1].left
  }

  function LastTime(sends: seq<Send>): int {
    if sends == [] then 0 else sends[|sends| - 1].at
  }

  /** All sends of a run of the limiter, from its start. */
  ghost predicate IsRun(sends: seq<Send>, burstLimit: int, messageDelay: int) {
    sends == [] ||
    var before := sends[..|sends| - 1];
    && IsRun(before, burstLimit, messageDelay)
    && IsSend(BucketAfter(before, burstLimit), LastTime(before), sends[|sends| - 1], burstLimit, messageDelay)
  }

  /** Every beginning of a run is a run, and every send follows from the ones before it. */
  lemma {:induction false} RunUpTo(sends: seq<Send>, k: nat, burstLimit: int, messageDelay: int)
    requires IsRun(sends, burstLimit, messageDelay) && k <= |sends|
    ensures IsRun(sends[..k], burstLimit, messageDelay)
    ensures k < |sends| ==>
              IsSend(BucketAfter(sends[..k], burstLimit), LastTime(sends[..k]), sends[k], burstLimit, messageDelay)
    decreases |sends|
  {
    if k == |sends| {
      assert sends[..k] == sends;
    } else if k < |sends| - 1 {
      RunUpTo(sends[..|sends| - 1], k, burstLimit, messageDelay);
      assert sends[..|sends| - 1][..k] == sends[..k];
    }
  }

  lemma {:induction false} FloorAtLeast(x: int, q: int, d: int)
    requires d >= 1 && d * q <= x
    ensures q <= x / d
  {
    QuotientBounds(x, d);
    LessFactor(d, q, x / d + 1);
  }

  lemma {:induction false} FloorSum(a: int, b: int, d: int)
    requires d >= 1
    ensures a / d + b / d <= (a + b) / d
  {
    assert a == d * (a / d) + a % d && b == d * (b / d) + b % d;
    assert d * (a / d + b / d) == d * (a / d) + d * (b / d);
    FloorAtLeast(a + b, a / d + b / d, d);
  }

  lemma {:induction false} FloorMonotone(a: int, b: int, d: int)
    requires d >= 1 && a <= b
    ensures a / d <= b / d
  {
    FloorSum(a, b - a, d);
    assert (b - a) / d >= 0;
  }

  /** One send uses one token more than it lets in, whether it waited or not. */
  lemma {:induction false} OneSendCosts(bucket: Tokens, last: int, s: Send, burstLimit: int, messageDelay: int)
    requires burstLimit >= 1 && messageDelay >= 1
    requires bucket.Count? && 0 <= bucket.n <= burstLimit
    requires IsSend(bucket, last, s, burstLimit, messageDelay)
    ensures last <= s.at
    ensures s.left.Count? && 0 <= s.left.n < burstLimit
    ensures s.left.n <= bucket.n + (s.at - last) / messageDelay - 1
  {
    var elapsed := s.read - last;
    FloorMonotone(0, elapsed, messageDelay);
    var refilled := Refill(bucket, elapsed, burstLimit, messageDelay);
    if MustWait(refilled) {
      FloorMonotone(messageDelay, s.at - last, messageDelay);
      assert messageDelay / messageDelay == 1;
    } else {
      FloorMonotone(elapsed, s.at - last, messageDelay);
    }
  }

  /** The bucket always holds between nothing and the burst limit. */
  lemma {:induction false} BucketBounds(sends: seq<Send>, k: nat, burstLimit: int, messageDelay: int)
    requires burstLimit >= 1 && messageDelay >= 1 && IsRun(sends, burstLimit, messageDelay) && k <= |sends|
    ensures var bucket := BucketAfter(sends[..k], burstLimit);
            bucket.Count? && 0 <= bucket.n <= burstLimit && (k > 0 ==> bucket.n < burstLimit)
    decreases k
  {
    if k > 0 {
      BucketBounds(sends, k - 1, burstLimit, messageDelay);
      RunUpTo(sends, k - 1, burstLimit, messageDelay);
      var bucket, last := BucketAfter(sends[..k - 1], burstLimit), LastTime(sends[..k - 1]);
      OneSendCosts(bucket, last, sends[k - 1], burstLimit, messageDelay);
      assert sends[..k][k - 1] == sends[k - 1];
    }
  }

  /** Between two sends of a run the tokens used up are the sends beyond the refill. */
  lemma {:induction false} TokensTelescope(sends: seq<Send>, i: nat, j: nat, burstLimit: int, messageDelay: int)
    requires burstLimit >= 1 && messageDelay >= 1 && IsRun(sends, burstLimit, messageDelay)
    requires i <= j < |sends|
    ensures sends[i].left.Count? && sends[j].left.Count?
    ensures sends[i].at <= sends[j].at
    ensures sends[j].left.n + (j - i) <= sends[i].left.n + (sends[j].at - sends[i].at) / messageDelay
    decreases j
  {
    if i == j {
      LeftBounds(sends, i, burstLimit, messageDelay);
    } else {
      TokensTelescope(sends, i, j - 1, burstLimit, messageDelay);
      NextSendCosts(sends, j, burstLimit, messageDelay);
      FloorSum(sends[j - 1].at - sends[i].at, sends[j].at - sends[j - 1].at, messageDelay);
    }
  }

  /** Every send but the first uses one token more than the time since the send before it lets in. */
  lemma {:induction false} NextSendCosts(sends: seq<Send>, j: nat, burstLimit: int, messageDelay: int)
    requires burstLimit >= 1 && messageDelay >= 1 && IsRun(sends, burstLimit, messageDelay) && 0 < j < |sends|
    ensures sends[j - 1].left.Count? && sends[j].left.Count? && sends[j - 1].at <= sends[j].at
    ensures sends[j].left.n <= sends[j - 1].left.n + (sends[j].at - sends[j - 1].at) / messageDelay - 1
  {
    LeftBounds(sends, j - 1, burstLimit, messageDelay);
    RunUpTo(sends, j, burstLimit, messageDelay);
    assert sends[..j][j - 1] == sends[j - 1];
    OneSendCosts(sends[j - 1].left, sends[j - 1].at, sends[j], burstLimit, messageDelay);
  }

  lemma {:induction false} LeftBounds(sends: seq<Send>, i: nat, burstLimit: int, messageDelay: int)
    requires burstLimit >= 1 && messageDelay >= 1 && IsRun(sends, burstLimit, messageDelay) && i < |sends|
    ensures sends[i].left.Count? && 0 <= sends[i].left.n < burstLimit
  {
    BucketBounds(sends, i + 1, burstLimit, messageDelay);
    assert sends[..i + 1][i] == sends[i];
  }

  /** In every run, sends i..j number at most the burst plus one per full delay between them. */
  lemma {:induction false} RateBound(sends: seq<Send>, i: nat, j: nat, burstLimit: int, messageDelay: int)
    requires burstLimit >= 1 && messageDelay >= 1 && IsRun(sends, burstLimit, messageDelay)
    requires i <= j < |sends|
    ensures j - i + 1 <= burstLimit + (sends[j].at - sends[i].at) / messageDelay
  {
    TokensTelescope(sends, i, j, burstLimit, messageDelay);
    LeftBounds(sends, i, burstLimit, messageDelay);
    LeftBounds(sends, j, burstLimit, messageDelay);
  }

  /** Some run makes `n` sends, none later than `span` after the first. */
  ghost predicate CanSendWithin(n: nat, span: int, burstLimit: int, messageDelay: int) {
    exists sends :: IsRun(sends, burstLimit, messageDelay) && |sends| == n && Within(sends, span)
  }

  ghost predicate Within(sends: seq<Send>, span: int) {
    forall i | 0 <= i < |sends| :: sends[i].at - sends[0].at <= span
  }

  /** The n-th send of a run that is as fast as can be: a burst at time zero, then one send for each delay. */
  function FastestSend(n: nat, burstLimit: int, messageDelay: int): Send {
    if messageDelay == 0 then Send(0, 0, NotANumber)
    else if n <= burstLimit then Send(0, 0, Count(burstLimit - n))
    else
      var time := messageDelay * (n - burstLimit);
      Send(time, time, Count(0))
  }

  function Fastest(n: nat, burstLimit: int, messageDelay: int): (sends: seq<Send>)
    ensures |sends| == n
    ensures forall i | 0 <= i < n :: sends[i] == FastestSend(i + 1, burstLimit, messageDelay)
  {
    if n == 0 then [] else Fastest(n - 1, burstLimit, messageDelay) + [FastestSend(n, burstLimit, messageDelay)]
  }

  lemma {:induction false} FastestFollows(n: nat, burstLimit: int, messageDelay: int)
    requires n >= 1 && burstLimit >= 1 && messageDelay >= 0
    ensures var before := Fastest(n - 1, burstLimit, messageDelay);
            IsSend(BucketAfter(before, burstLimit), LastTime(before), FastestSend(n, burstLimit, messageDelay),
                   burstLimit, messageDelay)
  {
    if messageDelay >= 1 {
      assert 0 / messageDelay == 0 && messageDelay / messageDelay == 1;
      assert messageDelay * (n - burstLimit) == messageDelay * (n - 1 - burstLimit) + messageDelay;
    }
  }

  lemma {:induction false} FastestIsRun(n: nat, burstLimit: int, messageDelay: int)
    requires burstLimit >= 1 && messageDelay >= 0
    ensures IsRun(Fastest(n, burstLimit, messageDelay), burstLimit, messageDelay)
  {
    if n > 0 {
      FastestIsRun(n - 1, burstLimit, messageDelay);
      FastestFollows(n, burstLimit, messageDelay);
      assert Fastest(n, burstLimit, messageDelay)[..n - 1] == Fastest(n - 1, burstLimit, messageDelay);
    }
  }

  lemma {:induction false} FastestFits(n: nat, span: nat, burstLimit: int, messageDelay: int)
    requires messageDelay >= 0 && (messageDelay == 0 || n <= burstLimit + span / messageDelay)
    ensures FastestSend(n, burstLimit, messageDelay).at <= span
  {
    if messageDelay >= 1 && n > burstLimit {
      QuotientBounds(span, messageDelay);
      TimesMonotone(n - burstLimit, span / messageDelay, messageDelay);
    }
  }

  lemma {:induction false} FastestWithin(n: nat, span: nat, burstLimit: int, messageDelay: int)
    requires burstLimit >= 1 && messageDelay >= 0
    requires messageDelay == 0 || n <= burstLimit + span / messageDelay
    ensures CanSendWithin(n, span, burstLimit, messageDelay)
  {
    var sends := Fastest(n, burstLimit, messageDelay);
    FastestIsRun(n, burstLimit, messageDelay);
    forall i | 0 <= i < n ensures sends[i].at - sends[0].at <= span {
      FastestFits(i + 1, span, burstLimit, messageDelay);
    }
    assert Within(sends, span);
  }

  /**
   * The rate bound is exact, and a delay of zero turns it off: `n` sends fit a span exactly if there is no delay
   * or they are at most the burst and one more for each full delay.
   */
  lemma {:induction false} SendsWithinIff(n: nat, span: nat, burstLimit: int, messageDelay: int)
    requires burstLimit >= 1 && messageDelay >= 0
    ensures CanSendWithin(n, span, burstLimit, messageDelay)
            <==> messageDelay == 0 || n <= burstLimit + span / messageDelay
  {
    if messageDelay == 0 || n <= burstLimit + span / messageDelay {
      FastestWithin(n, span, burstLimit, messageDelay);
    }
    if messageDelay >= 1 {
      forall sends | IsRun(sends, burstLimit, messageDelay) && Within(sends, span)
        ensures |sends| <= burstLimit + span / messageDelay
      {
        SendsFitRate(sends, span, burstLimit, messageDelay);
      }
    }
  }

  lemma {:induction false} SendsFitRate(sends: seq<Send>, span: nat, burstLimit: int, messageDelay: int)
    requires burstLimit >= 1 && messageDelay >= 1 && IsRun(sends, burstLimit, messageDelay) && Within(sends, span)
    ensures |sends| <= burstLimit + span / messageDelay
  {
    if sends == [] {
      FloorMonotone(0, span, messageDelay);
    } else {
      RateBound(sends, 0, |sends| - 1, burstLimit, messageDelay);
      FloorMonotone(sends[|sends| - 1].at - sends[0].at, span, messageDelay);
    }
  }

  // ---- What the limiter has to let through ----

  /** The run can go on with `n` more sends, all of them at `time`. */
  ghost predicate CanAdd(sends: seq<Send>, n: nat, time: int, burstLimit: int, messageDelay: int) {
    exists more: seq<Send> ::
      && |more| == n
      && (forall i | 0 <= i < n :: more[i].at == time)
      && IsRun(sends + more, burstLimit, messageDelay)
  }

  /** The tokens recorded at the last send, or the full burst before any. */
  function TokensLeft(sends: seq<Send>, burstLimit: int): int
    requires sends != [] ==> sends[|sends| - 1].left.Count?
  {
    if sends == [] then burstLimit else sends[|sends| - 1].left.n
  }

  lemma {:induction false} LastLeft(sends: seq<Send>, burstLimit: int, messageDelay: int)
    requires burstLimit >= 1 && messageDelay >= 1 && IsRun(sends, burstLimit, messageDelay)
    ensures BucketAfter(sends, burstLimit).Count? && (sends != [] ==> sends[|sends| - 1].left.Count?)
    ensures 0 <= TokensLeft(sends, burstLimit) <= burstLimit
  {
    BucketBounds(sends, |sends|, burstLimit, messageDelay);
    assert sends[..|sends|] == sends;
  }

  /** The send at `time` that a run can go on with when it need not wait. */
  lemma {:induction false} AddOne(sends: seq<Send>, time: int, burstLimit: int, messageDelay: int) returns (s: Send)
    requires burstLimit >= 1 && messageDelay >= 0 && IsRun(sends, burstLimit, messageDelay) && LastTime(sends) <= time
    requires !MustWait(Refill(BucketAfter(sends, burstLimit), time - LastTime(sends), burstLimit, messageDelay))
    ensures s.at == time && IsRun(sends + [s], burstLimit, messageDelay)
    ensures s.left == TakeOne(Refill(BucketAfter(sends, burstLimit), time - LastTime(sends), burstLimit, messageDelay))
  {
    var bucket, last := BucketAfter(sends, burstLimit), LastTime(sends);
    s := Send(time, time, TakeOne(Refill(bucket, time - last, burstLimit, messageDelay)));
    assert (sends + [s])[..|sends|] == sends;
  }

  lemma {:induction false} AddMany(sends: seq<Send>, n: nat, time: int, burstLimit: int, messageDelay: int)
    requires burstLimit >= 1 && messageDelay >= 0 && IsRun(sends, burstLimit, messageDelay) && LastTime(sends) <= time
    requires messageDelay >= 1 ==>
               && (sends != [] ==> sends[|sends| - 1].left.Count?)
               && n <= Min(burstLimit, TokensLeft(sends, burstLimit) + (time - LastTime(sends)) / messageDelay)
    ensures CanAdd(sends, n, time, burstLimit, messageDelay)
    decreases n
  {
    if n == 0 {
      assert sends + [] == sends;
    } else {
      var s := AddOne(sends, time, burstLimit, messageDelay);
      assert messageDelay >= 1 ==> (time - time) / messageDelay == 0;
      AddMany(sends + [s], n - 1, time, burstLimit, messageDelay);
      MoreByOne(sends, s, n - 1, time, burstLimit, messageDelay);
    }
  }

  lemma {:induction false} MoreByOne(sends: seq<Send>, s: Send, n: nat, time: int, burstLimit: int, messageDelay: int)
    requires s.at == time && CanAdd(sends + [s], n, time, burstLimit, messageDelay)
    ensures CanAdd(sends, n + 1, time, burstLimit, messageDelay)
  {
    var more: seq<Send> :| |more| == n && (forall i | 0 <= i < n :: more[i].at == time)
                           && IsRun(sends + [s] + more, burstLimit, messageDelay);
    assert sends + ([s] + more) == sends + [s] + more;
    assert |[s] + more| == n + 1;
  }

  lemma {:induction false} AddedBounded(sends: seq<Send>, more: seq<Send>, time: int, burstLimit: int,
      messageDelay: int)
    requires burstLimit >= 1 && messageDelay >= 1 && IsRun(sends + more, burstLimit, messageDelay)
    requires LastTime(sends) <= time && forall i | 0 <= i < |more| :: more[i].at == time
    requires sends != [] ==> sends[|sends| - 1].left.Count?
    ensures |more| <= Min(burstLimit, TokensLeft(sends, burstLimit) + (time - LastTime(sends)) / messageDelay)
  {
    var all, first, last := sends + more, |sends|, |sends| + |more| - 1;
    FloorMonotone(0, time - LastTime(sends), messageDelay);
    RunUpTo(all, |sends|, burstLimit, messageDelay);
    assert all[..|sends|] == sends;
    LastLeft(sends, burstLimit, messageDelay);
    if more != [] {
      assert all[first] == more[0] && all[last] == more[|more| - 1] && 0 / messageDelay == 0;
      RateBound(all, first, last, burstLimit, messageDelay);
      if sends != [] {
        TokensTelescope(all, first - 1, last, burstLimit, messageDelay);
        LeftBounds(all, last, burstLimit, messageDelay);
      }
    }
  }

  /**
   * From every run and at every later time the limiter lets through at once exactly the tokens left and one more
   * for each full delay of silence, up to the burst; without a delay any number.
   */
  lemma {:induction false} RoomIsExact(sends: seq<Send>, n: nat, time: int, burstLimit: int, messageDelay: int)
    requires burstLimit >= 1 && messageDelay >= 0 && IsRun(sends, burstLimit, messageDelay)
    requires time >= if sends == [] then 0 else sends[|sends| - 1].at
    ensures messageDelay >= 1 && sends != [] ==> sends[|sends| - 1].left.Count?
    ensures CanAdd(sends, n, time, burstLimit, messageDelay) <==>
            || messageDelay == 0
            || n <= if sends == [] then burstLimit
                    else Min(burstLimit,
                             sends[|sends| - 1].left.n + (time - sends[|sends| - 1].at) / messageDelay)
  {
    if messageDelay >= 1 {
      LastLeft(sends, burstLimit, messageDelay);
      FloorMonotone(0, time - LastTime(sends), messageDelay);
      var room := Min(burstLimit, TokensLeft(sends, burstLimit) + (time - LastTime(sends)) / messageDelay);
      forall more: seq<Send> |
        && (forall i | 0 <= i < |more| :: more[i].at == time)
        && IsRun(sends + more, burstLimit, messageDelay)
        ensures |more| <= room
      {
        AddedBounded(sends, more, time, burstLimit, messageDelay);
      }
      if n <= room {
        AddMany(sends, n, time, burstLimit, messageDelay);
      }
    } else {
      AddMany(sends, n, time, burstLimit, messageDelay);
    }
  }

  /** A refill that leaves no token is one after which no send can follow at once. */
  lemma {:induction false} WaitsIffNoRoom(sends: seq<Send>, time: int, burstLimit: int, messageDelay: int)
    requires burstLimit >= 1 && messageDelay >= 0 && IsRun(sends, burstLimit, messageDelay) && LastTime(sends) <= time
    ensures MustWait(Refill(BucketAfter(sends, burstLimit), time - LastTime(sends), burstLimit, messageDelay))
            <==> !CanAdd(sends, 1, time, burstLimit, messageDelay)
  {
    RoomIsExact(sends, 1, time, burstLimit, messageDelay);
    if messageDelay >= 1 {
      FloorMonotone(0, time - LastTime(sends), messageDelay);
    }
  }
}
