/** Waiting for a remote task: polling with backoff and jitter until a deadline. */
module Polling {
  import opened Numerals
  import opened Wrappers

  datatype TaskState = Working | Completed | Failed | Canceled | Rejected | InputRequired | AuthRequired

  function StateName(s: TaskState): string {
    match s
    case Working => "working"
    case Completed => "completed"
    case Failed => "failed"
    case Canceled => "canceled"
    case Rejected => "rejected"
    case InputRequired => "input_required"
    case AuthRequired => "auth_required"
  }

  function LowerChar(c: char): char {
    if 'A' <= c <= 'Z' then (c as int + 32) as char else c
  }

  /**
   * Of the other characters only the Kelvin sign becomes a lower-case ASCII letter, a `k`: it could only spell
   * "working".
   */
  function Lower(s: string): string {
    if s == [] then [] else [LowerChar(s[0])] + Lower(s[1..])
  }

  function ToTaskState(raw: string): TaskState {
    var lower := Lower(raw);
    if lower == "completed" then Completed
    else if lower == "failed" then Failed
    else if lower == "canceled" then Canceled
    else if lower == "rejected" then Rejected
    else if lower == "input_required" then InputRequired
    else if lower == "auth_required" then AuthRequired
    else Working
  }

  /** `raw` is the name, each of its small letters in either case. */
  predicate Spells(raw: string, name: string) {
    |raw| == |name| && forall i | 0 <= i < |raw| ::
      raw[i] == name[i] || ('a' <= name[i] <= 'z' && raw[i] as int == name[i] as int - 32)
  }

  predicate NoCapitals(name: string) {
    forall i | 0 <= i < |name| :: !('A' <= name[i] <= 'Z')
  }

  lemma {:induction false} LowerSpells(raw: string, name: string)
    requires NoCapitals(name)
    ensures Lower(raw) == name <==> Spells(raw, name)
  {
    if raw != [] && name != [] {
      LowerSpells(raw[1..], name[1..]);
      assert raw == [raw[0]] + raw[1..] && name == [name[0]] + name[1..];
      assert Spells(raw, name) <==> Spells([raw[0]], [name[0]]) && Spells(raw[1..], name[1..]);
    }
  }

  lemma {:induction false} NamesAreSmall(s: TaskState)
    ensures NoCapitals(StateName(s))
  {
    match s
    case _ =>
  }

  lemma {:induction false} NamesDiffer(s: TaskState, t: TaskState)
    ensures StateName(s) == StateName(t) <==> s == t
  {
    assert StateName(Completed)[1] == 'o' && StateName(Canceled)[1] == 'a' && StateName(Rejected)[1] == 'e';
    assert |StateName(Failed)| == 6 && |StateName(Working)| == 7 && |StateName(AuthRequired)| == 13;
    assert |StateName(InputRequired)| == 14 && |StateName(Completed)| == 9;
    assert |StateName(Canceled)| == 8 && |StateName(Rejected)| == 8;
  }

  /** A state is read off exactly the spellings of its name in any case; everything else counts as working. */
  lemma {:induction false} StateReadFromName(raw: string, s: TaskState)
    ensures s != Working ==> (ToTaskState(raw) == s <==> Spells(raw, StateName(s)))
    ensures ToTaskState(raw) == Working <==> forall t | t != Working :: !Spells(raw, StateName(t))
  {
    forall t: TaskState ensures Lower(raw) == StateName(t) <==> Spells(raw, StateName(t)) {
      NamesAreSmall(t);
      LowerSpells(raw, StateName(t));
    }
    NamesDiffer(ToTaskState(raw), s);
    assert ToTaskState(raw) != Working ==> Lower(raw) == StateName(ToTaskState(raw));
  }

  // ---- The polling loop ----

  datatype Settings = Settings(interval: int, maxInterval: int)

  /** The interval before jitter of the k-th fetch. */
  function Interval(c: Settings, k: nat): int {
    if k == 0 then c.interval else Min(Interval(c, k - 1) * 2, c.maxInterval)
  }

  /** `Math.floor(Math.random() * interval * 0.25)` for a random number in [0, 1). */
  predicate IsJitter(interval: int, jitter: int) {
    if interval > 0 then 0 <= 4 * jitter < interval else interval / 4 <= jitter <= 0
  }

  /**
   * One fetch: the clock at the loop head, whether the call was seen aborted there, the clock at the
   * second reading, the sleep asked for, the clock after it and after the reply, if any came.
   */
  datatype Round = Round(head: int, aborted: bool, read: int, jitter: int, asked: int, wake: int, answered: int,
                         reply: Option<TaskState>)

  function Delay(interval: int, r: Round, deadline: int): int {
    Min(interval + r.jitter, deadline - r.read)
  }

  function Ready(start: int, rounds: seq<Round>): int {
    if rounds == [] then start else rounds[|rounds| - 1].answered
  }

  /** The next fetch after some rounds: its sleep lasts at least its delay. */
  predicate Follows(c: Settings, start: int, timeout: int, rounds: seq<Round>, r: Round) {
    && (rounds != [] ==> rounds[|rounds| - 1].reply == Some(Working))
    && Ready(start, rounds) <= r.head < start + timeout
    && !r.aborted
    && r.head <= r.read
    && IsJitter(Interval(c, |rounds|), r.jitter)
    && r.asked == Delay(Interval(c, |rounds|), r, start + timeout)
    && 0 < r.asked <= r.wake - r.read
    && r.wake <= r.answered
  }

  /** The loop went through these rounds. */
  predicate IsRun(c: Settings, start: int, timeout: int, rounds: seq<Round>) {
    rounds == [] ||
    var before := rounds[..|rounds| - 1];
    IsRun(c, start, timeout, before) && Follows(c, start, timeout, before, rounds[|rounds| - 1])
  }

  datatype Outcome = Returned(state: TaskState) | Aborted | TimedOut | TaskRejected | TaskFailed | FetchFailed

  /** How the polling ends after a fetch. */
  predicate ConcludesFrom(reply: Option<TaskState>, outcome: Outcome) {
    match reply
    case None => outcome == FetchFailed
    case Some(Rejected) => outcome == TaskRejected
    case Some(Failed) => outcome == TaskFailed
    case Some(Working) => outcome == Aborted || outcome == TimedOut
    case Some(state) => outcome == Returned(state)
  }

  predicate Concludes(rounds: seq<Round>, outcome: Outcome) {
    ConcludesFrom(if rounds == [] then Some(Working) else rounds[|rounds| - 1].reply, outcome)
  }

  predicate IsTerminal(s: TaskState) {
    s == Completed || s == Failed || s == Canceled || s == Rejected
  }

  function HandleTerminalState(s: TaskState): Outcome {
    if s == Rejected then TaskRejected else if s == Failed then TaskFailed else Returned(s)
  }

  /**
   * The outside: a clock that does not go back, an agent that takes any time and answers anything, and an
   * abort signal.
   */
  class World {
    var now: int
    var aborted: bool

    constructor () {
      now, aborted := 0, false;
    }

    /** What the outside may do at any time; a signal once given stays. */
    twostate predicate Goes()
      reads this
    {
      old(now) <= now && (old(aborted) ==> aborted)
    }

    method Read() returns (t: int)
      modifies this
      ensures Goes() && t == now
    {
      var later :| later >= now;
      var signalled: bool := *;
      now, aborted := later, aborted || signalled;
      t := now;
    }

    method Sleep(delay: int)
      requires delay >= 0
      modifies this
      ensures Goes() && now >= old(now) + delay
    {
      var _ := Read();
      now := now + delay;
    }

    method GetTask() returns (reply: Option<string>)
      modifies this
      ensures Goes()
    {
      var _ := Read();
      reply := *;
    }
  }

  /** The added part for the random number p / q. */
  function Jitter(interval: int, p: nat, q: nat): int
    requires p < q
  {
    (p * interval) / (4 * q)
  }

  lemma {:induction false} QuotientIs(x: int, d: int, j: int)
    requires d >= 1 && d * j <= x < d * (j + 1)
    ensures x / d == j
  {
    QuotientBounds(x, d);
    LessFactor(d, x / d, j + 1);
    LessFactor(d, j, x / d + 1);
  }

  lemma {:induction false} PositiveJitter(interval: int, p: nat, q: nat)
    requires p < q && interval > 0
    ensures IsJitter(interval, Jitter(interval, p, q))
  {
    var x, d, j := p * interval, 4 * q, Jitter(interval, p, q);
    QuotientBounds(x, d);
    TimesMonotone(0, p, interval);
    TimesMonotone(p + 1, q, interval);
    assert (p + 1) * interval == x + interval;
    assert d * j == q * (4 * j);
    LessFactor(q, 4 * j, interval);
    LessFactor(d, 0, j + 1);
  }

  lemma {:induction false} NegativeJitter(interval: int, p: nat, q: nat)
    requires p < q && interval <= 0
    ensures IsJitter(interval, Jitter(interval, p, q))
  {
    var x, d, j := p * interval, 4 * q, Jitter(interval, p, q);
    QuotientBounds(x, d);
    TimesMonotone(0, p, -interval);
    TimesMonotone(p, q, -interval);
    assert p * -interval == -x && q * -interval == -(q * interval);
    TimesMonotone(4 * (interval / 4), interval, q);
    assert d * (interval / 4) == (4 * (interval / 4)) * q;
    LessFactor(d, j, 1);
    LessFactor(d, interval / 4, j + 1);
  }

  /** Every jitter within the bounds comes from some random number. */
  lemma {:induction false} JitterReached(interval: int, j: int) returns (p: nat, q: nat)
    requires IsJitter(interval, j)
    ensures p < q && Jitter(interval, p, q) == j
  {
    var a, m := if interval < 0 then -interval else interval, if j < 0 then -j else j;
    if j == 0 {
      p, q := 0, 1;
    } else if 4 * m < a {
      p, q := 4 * m, a;
      FlatJitter(interval, j, a, m);
    } else {
      p, q := 4 * (m - 1) + a, 2 * a;
      SteepReached(interval, a, m);
    }
  }

  lemma {:induction false} FlatJitter(interval: int, j: int, a: int, m: int)
    requires a >= 1 && 4 * m < a && ((interval == a && j == m) || (interval == -a && j == -m))
    ensures (4 * m * interval) / (4 * a) == j
  {
    assert 4 * m * interval == (4 * a) * j;
    assert (4 * a) * (j + 1) == (4 * a) * j + 4 * a;
    QuotientIs(4 * m * interval, 4 * a, j);
  }

  lemma {:induction false} NegatedQuotient(x: int, d: int, m: int)
    requires d >= 1 && d * (m - 1) < x <= d * m
    ensures (-x) / d == -m
  {
    assert d * -m == -(d * m) && d * (-m + 1) == -(d * (m - 1));
    QuotientIs(-x, d, -m);
  }

  lemma {:induction false} SteepJitter(a: int, m: int)
    requires 4 * (m - 1) < a <= 4 * m
    requires a >= 1 && m >= 1
    ensures var p, d := 4 * (m - 1) + a, 8 * a; d * (m - 1) < p * a <= d * m
  {
    var p := 4 * (m - 1) + a;
    assert (8 * a) * (m - 1) == (8 * (m - 1)) * a && (8 * a) * m == (8 * m) * a;
    TimesMonotone(8 * (m - 1) + 1, p, a);
    TimesMonotone(p, 8 * m, a);
    assert (8 * (m - 1) + 1) * a == (8 * (m - 1)) * a + a;
  }

  lemma {:induction false} SteepReached(interval: int, a: int, m: int)
    requires interval == -a && 4 * (m - 1) < a <= 4 * m && a >= 1 && m >= 1
    ensures ((4 * (m - 1) + a) * interval) / (4 * (2 * a)) == -m
  {
    var x := (4 * (m - 1) + a) * a;
    SteepJitter(a, m);
    assert (4 * (m - 1) + a) * interval == -x;
    NegatedQuotient(x, 8 * a, m);
  }

  method AddJitter(interval: int) returns (delay: int)
    ensures IsJitter(interval, delay - interval)
  {
    // the random number, a fraction from 0 up to but not including 1
    var q: nat :| q >= 1;
    var p: nat :| p < q;
    if interval > 0 {
      PositiveJitter(interval, p, q);
    } else {
      NegativeJitter(interval, p, q);
    }
    delay := interval + (p * interval) / (4 * q);
  }

  lemma {:induction false} RunExtends(c: Settings, start: int, timeout: int, rounds: seq<Round>, r: Round)
    requires IsRun(c, start, timeout, rounds) && Follows(c, start, timeout, rounds, r)
    ensures IsRun(c, start, timeout, rounds + [r]) && Ready(start, rounds + [r]) == r.answered
    ensures forall outcome :: Concludes(rounds + [r], outcome) <==> ConcludesFrom(r.reply, outcome)
    ensures Interval(c, |rounds| + 1) == Min(Interval(c, |rounds|) * 2, c.maxInterval)
  {
    assert (rounds + [r])[..|rounds|] == rounds;
  }

  /** Whatever the clock, the agent and the abort signal do, the loop ends. */
  method PollUntilComplete(c: Settings, world: World, timeout: int)
    returns (outcome: Outcome, ghost start: int, ghost rounds: seq<Round>)
    modifies world
    ensures IsRun(c, start, timeout, rounds)
    ensures Concludes(rounds, outcome) && old(world.now) <= start && Ready(start, rounds) <= world.now
    ensures outcome == Aborted ==> world.aborted
    ensures outcome == TimedOut ==> world.now >= start + timeout || Interval(c, |rounds|) <= 0
  {
    var read := world.Read();
    start, rounds := read, [];
    var deadline := read + timeout;
    var interval := c.interval;
    while true
      invariant IsRun(c, start, timeout, rounds) && deadline == start + timeout
      invariant interval == Interval(c, |rounds|)
      invariant rounds != [] ==> rounds[|rounds| - 1].reply == Some(Working)
      invariant Ready(start, rounds) <= world.now
      decreases deadline - world.now
    {
      var head := world.Read();
      if head >= deadline {
        break;
      }
      var aborted := world.aborted;
      if aborted {
        return Aborted, start, rounds;
      }
      var jittered := AddJitter(interval);
      read := world.Read();
      var delay := Min(jittered, deadline - read);
      if delay <= 0 {
        break;
      }
      world.Sleep(delay);
      ghost var wake := world.now;
      var reply := world.GetTask();
      var state := if reply.None? then None else Some(ToTaskState(reply.value));
      ghost var r := Round(head, aborted, read, jittered - interval, delay, wake, world.now, state);
      assert Follows(c, start, timeout, rounds, r);
      RunExtends(c, start, timeout, rounds, r);
      rounds := rounds + [r];
      if state.None? {
        return FetchFailed, start, rounds;
      }
      if IsTerminal(state.value) {
        return HandleTerminalState(state.value), start, rounds;
      }
      if state.value == InputRequired || state.value == AuthRequired {
        return Returned(state.value), start, rounds;
      }
      interval := Min(interval * 2, c.maxInterval);
    }
    outcome := TimedOut;
  }

  /**
   * Every sleep is asked for at least one millisecond and never past the deadline; short of it, for the interval
   * and less than a quarter more.
   */
  lemma {:induction false} SleepsAsked(c: Settings, start: int, timeout: int, rounds: seq<Round>, k: nat)
    requires IsRun(c, start, timeout, rounds) && k < |rounds|
    ensures var r, interval := rounds[k], Interval(c, k);
            && interval >= 1 && 1 <= r.asked && r.read + r.asked <= start + timeout && r.asked <= r.wake - r.read
            && (r.read + r.asked < start + timeout ==> interval <= r.asked && 4 * (r.asked - interval) < interval)
            && (r.read + interval < start + timeout ==> r.asked >= interval)
    decreases |rounds|
  {
    if k < |rounds| - 1 {
      SleepsAsked(c, start, timeout, rounds[..|rounds| - 1], k);
    }
  }

  /** Only four states are ever returned. */
  lemma {:induction false} ReturnedStates(c: Settings, start: int, timeout: int, rounds: seq<Round>, state: TaskState)
    requires IsRun(c, start, timeout, rounds) && Concludes(rounds, Returned(state))
    ensures state == Completed || state == Canceled || state == InputRequired || state == AuthRequired
  {
  }

  lemma {:induction false} DoublingGrows(interval: int, k: nat)
    requires interval >= 0
    ensures interval * Pow2(k) >= interval
    ensures k > 0 ==> interval * Pow2(k) == 2 * (interval * Pow2(k - 1))
  {
    if k > 0 {
      DoublingGrows(interval, k - 1);
      assert interval * (2 * Pow2(k - 1)) == 2 * (interval * Pow2(k - 1));
    }
  }

  /** The intervals double up to the maximum, which does not bound the first one. */
  lemma {:induction false} IntervalsDouble(c: Settings, k: nat)
    requires 0 <= c.interval && 0 <= c.maxInterval
    ensures Interval(c, k) == if k == 0 then c.interval else Min(c.interval * Pow2(k), c.maxInterval)
    ensures c.interval <= c.maxInterval ==> Interval(c, k) == Min(c.interval * Pow2(k), c.maxInterval)
  {
    DoublingGrows(c.interval, k);
    if k > 0 {
      IntervalsDouble(c, k - 1);
      DoublingGrows(c.interval, k - 1);
    }
  }

  function SumIntervals(c: Settings, n: nat): int {
    if n == 0 then 0 else SumIntervals(c, n - 1) + Interval(c, n - 1)
  }

  /** Before the deadline, every finished round has lasted at least its interval. */
  lemma {:induction false} TimeSpent(c: Settings, start: int, timeout: int, rounds: seq<Round>)
    requires IsRun(c, start, timeout, rounds) && Ready(start, rounds) < start + timeout
    ensures Ready(start, rounds) >= start + SumIntervals(c, |rounds|)
  {
    if rounds != [] {
      var before, r := rounds[..|rounds| - 1], rounds[|rounds| - 1];
      TimeSpent(c, start, timeout, before);
      assert Delay(Interval(c, |before|), r, start + timeout) == Interval(c, |before|) + r.jitter;
      assert r.jitter >= 0;
    }
  }

  /** All intervals but the last fit the timeout, whatever time the fetches take. */
  lemma {:induction false} IntervalsFitTimeout(c: Settings, start: int, timeout: int, rounds: seq<Round>)
    requires IsRun(c, start, timeout, rounds) && rounds != []
    ensures SumIntervals(c, |rounds| - 1) < timeout
  {
    TimeSpent(c, start, timeout, rounds[..|rounds| - 1]);
  }

  lemma {:induction false} SumAtLeast(c: Settings, n: nat, least: int)
    requires 0 <= least <= c.interval && least <= c.maxInterval
    ensures Interval(c, n) >= least
    ensures SumIntervals(c, n) >= n * least
  {
    if n > 0 {
      SumAtLeast(c, n - 1, least);
      assert n * least == (n - 1) * least + least;
    }
  }

  function CeilingOf(a: int, b: int): int
    requires b >= 1
  {
    (a + b - 1) / b
  }

  lemma {:induction false} BelowCeiling(n: nat, a: int, b: int)
    requires b >= 1
    ensures n * b < a <==> n < CeilingOf(a, b)
  {
    var q := CeilingOf(a, b);
    assert a + b - 1 == q * b + (a + b - 1) % b;
    assert (n + 1) * b == n * b + b;
    if n < q {
      TimesMonotone(n + 1, q, b);
    } else {
      TimesMonotone(q, n, b);
    }
  }

  /** The number of fetches is bounded, whatever time they take. */
  lemma {:induction false} FetchesBounded(c: Settings, start: int, timeout: int, rounds: seq<Round>)
    requires IsRun(c, start, timeout, rounds)
    requires c.interval >= 1 && c.maxInterval >= 1
    ensures rounds == [] || |rounds| <= CeilingOf(timeout, Min(c.interval, c.maxInterval))
  {
    if rounds != [] {
      var least := Min(c.interval, c.maxInterval);
      IntervalsFitTimeout(c, start, timeout, rounds);
      SumAtLeast(c, |rounds| - 1, least);
      BelowCeiling(|rounds| - 1, timeout, least);
    }
  }

  /** A run without jitter, with immediate replies. */
  function Steady(c: Settings, start: int, timeout: int, n: nat): (r: seq<Round>)
    ensures |r| == n
    ensures n > 0 ==> r[n - 1].reply == Some(Working)
  {
    if n == 0 then []
    else
      var before := Steady(c, start, timeout, n - 1);
      before + [SteadyRound(Ready(start, before), Interval(c, n - 1), start + timeout)]
  }

  function SteadyRound(at: int, interval: int, deadline: int): Round {
    Round(at, false, at, 0, Min(interval, deadline - at), at + interval, at + interval, Some(Working))
  }

  lemma {:induction false} SteadyReady(c: Settings, start: int, timeout: int, n: nat)
    ensures Ready(start, Steady(c, start, timeout, n)) == start + SumIntervals(c, n)
  {
    if n > 0 {
      SteadyReady(c, start, timeout, n - 1);
    }
  }

  lemma {:induction false} SteadyIsRun(c: Settings, start: int, timeout: int, n: nat)
    requires c.interval >= 1 && (n <= 1 || c.maxInterval >= 1)
    requires n == 0 || SumIntervals(c, n - 1) < timeout
    ensures IsRun(c, start, timeout, Steady(c, start, timeout, n))
  {
    if n > 0 {
      if n > 1 {
        SumAtLeast(c, n - 1, 1);
        SumAtLeast(c, n - 2, 1);
      }
      SteadyIsRun(c, start, timeout, n - 1);
      SteadyReady(c, start, timeout, n - 1);
      var before := Steady(c, start, timeout, n - 1);
      var r := SteadyRound(Ready(start, before), Interval(c, n - 1), start + timeout);
      SteadyFollows(c, start, timeout, before);
      RunExtends(c, start, timeout, before, r);
    }
  }

  lemma {:induction false} SteadyFollows(c: Settings, start: int, timeout: int, rounds: seq<Round>)
    requires rounds != [] ==> rounds[|rounds| - 1].reply == Some(Working)
    requires Interval(c, |rounds|) >= 1 && Ready(start, rounds) < start + timeout
    ensures Follows(c, start, timeout, rounds,
                    SteadyRound(Ready(start, rounds), Interval(c, |rounds|), start + timeout))
  {
  }

  ghost predicate CanFetchTimes(c: Settings, start: int, timeout: int, n: nat) {
    exists rounds :: IsRun(c, start, timeout, rounds) && |rounds| == n
  }

  lemma {:induction false} LastIntervalPositive(c: Settings, start: int, timeout: int, rounds: seq<Round>)
    requires IsRun(c, start, timeout, rounds) && rounds != []
    ensures Interval(c, |rounds| - 1) >= 1
  {
  }

  /**
   * How often the agent can be asked: `n` times exactly when the first n - 1 intervals leave time before the
   * deadline, the first interval is positive and, unless once is enough, so is the maximum.
   */
  lemma {:induction false} FetchCountPossibleIff(c: Settings, start: int, timeout: int, n: nat)
    requires n >= 1
    ensures CanFetchTimes(c, start, timeout, n) <==>
            c.interval >= 1 && (n == 1 || c.maxInterval >= 1) && SumIntervals(c, n - 1) < timeout
  {
    if c.interval >= 1 && (n == 1 || c.maxInterval >= 1) && SumIntervals(c, n - 1) < timeout {
      SteadyIsRun(c, start, timeout, n);
    }
    if rounds :| IsRun(c, start, timeout, rounds) && |rounds| == n {
      IntervalsFitTimeout(c, start, timeout, rounds);
      FirstRound(c, start, timeout, rounds);
      LastIntervalPositive(c, start, timeout, rounds);
    }
  }

  lemma {:induction false} SumOfEqual(interval: int, n: nat)
    requires interval >= 1
    ensures Interval(Settings(interval, interval), n) == interval
    ensures SumIntervals(Settings(interval, interval), n) == n * interval
  {
    if n > 0 {
      SumOfEqual(interval, n - 1);
      assert n * interval == (n - 1) * interval + interval;
    }
  }

  /** The bound on fetches is reached when all intervals are equal. */
  lemma {:induction false} FetchBoundIsReached(interval: int, start: int, timeout: int)
    requires interval >= 1 && timeout >= 1
    ensures CanFetchTimes(Settings(interval, interval), start, timeout, CeilingOf(timeout, interval))
  {
    var n := CeilingOf(timeout, interval);
    BelowCeiling(0, timeout, interval);
    SumOfEqual(interval, n - 1);
    BelowCeiling(n - 1, timeout, interval);
    FetchCountPossibleIff(Settings(interval, interval), start, timeout, n);
  }

  /** A poll interval below one millisecond never fetches: the call times out, or is aborted, without asking once. */
  lemma {:induction false} ZeroIntervalNeverFetches(c: Settings, start: int, timeout: int, rounds: seq<Round>)
    requires IsRun(c, start, timeout, rounds) && c.interval <= 0
    ensures rounds == []
    ensures forall outcome :: Concludes(rounds, outcome) <==> outcome == TimedOut || outcome == Aborted
  {
    if rounds != [] {
      ZeroIntervalNeverFetches(c, start, timeout, rounds[..|rounds| - 1]);
    }
  }

  ghost predicate CanFetch(c: Settings, start: int, timeout: int) {
    exists rounds :: IsRun(c, start, timeout, rounds) && rounds != []
  }

  /** Fetching is possible exactly when there is time and the first interval is positive. */
  lemma {:induction false} FetchesPossibleIff(c: Settings, start: int, timeout: int)
    ensures CanFetch(c, start, timeout) <==> c.interval >= 1 && timeout >= 1
  {
    if c.interval >= 1 && timeout >= 1 {
      var r := Round(start, false, start, 0, Min(c.interval, timeout), start + c.interval, start + c.interval, None);
      assert Interval(c, 0) == c.interval && Follows(c, start, timeout, [], r);
      assert IsRun(c, start, timeout, [] + [r]) && [] + [r] != [];
    }
    if rounds :| IsRun(c, start, timeout, rounds) && rounds != [] {
      FirstRound(c, start, timeout, rounds);
    }
  }

  lemma {:induction false} FirstRound(c: Settings, start: int, timeout: int, rounds: seq<Round>)
    requires IsRun(c, start, timeout, rounds) && rounds != []
    ensures c.interval >= 1 && timeout >= 1
  {
    if |rounds| > 1 {
      FirstRound(c, start, timeout, rounds[..|rounds| - 1]);
    } else {
      assert rounds[..0] == [];
    }
  }
}
