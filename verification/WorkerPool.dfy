/**
 * The bounded worker pool. A worker is known by the task it awaits; which of the awaited tasks
 * settles next is left open, so every statement holds for every schedule.
 */
module WorkerPool {

  datatype Outcome<V> = Fulfilled(value: V) | Rejected

  /** How many workers are started; none for a limit below one. */
  function Workers(concurrency: int, tasks: nat): nat {
    if concurrency < 0 then 0 else if concurrency < tasks then concurrency else tasks
  }

  /** The rejecting ones among the first `k` tasks. */
  function RejectedBelow<V>(tasks: seq<Outcome<V>>, k: nat): set<nat>
    requires k <= |tasks|
  {
    set i: nat | i < k && tasks[i].Rejected?
  }

  /** The next task to start, the tasks in flight, those that rejected, and the stored values by place. */
  datatype Pool<V> = Pool(index: nat, busy: set<nat>, lost: set<nat>, results: map<nat, V>)

  /** A worker at the head of its loop starts the next task, or ends when none is left. */
  function Take<V>(p: Pool<V>, tasks: nat): Pool<V> {
    if p.index < tasks then p.(busy := p.busy + {p.index}, index := p.index + 1) else p
  }

  function Settle<V>(p: Pool<V>, tasks: seq<Outcome<V>>, t: nat): Pool<V>
    requires t < |tasks|
  {
    match tasks[t]
    case Fulfilled(value) => Take(p.(busy := p.busy - {t}, results := p.results[t := value]), |tasks|)
    case Rejected => p.(busy := p.busy - {t}, lost := p.lost + {t})
  }

  /** Every started task is in flight, has rejected, or has its own value stored at its own place. */
  ghost predicate Accounted<V>(p: Pool<V>, tasks: seq<Outcome<V>>) {
    && p.index <= |tasks|
    && (forall i | i in p.busy :: i < p.index && i !in p.lost && i !in p.results)
    && (forall i | i in p.lost :: i < p.index && tasks[i].Rejected?)
    && (forall i | i in p.results :: i < p.index && tasks[i] == Fulfilled(p.results[i]))
    && forall i: nat | i < p.index :: i in p.busy || i in p.lost || i in p.results
  }

  /** Workers only end by a rejection as long as there are tasks to start. */
  ghost predicate Staffed<V>(p: Pool<V>, tasks: nat, workers: nat) {
    && |p.busy| + |p.lost| <= workers
    && (p.index < tasks ==> |p.busy| + |p.lost| == workers)
  }

  lemma {:induction false} TakeAccounted<V>(p: Pool<V>, tasks: seq<Outcome<V>>)
    requires Accounted(p, tasks)
    ensures Accounted(Take(p, |tasks|), tasks)
    ensures |Take(p, |tasks|).busy| == |p.busy| + (if p.index < |tasks| then 1 else 0)
  {
    if p.index < |tasks| {
      assert p.index !in p.busy;
    }
  }

  /** The settling of any task in flight keeps the account. */
  lemma {:induction false} SettleAccounted<V>(p: Pool<V>, tasks: seq<Outcome<V>>, t: nat, workers: nat)
    requires Accounted(p, tasks) && Staffed(p, |tasks|, workers) && t in p.busy
    ensures Accounted(Settle(p, tasks, t), tasks) && Staffed(Settle(p, tasks, t), |tasks|, workers)
  {
    match tasks[t]
    case Fulfilled(value) =>
      var stored := p.(busy := p.busy - {t}, results := p.results[t := value]);
      assert Accounted(stored, tasks);
      assert |stored.busy| == |p.busy| - 1;
      TakeAccounted(stored, tasks);
    case Rejected =>
      assert |p.busy - {t}| == |p.busy| - 1;
  }

  /** When nothing is in flight any more, the stored values and the rejections split the started tasks. */
  lemma {:induction false} AllSettled<V>(p: Pool<V>, tasks: seq<Outcome<V>>)
    requires Accounted(p, tasks) && p.busy == {}
    ensures p.lost == RejectedBelow(tasks, p.index)
    ensures p.results.Keys == set i: nat | i < p.index && tasks[i].Fulfilled?
    ensures forall i | i in p.results :: tasks[i] == Fulfilled(p.results[i])
  {
  }

  lemma {:induction false} SettleShrinks<V>(p: Pool<V>, tasks: seq<Outcome<V>>, t: nat)
    requires Accounted(p, tasks) && t in p.busy
    ensures p.index <= Settle(p, tasks, t).index <= p.index + 1
    ensures Unfinished(Settle(p, tasks, t), |tasks|) < Unfinished(p, |tasks|)
  {
    assert p.index !in p.busy;
  }

  function Unfinished<V>(p: Pool<V>, tasks: nat): int {
    2 * (tasks - p.index) + |p.busy|
  }

  function Below(k: nat): (s: set<nat>)
    ensures |s| == k && forall i: nat :: i in s <==> i < k
  {
    if k == 0 then {} else Below(k - 1) + {k - 1}
  }

  /** The pool once every worker has started, each with its own task. */
  function Launched<V>(workers: nat): Pool<V> {
    Pool(workers, Below(workers), {}, map[])
  }

  /** A schedule lists the tasks in the order in which they settle. */
  ghost predicate Possible<V>(tasks: seq<Outcome<V>>, workers: nat, schedule: seq<nat>)
    requires workers <= |tasks|
    decreases |schedule|, 0
  {
    schedule == [] ||
    var before, t := schedule[..|schedule| - 1], schedule[|schedule| - 1];
    Possible(tasks, workers, before) && t < |tasks| && t in After(tasks, workers, before).busy
  }

  ghost function After<V>(tasks: seq<Outcome<V>>, workers: nat, schedule: seq<nat>): Pool<V>
    requires workers <= |tasks| && Possible(tasks, workers, schedule)
    decreases |schedule|, 1
  {
    if schedule == [] then Launched(workers)
    else Settle(After(tasks, workers, schedule[..|schedule| - 1]), tasks, schedule[|schedule| - 1])
  }

  /** In every schedule: never more tasks in flight than workers, and the account is kept. */
  lemma {:induction false} InFlightBounded<V>(tasks: seq<Outcome<V>>, workers: nat, schedule: seq<nat>)
    requires workers <= |tasks| && Possible(tasks, workers, schedule)
    ensures var p := After(tasks, workers, schedule);
            Accounted(p, tasks) && Staffed(p, |tasks|, workers) && |p.busy| <= workers
  {
    if schedule == [] {
      assert Accounted(Launched(workers), tasks);
    } else {
      var before := schedule[..|schedule| - 1];
      InFlightBounded(tasks, workers, before);
      SettleAccounted(After(tasks, workers, before), tasks, schedule[|schedule| - 1], workers);
    }
  }

  function Times(schedule: seq<nat>, t: nat): nat {
    if schedule == [] then 0
    else Times(schedule[..|schedule| - 1], t) + if schedule[|schedule| - 1] == t then 1 else 0
  }

  predicate HasSettled<V>(p: Pool<V>, t: nat) {
    t < p.index && t !in p.busy
  }

  lemma {:induction false} SettlesNow<V>(p: Pool<V>, tasks: seq<Outcome<V>>, x: nat, t: nat)
    requires Accounted(p, tasks) && x in p.busy
    ensures HasSettled(Settle(p, tasks, x), t) <==> HasSettled(p, t) || t == x
    ensures !HasSettled(p, x)
  {
  }

  /** A started task settles once, unless it is still in flight; no other task settles. */
  lemma {:induction false} SettlesOnce<V>(tasks: seq<Outcome<V>>, workers: nat, schedule: seq<nat>, t: nat)
    requires workers <= |tasks| && Possible(tasks, workers, schedule)
    ensures Times(schedule, t) == if HasSettled(After(tasks, workers, schedule), t) then 1 else 0
  {
    if schedule != [] {
      var before := schedule[..|schedule| - 1];
      SettlesOnce(tasks, workers, before, t);
      InFlightBounded(tasks, workers, before);
      SettlesNow(After(tasks, workers, before), tasks, schedule[|schedule| - 1], t);
    }
  }

  /**
   * A finished run has stored the value of every started task that did not reject, at its own place.
   * A rejection ends its worker, so a task stays unstarted only when as many rejected as there are workers.
   */
  lemma {:induction false} FinishedRun<V>(tasks: seq<Outcome<V>>, workers: nat, schedule: seq<nat>)
    requires workers <= |tasks| && Possible(tasks, workers, schedule)
    requires After(tasks, workers, schedule).busy == {}
    ensures var p := After(tasks, workers, schedule);
            && p.index <= |tasks|
            && p.results.Keys == (set i: nat | i < p.index && tasks[i].Fulfilled?)
            && (forall i | i in p.results :: tasks[i] == Fulfilled(p.results[i]))
            && |RejectedBelow(tasks, p.index)| <= workers
            && (p.index < |tasks| ==> |RejectedBelow(tasks, p.index)| == workers)
  {
    InFlightBounded(tasks, workers, schedule);
    AllSettled(After(tasks, workers, schedule), tasks);
  }

  /** The pool runs to its end under any schedule. */
  method RunWithConcurrency<V>(tasks: seq<Outcome<V>>, concurrency: int)
    returns (results: map<nat, V>, ghost schedule: seq<nat>)
    ensures Possible(tasks, Workers(concurrency, |tasks|), schedule)
    ensures var last := After(tasks, Workers(concurrency, |tasks|), schedule);
            last.busy == {} && last.results == results
    ensures concurrency >= 1 && RejectedBelow(tasks, |tasks|) == {} ==> Stored(tasks, results)
    ensures concurrency < 1 ==> results == map[]
  {
    ghost var workers := Workers(concurrency, |tasks|);
    var pool := Launch<V>(|tasks|, concurrency);
    schedule := [];
    while pool.busy != {}
      invariant Possible(tasks, workers, schedule) && pool == After(tasks, workers, schedule)
      decreases Unfinished(pool, |tasks|)
    {
      InFlightBounded(tasks, workers, schedule);
      var current :| current in pool.busy;
      SettleShrinks(pool, tasks, current);
      assert (schedule + [current])[..|schedule|] == schedule;
      schedule := schedule + [current];
      pool := Settle(pool, tasks, current);
    }
    results := pool.results;
    FinishedRun(tasks, workers, schedule);
    if concurrency < 1 {
      assert |RejectedBelow(tasks, pool.index)| == 0;
      NoneStarted(tasks, schedule);
    } else if RejectedBelow(tasks, |tasks|) == {} {
      NothingRejected(tasks, workers, schedule);
    }
  }

  /** Every task's value is stored, at its own place. */
  ghost predicate Stored<V>(tasks: seq<Outcome<V>>, results: map<nat, V>) {
    && results.Keys == Below(|tasks|)
    && forall i | i in results :: i < |tasks| && tasks[i] == Fulfilled(results[i])
  }

  lemma {:induction false} NoneStarted<V>(tasks: seq<Outcome<V>>, schedule: seq<nat>)
    requires Possible(tasks, 0, schedule)
    ensures schedule == [] && After(tasks, 0, schedule) == Launched(0)
  {
    if schedule != [] {
      NoneStarted(tasks, schedule[..|schedule| - 1]);
    }
  }

  /** Without rejections every task is started and has its value stored. */
  lemma {:induction false} NothingRejected<V>(tasks: seq<Outcome<V>>, workers: nat, schedule: seq<nat>)
    requires workers <= |tasks| && (workers == 0 ==> tasks == [])
    requires Possible(tasks, workers, schedule) && After(tasks, workers, schedule).busy == {}
    requires RejectedBelow(tasks, |tasks|) == {}
    ensures After(tasks, workers, schedule).index == |tasks|
    ensures Stored(tasks, After(tasks, workers, schedule).results)
  {
    FinishedRun(tasks, workers, schedule);
    assert RejectedBelow(tasks, After(tasks, workers, schedule).index) <= RejectedBelow(tasks, |tasks|);
    forall i: nat | i < |tasks|
      ensures tasks[i].Fulfilled?
    {
      assert i !in RejectedBelow(tasks, |tasks|);
    }
  }

  /** The workers start one after the other, each with the next task, before any task settles. */
  method Launch<V>(tasks: nat, concurrency: int) returns (pool: Pool<V>)
    ensures pool == Launched(Workers(concurrency, tasks))
  {
    pool := Pool(0, {}, {}, map[]);
    var i: int := 0;
    while i < concurrency && i < tasks
      invariant 0 <= i <= Workers(concurrency, tasks) && pool == Launched(i)
    {
      LaunchNext<V>(i, tasks);
      pool := Take(pool, tasks);
      i := i + 1;
    }
  }

  lemma {:induction false} LaunchNext<V>(i: nat, tasks: nat)
    requires i < tasks
    ensures Take(Launched<V>(i), tasks) == Launched(i + 1)
  {
  }
}
