/** Hard caps on sub-agent spawning, and what the gap between check and record costs. */
module SpawnGuard {
  import opened JsText
  import opened Numerals
  import opened Wrappers

  datatype Limits = Limits(maxSpawnDepth: int, maxChildrenPerAgent: int, maxConcurrent: int)

  datatype State = State(activeConcurrent: int, totalSpawns: int, activeByParent: map<Text, int>)

  datatype SpawnError =
    | DepthExceeded(depth: int, limit: int)
    | ChildLimit(parent: Text, children: int, limit: int)
    | ConcurrencyLimit(active: int, limit: int)

  const FRESH: State := State(0, 0, map[])

  predicate ValidLimits(limits: Limits) {
    limits.maxSpawnDepth >= 0 && limits.maxChildrenPerAgent >= 0 && limits.maxConcurrent >= 0
  }

  function Children(s: State, parent: Text): int {
    if parent in s.activeByParent then s.activeByParent[parent] else 0
  }

  predicate WithinDepth(limits: Limits, childDepth: int) {
    childDepth <= limits.maxSpawnDepth
  }

  predicate RoomForChild(limits: Limits, s: State, parent: Text) {
    Children(s, parent) < limits.maxChildrenPerAgent
  }

  predicate RoomForSpawn(limits: Limits, s: State) {
    s.activeConcurrent < limits.maxConcurrent
  }

  /** The error tells the limit violated and by what; a later limit is only blamed when the earlier ones hold. */
  predicate Explains(e: SpawnError, limits: Limits, s: State, parent: Text, childDepth: int) {
    match e
    case DepthExceeded(depth, limit) =>
      !WithinDepth(limits, childDepth) && depth == childDepth && limit == limits.maxSpawnDepth
    case ChildLimit(p, children, limit) =>
      && WithinDepth(limits, childDepth) && !RoomForChild(limits, s, parent)
      && p == parent && children == Children(s, parent) && limit == limits.maxChildrenPerAgent
    case ConcurrencyLimit(active, limit) =>
      && WithinDepth(limits, childDepth) && RoomForChild(limits, s, parent) && !RoomForSpawn(limits, s)
      && active == s.activeConcurrent && limit == limits.maxConcurrent
  }

  function Check(limits: Limits, s: State, parent: Text, childDepth: int): Option<SpawnError> {
    if childDepth > limits.maxSpawnDepth then Some(DepthExceeded(childDepth, limits.maxSpawnDepth))
    else if Children(s, parent) >= limits.maxChildrenPerAgent then
      Some(ChildLimit(parent, Children(s, parent), limits.maxChildrenPerAgent))
    else if s.activeConcurrent >= limits.maxConcurrent then
      Some(ConcurrencyLimit(s.activeConcurrent, limits.maxConcurrent))
    else None
  }

  function Spawned(s: State, parent: Text): State {
    State(s.activeConcurrent + 1, s.totalSpawns + 1, s.activeByParent[parent := Children(s, parent) + 1])
  }

  /** Completions of untracked parents are ignored; a parent's last completion removes its entry. */
  function Completed(s: State, parent: Text): State {
    var children := Children(s, parent);
    if children == 0 then s
    else
      var left := if children <= 1 then s.activeByParent - {parent} else s.activeByParent[parent := children - 1];
      State(if s.activeConcurrent - 1 > 0 then s.activeConcurrent - 1 else 0, s.totalSpawns, left)
  }

  /** The counts of all other parents are what they were. */
  ghost predicate OthersKeep(before: State, after: State, parent: Text) {
    forall p | p != parent :: Children(after, p) == Children(before, p)
  }

  /** One more spawn of this parent, in its own count and in both totals. */
  ghost predicate CountsOneMore(before: State, after: State, parent: Text) {
    && after.activeConcurrent == before.activeConcurrent + 1
    && after.totalSpawns == before.totalSpawns + 1
    && Children(after, parent) == Children(before, parent) + 1
    && OthersKeep(before, after, parent)
  }

  /** One active spawn of this parent less, if it had any; spawns made stay counted, and no count of zero is stored. */
  ghost predicate CountsOneLess(before: State, after: State, parent: Text) {
    if Children(before, parent) == 0 then after == before
    else
      && after.activeConcurrent == before.activeConcurrent - 1
      && after.totalSpawns == before.totalSpawns
      && Children(after, parent) == Children(before, parent) - 1
      && (Children(after, parent) == 0 ==> parent !in after.activeByParent)
      && OthersKeep(before, after, parent)
  }

  /** The sum of all counts. */
  ghost function Total(m: map<Text, int>): int {
    if m == map[] then 0
    else
      var k :| k in m;
      m[k] + Total(m - {k})
  }

  lemma {:induction false} TotalRemove(m: map<Text, int>, k: Text)
    requires k in m
    ensures Total(m) == m[k] + Total(m - {k})
  {
    var j :| j in m && Total(m) == m[j] + Total(m - {j});
    if j != k {
      TotalRemove(m - {j}, k);
      TotalRemove(m - {k}, j);
      assert m - {j} - {k} == m - {k} - {j};
    }
  }

  lemma {:induction false} TotalUpdate(m: map<Text, int>, k: Text, v: int)
    ensures Total(m[k := v]) == Total(m - {k}) + v
  {
    TotalRemove(m[k := v], k);
    assert m[k := v] - {k} == m - {k};
  }

  lemma {:induction false} TotalNonNegative(m: map<Text, int>)
    requires forall k | k in m :: m[k] >= 1
    ensures Total(m) >= |m|
  {
    if m != map[] {
      var k :| k in m && Total(m) == m[k] + Total(m - {k});
      TotalNonNegative(m - {k});
      assert m == (m - {k})[k := m[k]];
    }
  }

  /** The global counter is the sum of the counts by parent, and no stored count is below one. */
  ghost predicate Conserved(s: State) {
    && s.activeConcurrent == Total(s.activeByParent)
    && forall p | p in s.activeByParent :: s.activeByParent[p] >= 1
  }

  lemma {:induction false} SpawnedConserved(s: State, parent: Text)
    requires Conserved(s)
    ensures Conserved(Spawned(s, parent))
  {
    TotalUpdate(s.activeByParent, parent, Children(s, parent) + 1);
    if parent in s.activeByParent {
      TotalRemove(s.activeByParent, parent);
    } else {
      assert s.activeByParent - {parent} == s.activeByParent;
    }
  }

  /** Completing keeps the sum, and the clamp at zero never takes effect. */
  lemma {:induction false} CompletedConserved(s: State, parent: Text)
    requires Conserved(s)
    ensures Conserved(Completed(s, parent))
    ensures Children(s, parent) > 0 ==>
              s.activeConcurrent >= 1 && Completed(s, parent).activeConcurrent == s.activeConcurrent - 1
  {
    if parent in s.activeByParent {
      var others := s.activeByParent - {parent};
      TotalRemove(s.activeByParent, parent);
      TotalNonNegative(others);
      if Children(s, parent) > 1 {
        TotalUpdate(s.activeByParent, parent, Children(s, parent) - 1);
      }
    }
  }

  class Guard {
    const limits: Limits
    var state: State

    ghost predicate Valid()
      reads this
    {
      ValidLimits(limits) && Conserved(state)
    }

    constructor (limits: Limits)
      requires ValidLimits(limits)
      ensures Valid() && state == FRESH && this.limits == limits
    {
      this.limits := limits;
      state := FRESH;
    }

    /** Limits must not be negative. */
    static method Create(limits: Limits) returns (guard: Option<Guard>)
      ensures guard.Some? <==> ValidLimits(limits)
      ensures guard.Some? ==>
                && fresh(guard.value) && guard.value.Valid()
                && guard.value.state == FRESH && guard.value.limits == limits
    {
      if !ValidLimits(limits) {
        return None;
      }
      var g := new Guard(limits);
      return Some(g);
    }

    method CheckSpawn(parent: Text, childDepth: int) returns (error: Option<SpawnError>)
      ensures error == Check(limits, state, parent, childDepth)
      ensures error == None <==>
              && WithinDepth(limits, childDepth)
              && RoomForChild(limits, state, parent)
              && RoomForSpawn(limits, state)
      ensures error.Some? ==> Explains(error.value, limits, state, parent, childDepth)
    {
      if childDepth > limits.maxSpawnDepth {
        return Some(DepthExceeded(childDepth, limits.maxSpawnDepth));
      }
      var currentChildren := Children(state, parent);
      if currentChildren >= limits.maxChildrenPerAgent {
        return Some(ChildLimit(parent, currentChildren, limits.maxChildrenPerAgent));
      }
      if state.activeConcurrent >= limits.maxConcurrent {
        return Some(ConcurrencyLimit(state.activeConcurrent, limits.maxConcurrent));
      }
      return None;
    }

    method CheckAndRecord(parent: Text, childDepth: int) returns (error: Option<SpawnError>)
      requires Valid()
      modifies this
      ensures Valid()
      ensures error == Check(limits, old(state), parent, childDepth)
      ensures state == if error == None then Spawned(old(state), parent) else old(state)
      ensures if error == None then CountsOneMore(old(state), state, parent) else state == old(state)
    {
      error := CheckSpawn(parent, childDepth);
      if error == None {
        RecordSpawn(parent);
      }
    }

    method RecordSpawn(parent: Text)
      requires Valid()
      modifies this
      ensures Valid() && state == Spawned(old(state), parent)
      ensures CountsOneMore(old(state), state, parent)
    {
      SpawnedConserved(state, parent);
      var currentChildren := Children(state, parent);
      state := State(state.activeConcurrent + 1,
                     state.totalSpawns + 1,
                     state.activeByParent[parent := currentChildren + 1]);
    }

    method RecordCompletion(parent: Text)
      requires Valid()
      modifies this
      ensures Valid() && state == Completed(old(state), parent)
      ensures CountsOneLess(old(state), state, parent)
    {
      CompletedConserved(state, parent);
      var currentChildren := Children(state, parent);
      if currentChildren == 0 {
        return;
      }
      var newActiveByParent :=
        if currentChildren <= 1 then state.activeByParent - {parent}
        else state.activeByParent[parent := currentChildren - 1];
      state := State(if state.activeConcurrent - 1 > 0 then state.activeConcurrent - 1 else 0,
                     state.totalSpawns,
                     newActiveByParent);
    }

    method Reset()
      requires Valid()
      modifies this
      ensures Valid() && state == FRESH
    {
      state := FRESH;
    }
  }

  // ---- Whole runs ----

  /** What may happen to a guard: a record, a completion or a reset. */
  datatype Event = Spawn(parent: Text) | Complete(parent: Text) | ResetAll

  function Step(s: State, e: Event): State {
    match e
    case Spawn(p) => Spawned(s, p)
    case Complete(p) => Completed(s, p)
    case ResetAll => FRESH
  }

  function Run(events: seq<Event>): State {
    if events == [] then FRESH else Step(Run(events[..|events| - 1]), events[|events| - 1])
  }

  lemma {:induction false} StepConserved(s: State, e: Event)
    requires Conserved(s)
    ensures Conserved(Step(s, e))
  {
    match e
    case Spawn(p) => SpawnedConserved(s, p);
    case Complete(p) => CompletedConserved(s, p);
    case ResetAll =>
  }

  /** In every run the total is the sum of the counts by parent, and no stored count is below one. */
  lemma {:induction false} RunConserved(events: seq<Event>)
    ensures Conserved(Run(events))
  {
    if events != [] {
      RunConserved(events[..|events| - 1]);
      StepConserved(Run(events[..|events| - 1]), events[|events| - 1]);
    }
  }

  // ---- What the counts say about the children that run ----

  /** A child of a parent begins or ends, or the session starts again, which ends no child. */
  datatype Change = Begin(parent: Text, child: nat) | End(parent: Text, child: nat) | Restart

  /** What the guard is told of a change: the parent, but not which child. */
  function Told(c: Change): Event {
    match c
    case Begin(p, _) => Spawn(p)
    case End(p, _) => Complete(p)
    case Restart => ResetAll
  }

  function AllTold(changes: seq<Change>): seq<Event> {
    if changes == [] then [] else AllTold(changes[..|changes| - 1]) + [Told(changes[|changes| - 1])]
  }

  function Guarded(changes: seq<Change>): State {
    Run(AllTold(changes))
  }

  lemma {:induction false} GuardedStep(changes: seq<Change>)
    requires changes != []
    ensures Guarded(changes) == Step(Guarded(changes[..|changes| - 1]), Told(changes[|changes| - 1]))
    ensures Conserved(Guarded(changes[..|changes| - 1]))
  {
    var before := AllTold(changes[..|changes| - 1]);
    assert AllTold(changes)[..|before|] == before;
    RunConserved(before);
  }

  /** The children that run, with their parents. */
  function Running(changes: seq<Change>): set<(Text, nat)> {
    if changes == [] then {}
    else
      var before := Running(changes[..|changes| - 1]);
      match changes[|changes| - 1]
      case Begin(p, c) => before + {(p, c)}
      case End(p, c) => before - {(p, c)}
      case Restart => before
  }

  function ChildrenOf(running: set<(Text, nat)>, parent: Text): set<(Text, nat)> {
    set x | x in running && x.0 == parent
  }

  /** Only a child that does not run begins, and only one that runs ends. */
  predicate Proper(changes: seq<Change>) {
    changes == [] ||
    var before, last := changes[..|changes| - 1], changes[|changes| - 1];
    && Proper(before)
    && (last.Begin? ==> (last.parent, last.child) !in Running(before))
    && (last.End? ==> (last.parent, last.child) in Running(before))
  }

  lemma {:induction false} ProperUpTo(changes: seq<Change>, n: nat)
    requires Proper(changes) && n <= |changes|
    ensures Proper(changes[..n])
    decreases |changes|
  {
    if n == |changes| {
      assert changes[..n] == changes;
    } else {
      ProperUpTo(changes[..|changes| - 1], n);
      assert changes[..|changes| - 1][..n] == changes[..n];
    }
  }

  /** How a change alters the number of running children, of one parent and of all. */
  lemma {:induction false} RunningStep(changes: seq<Change>, parent: Text)
    requires Proper(changes) && changes != []
    ensures var before, last := Running(changes[..|changes| - 1]), changes[|changes| - 1];
            var change := match last case Begin(_, _) => 1 case End(_, _) => -1 case Restart => 0;
            && |Running(changes)| == |before| + change
            && |ChildrenOf(Running(changes), parent)| ==
               |ChildrenOf(before, parent)| + (if last.Restart? || last.parent != parent then 0 else change)
            && (last.End? ==> |ChildrenOf(before, last.parent)| >= 1)
  {
    var before, last := Running(changes[..|changes| - 1]), changes[|changes| - 1];
    if last.Begin? {
      ChildrenAdd(before, (last.parent, last.child), parent);
    } else if last.End? {
      var x := (last.parent, last.child);
      ChildrenAdd(Running(changes), x, parent);
      assert Running(changes) + {x} == before;
      assert x in ChildrenOf(before, last.parent);
    }
  }

  lemma {:induction false} ChildrenAdd(running: set<(Text, nat)>, x: (Text, nat), parent: Text)
    requires x !in running
    ensures |running + {x}| == |running| + 1
    ensures |ChildrenOf(running + {x}, parent)| == |ChildrenOf(running, parent)| + if x.0 == parent then 1 else 0
  {
    assert ChildrenOf(running + {x}, parent) == ChildrenOf(running, parent) + if x.0 == parent then {x} else {};
  }

  /** The guard never counts more children of a parent than run. */
  lemma {:induction false} NeverOvercounts(changes: seq<Change>, parent: Text)
    requires Proper(changes)
    ensures Children(Guarded(changes), parent) <= |ChildrenOf(Running(changes), parent)|
  {
    if changes != [] {
      NeverOvercounts(changes[..|changes| - 1], parent);
      GuardedStep(changes);
      RunningStep(changes, parent);
    }
  }

  /** The guard starts again only while no child runs. */
  predicate RestartsIdle(changes: seq<Change>) {
    forall n | 0 <= n < |changes| && changes[n].Restart? :: Running(changes[..n]) == {}
  }

  /** Then the counts are the running children, of every parent and in total. */
  lemma {:induction false} IdleRestartsExact(changes: seq<Change>, parent: Text)
    requires Proper(changes) && RestartsIdle(changes)
    ensures Children(Guarded(changes), parent) == |ChildrenOf(Running(changes), parent)|
    ensures Guarded(changes).activeConcurrent == |Running(changes)|
  {
    if changes != [] {
      var before, last := changes[..|changes| - 1], changes[|changes| - 1];
      IdleUpTo(changes, |before|);
      IdleRestartsExact(before, parent);
      GuardedStep(changes);
      RunningStep(changes, parent);
      if last.End? {
        IdleRestartsExact(before, last.parent);
        CompletedConserved(Guarded(before), last.parent);
      } else if last.Restart? {
        assert ChildrenOf({}, parent) == {};
      }
    }
  }

  lemma {:induction false} IdleUpTo(changes: seq<Change>, n: nat)
    requires RestartsIdle(changes) && n <= |changes|
    ensures RestartsIdle(changes[..n])
  {
    forall m | 0 <= m < n && changes[..n][m].Restart? ensures Running(changes[..n][..m]) == {} {
      assert changes[..n][..m] == changes[..m];
    }
  }

  ghost predicate Exact(changes: seq<Change>) {
    forall p :: Children(Guarded(changes), p) == |ChildrenOf(Running(changes), p)|
  }

  /** A restart while children run leaves them uncounted. */
  lemma {:induction false} RestartForgets(changes: seq<Change>)
    requires changes != [] && changes[|changes| - 1].Restart? && Exact(changes)
    ensures Running(changes) == {}
  {
    GuardedStep(changes);
    forall p ensures ChildrenOf(Running(changes), p) == {} {
      assert Children(Guarded(changes), p) == 0;
    }
    assert forall x | x in Running(changes) :: x in ChildrenOf(Running(changes), x.0);
  }

  /** At every moment the counts are the running children of each parent exactly if no restart finds one running. */
  lemma {:induction false} CountsExactIff(changes: seq<Change>)
    requires Proper(changes)
    ensures (forall n | 0 <= n <= |changes| :: Exact(changes[..n])) <==> RestartsIdle(changes)
  {
    if RestartsIdle(changes) {
      forall n | 0 <= n <= |changes| ensures Exact(changes[..n]) {
        ProperUpTo(changes, n);
        IdleUpTo(changes, n);
        forall p ensures Children(Guarded(changes[..n]), p) == |ChildrenOf(Running(changes[..n]), p)| {
          IdleRestartsExact(changes[..n], p);
        }
      }
    }
    if forall n | 0 <= n <= |changes| :: Exact(changes[..n]) {
      forall n | 0 <= n < |changes| && changes[n].Restart? ensures Running(changes[..n]) == {} {
        assert Exact(changes[..n + 1]) && changes[..n + 1][..n] == changes[..n];
        RestartForgets(changes[..n + 1]);
      }
    }
  }

  lemma {:induction false} OneMore(changes: seq<Change>, c: Change)
    ensures Guarded(changes + [c]) == Step(Guarded(changes), Told(c))
    ensures Running(changes + [c]) ==
            match c
            case Begin(p, child) => Running(changes) + {(p, child)}
            case End(p, child) => Running(changes) - {(p, child)}
            case Restart => Running(changes)
    ensures Proper(changes + [c]) <==>
            && Proper(changes)
            && (c.Begin? ==> (c.parent, c.child) !in Running(changes))
            && (c.End? ==> (c.parent, c.child) in Running(changes))
  {
    assert (changes + [c])[..|changes|] == changes;
    GuardedStep(changes + [c]);
  }

  /** A child that outlives a restart uncounts another one when it ends: a child runs and the count is zero. */
  lemma {:induction false} OutlivingChildUncounts(parent: Text)
    ensures var changes := [Begin(parent, 0), Restart, Begin(parent, 1), End(parent, 0)];
            && Proper(changes)
            && ChildrenOf(Running(changes), parent) == {(parent, 1)}
            && Children(Guarded(changes), parent) == 0
  {
    OneMore([], Begin(parent, 0));
    OneMore([Begin(parent, 0)], Restart);
    OneMore([Begin(parent, 0), Restart], Begin(parent, 1));
    OneMore([Begin(parent, 0), Restart, Begin(parent, 1)], End(parent, 0));
    assert [] + [Begin(parent, 0)] == [Begin(parent, 0)];
    assert [Begin(parent, 0)] + [Restart] == [Begin(parent, 0), Restart];
    assert [Begin(parent, 0), Restart] + [Begin(parent, 1)] == [Begin(parent, 0), Restart, Begin(parent, 1)];
    assert [Begin(parent, 0), Restart, Begin(parent, 1)] + [End(parent, 0)]
        == [Begin(parent, 0), Restart, Begin(parent, 1), End(parent, 0)];
  }

  /** Every child begins right after a check that allowed it. */
  predicate Checked(limits: Limits, changes: seq<Change>) {
    forall n | 0 <= n < |changes| && changes[n].Begin? ::
      RoomForChild(limits, Guarded(changes[..n]), changes[n].parent) && RoomForSpawn(limits, Guarded(changes[..n]))
  }

  /** With checks right before each begin and idle restarts, the limits hold of the children that really run. */
  lemma {:induction false} LimitsHoldOfRunning(limits: Limits, changes: seq<Change>, parent: Text)
    requires ValidLimits(limits) && Proper(changes) && RestartsIdle(changes) && Checked(limits, changes)
    ensures |ChildrenOf(Running(changes), parent)| <= limits.maxChildrenPerAgent
    ensures |Running(changes)| <= limits.maxConcurrent
  {
    if changes != [] {
      var n := |changes| - 1;
      IdleUpTo(changes, n);
      assert Checked(limits, changes[..n]) by {
        assert forall m | 0 <= m < n :: changes[..n][..m] == changes[..m];
      }
      LimitsHoldOfRunning(limits, changes[..n], parent);
      IdleRestartsExact(changes[..n], parent);
      RunningStep(changes, parent);
    } else {
      assert ChildrenOf({}, parent) == {};
    }
  }

  /** One call on a guard that is only used through `checkAndRecord`: refused spawns change nothing. */
  function AtomicStep(limits: Limits, s: State, e: Event, childDepth: int): State {
    if e.Spawn? && Check(limits, s, e.parent, childDepth).Some? then s else Step(s, e)
  }

  function AtomicRun(limits: Limits, calls: seq<(Event, int)>): State {
    if calls == [] then FRESH
    else
      var (e, childDepth) := calls[|calls| - 1];
      AtomicStep(limits, AtomicRun(limits, calls[..|calls| - 1]), e, childDepth)
  }

  /** With check and record in one step neither limit is exceeded in any run. */
  lemma {:induction false} AtomicKeepsLimits(limits: Limits, calls: seq<(Event, int)>, parent: Text)
    requires ValidLimits(limits)
    ensures var s := AtomicRun(limits, calls);
            && Conserved(s)
            && s.activeConcurrent <= limits.maxConcurrent
            && Children(s, parent) <= limits.maxChildrenPerAgent
  {
    if calls != [] {
      var s := AtomicRun(limits, calls[..|calls| - 1]);
      var (e, childDepth) := calls[|calls| - 1];
      AtomicKeepsLimits(limits, calls[..|calls| - 1], parent);
      StepConserved(s, e);
      if e.Complete? {
        CompletedConserved(s, e.parent);
      }
    }
  }

  // ---- Check and record apart ----

  datatype OnExceeded = Warn | Stop | Error

  /** The middleware's answer: a refused check still allows the spawn when it only warns. */
  function Allowed(mode: OnExceeded, error: Option<SpawnError>): bool {
    error == None || mode == Warn
  }

  /** The guard together with the callers that were allowed and have not recorded yet. */
  datatype Gate = Gate(state: State, pending: multiset<Text>)

  datatype Action =
    | Checking(parent: Text, depth: int)
    | Recording(parent: Text)
    | Abandoning(parent: Text)
    | Completing(parent: Text)
    | Resetting

  /** A caller enters the gap when its check allows it; at most `k` callers are in the gap at a time. */
  predicate Enabled(limits: Limits, mode: OnExceeded, k: nat, g: Gate, a: Action) {
    match a
    case Checking(p, depth) => Allowed(mode, Check(limits, g.state, p, depth)) && |g.pending| < k
    case Recording(p) => p in g.pending
    case Abandoning(p) => p in g.pending
    case Completing(_) => true
    case Resetting => true
  }

  function Next(g: Gate, a: Action): Gate {
    match a
    case Checking(p, _) => g.(pending := g.pending + multiset{p})
    case Recording(p) => Gate(Spawned(g.state, p), g.pending - multiset{p})
    case Abandoning(p) => g.(pending := g.pending - multiset{p})
    case Completing(p) => g.(state := Completed(g.state, p))
    case Resetting => g.(state := FRESH)
  }

  function After(g: Gate, actions: seq<Action>): Gate
    decreases actions
  {
    if actions == [] then g else After(Next(g, actions[0]), actions[1..])
  }

  predicate Possible(limits: Limits, mode: OnExceeded, k: nat, g: Gate, actions: seq<Action>)
    decreases actions
  {
    || actions == []
    || (Enabled(limits, mode, k, g, actions[0]) && Possible(limits, mode, k, Next(g, actions[0]), actions[1..]))
  }

  const EMPTY: Gate := Gate(FRESH, multiset{})

  /** What holds after every step when limits are enforced. */
  ghost predicate Bounded(limits: Limits, k: nat, g: Gate) {
    && Conserved(g.state)
    && |g.pending| <= k
    && g.state.activeConcurrent + |g.pending| <= limits.maxConcurrent + k - 1
  }

  ghost predicate BoundedFor(limits: Limits, k: nat, g: Gate, parent: Text) {
    Children(g.state, parent) + g.pending[parent] <= limits.maxChildrenPerAgent + k - 1
  }

  lemma {:induction false} NextBounded(limits: Limits, mode: OnExceeded, k: nat, g: Gate, a: Action)
    requires ValidLimits(limits) && mode != Warn && k >= 1
    requires Bounded(limits, k, g) && Enabled(limits, mode, k, g, a)
    ensures Bounded(limits, k, Next(g, a))
  {
    match a
    case Checking(p, _) => assert |g.pending + multiset{p}| == |g.pending| + 1;
    case Recording(p) =>
      SpawnedConserved(g.state, p);
      assert |g.pending - multiset{p}| == |g.pending| - 1;
    case Abandoning(p) => assert |g.pending - multiset{p}| == |g.pending| - 1;
    case Completing(p) => CompletedConserved(g.state, p);
    case Resetting => TotalNonNegative(g.state.activeByParent);
  }

  lemma {:induction false} BoundedThroughout(limits: Limits, mode: OnExceeded, k: nat, g: Gate, actions: seq<Action>,
      parent: Text)
    requires ValidLimits(limits) && mode != Warn && k >= 1
    requires Bounded(limits, k, g) && BoundedFor(limits, k, g, parent) && Possible(limits, mode, k, g, actions)
    ensures Bounded(limits, k, After(g, actions)) && BoundedFor(limits, k, After(g, actions), parent)
    decreases actions
  {
    if actions != [] {
      NextBounded(limits, mode, k, g, actions[0]);
      BoundedThroughout(limits, mode, k, Next(g, actions[0]), actions[1..], parent);
    }
  }

  /**
   * With at most `k` callers between check and record, no run lets active and pending spawns exceed
   * the concurrency limit by more than k - 1, nor those of any parent its own limit.
   */
  lemma {:induction false} OvershootIsBounded(limits: Limits, mode: OnExceeded, k: nat, actions: seq<Action>,
      parent: Text)
    requires ValidLimits(limits) && mode != Warn && k >= 1 && Possible(limits, mode, k, EMPTY, actions)
    ensures var g := After(EMPTY, actions);
            && Conserved(g.state)
            && g.state.activeConcurrent + |g.pending| <= limits.maxConcurrent + k - 1
            && Children(g.state, parent) + g.pending[parent] <= limits.maxChildrenPerAgent + k - 1
  {
    BoundedThroughout(limits, mode, k, EMPTY, actions, parent);
  }

  // ---- The bound is reached, and warning removes it ----

  /** Callers of these parents, at the least depth, that all check. */
  function CheckAll(parents: seq<Text>): seq<Action> {
    if parents == [] then [] else [Checking(parents[0], 0)] + CheckAll(parents[1..])
  }

  function RecordAll(parents: seq<Text>): seq<Action> {
    if parents == [] then [] else [Recording(parents[0])] + RecordAll(parents[1..])
  }

  lemma {:induction false} PossibleConcat(limits: Limits, mode: OnExceeded, k: nat, g: Gate, a: seq<Action>,
      b: seq<Action>)
    requires Possible(limits, mode, k, g, a) && Possible(limits, mode, k, After(g, a), b)
    ensures Possible(limits, mode, k, g, a + b) && After(g, a + b) == After(After(g, a), b)
    decreases a
  {
    if a == [] {
      assert a + b == b;
    } else {
      assert (a + b)[1..] == a[1..] + b;
      PossibleConcat(limits, mode, k, Next(g, a[0]), a[1..], b);
    }
  }

  lemma {:induction false} CheckAllPossible(limits: Limits, mode: OnExceeded, k: nat, g: Gate, parents: seq<Text>)
    requires forall p | p in parents :: Allowed(mode, Check(limits, g.state, p, 0))
    requires |g.pending| + |parents| <= k
    ensures Possible(limits, mode, k, g, CheckAll(parents))
    ensures After(g, CheckAll(parents)) == Gate(g.state, g.pending + multiset(parents))
    decreases |parents|
  {
    if parents != [] {
      assert parents == [parents[0]] + parents[1..];
      assert CheckAll(parents)[1..] == CheckAll(parents[1..]);
      CheckAllPossible(limits, mode, k, Next(g, Checking(parents[0], 0)), parents[1..]);
    }
  }

  lemma {:induction false} RecordAllPossible(limits: Limits, mode: OnExceeded, k: nat, g: Gate, parents: seq<Text>,
      x: Text)
    requires g.pending == multiset(parents)
    ensures Possible(limits, mode, k, g, RecordAll(parents))
    ensures AllRecorded(g, After(g, RecordAll(parents)), parents, x)
    decreases |parents|
  {
    if parents != [] {
      var p, rest := parents[0], parents[1..];
      assert parents == [p] + rest;
      RecordOne(g, p, rest, x);
      RecordAllPossible(limits, mode, k, Next(g, Recording(p)), rest, x);
      assert RecordAll(parents)[1..] == RecordAll(rest);
    }
  }

  lemma {:induction false} RecordOne(g: Gate, p: Text, rest: seq<Text>, x: Text)
    requires g.pending == multiset([p] + rest)
    ensures var h := Next(g, Recording(p));
            && p in g.pending
            && h.pending == multiset(rest)
            && h.state.activeConcurrent == g.state.activeConcurrent + 1
            && Children(h.state, x) == Children(g.state, x) + if x == p then 1 else 0
  {
    assert multiset([p] + rest) == multiset{p} + multiset(rest);
  }

  predicate AllRecorded(g: Gate, h: Gate, parents: seq<Text>, x: Text) {
    && h.pending == multiset{}
    && h.state.activeConcurrent == g.state.activeConcurrent + |parents|
    && Children(h.state, x) == Children(g.state, x) + multiset(parents)[x]
  }

  /** A crowd that enters the gap together all spawn, if each of them would be allowed alone. */
  lemma {:induction false} CrowdSpawns(limits: Limits, mode: OnExceeded, k: nat, g: Gate, parents: seq<Text>, x: Text)
    requires g.pending == multiset{} && |parents| <= k
    requires forall p | p in parents :: Allowed(mode, Check(limits, g.state, p, 0))
    ensures Possible(limits, mode, k, g, CheckAll(parents) + RecordAll(parents))
    ensures AllRecorded(g, After(g, CheckAll(parents) + RecordAll(parents)), parents, x)
  {
    CheckAllPossible(limits, mode, k, g, parents);
    assert multiset{} + multiset(parents) == multiset(parents);
    RecordAllPossible(limits, mode, k, After(g, CheckAll(parents)), parents, x);
    PossibleConcat(limits, mode, k, g, CheckAll(parents), RecordAll(parents));
  }

  /** Callers of these parents one after the other. */
  function OneByOne(parents: seq<Text>): seq<Action> {
    if parents == [] then []
    else
      var before, last := parents[..|parents| - 1], parents[|parents| - 1..];
      OneByOne(before) + (CheckAll(last) + RecordAll(last))
  }

  lemma {:induction false} OneByOneSpawns(limits: Limits, mode: OnExceeded, k: nat, parents: seq<Text>, x: Text)
    requires ValidLimits(limits) && k >= 1
    requires mode == Warn ||
             (|parents| <= limits.maxConcurrent && forall p :: multiset(parents)[p] <= limits.maxChildrenPerAgent)
    ensures Possible(limits, mode, k, EMPTY, OneByOne(parents))
    ensures AllRecorded(EMPTY, After(EMPTY, OneByOne(parents)), parents, x)
    decreases |parents|
  {
    if parents != [] {
      var n := |parents| - 1;
      var before, last := parents[..n], parents[n..];
      LastOfParents(parents);
      OneByOneSpawns(limits, mode, k, before, parents[n]);
      OneByOneSpawns(limits, mode, k, before, x);
      CrowdSpawns(limits, mode, k, After(EMPTY, OneByOne(before)), last, x);
      PossibleConcat(limits, mode, k, EMPTY, OneByOne(before), CheckAll(last) + RecordAll(last));
    }
  }

  lemma {:induction false} LastOfParents(parents: seq<Text>)
    requires parents != []
    ensures var n := |parents| - 1;
            && parents[n..] == [parents[n]]
            && multiset(parents) == multiset(parents[..n]) + multiset{parents[n]}
            && forall p :: multiset(parents[..n])[p] <= multiset(parents)[p]
  {
    assert parents == parents[..|parents| - 1] + [parents[|parents| - 1]];
  }

  /** Callers one after the other, then a crowd that overlaps in the gap. */
  function Rush(first: seq<Text>, crowd: seq<Text>): seq<Action> {
    OneByOne(first) + (CheckAll(crowd) + RecordAll(crowd))
  }

  lemma {:induction false} RushSpawns(limits: Limits, mode: OnExceeded, k: nat, first: seq<Text>,
      crowd: seq<Text>, x: Text)
    requires ValidLimits(limits) && 1 <= k && |crowd| <= k && |first| < limits.maxConcurrent
    requires forall p :: multiset(first)[p] <= limits.maxChildrenPerAgent
    requires forall p | p in crowd :: multiset(first)[p] < limits.maxChildrenPerAgent
    ensures Possible(limits, mode, k, EMPTY, Rush(first, crowd))
    ensures AllRecorded(EMPTY, After(EMPTY, Rush(first, crowd)), first + crowd, x)
  {
    var g := After(EMPTY, OneByOne(first));
    OneByOneSpawns(limits, mode, k, first, x);
    forall p | p in crowd
      ensures Allowed(mode, Check(limits, g.state, p, 0))
    {
      OneByOneSpawns(limits, mode, k, first, p);
    }
    CrowdSpawns(limits, mode, k, g, crowd, x);
    PossibleConcat(limits, mode, k, EMPTY, OneByOne(first), CheckAll(crowd) + RecordAll(crowd));
    assert multiset(first + crowd) == multiset(first) + multiset(crowd);
  }

  /** `n` different parents, told apart by the length of their names. */
  function Strangers(n: nat): (r: seq<Text>)
    ensures |r| == n
    ensures forall p | p in r :: |p| < n
  {
    if n == 0 then [] else Strangers(n - 1) + [seq(n - 1, _ => 0)]
  }

  lemma {:induction false} StrangersDiffer(n: nat, p: Text)
    ensures multiset(Strangers(n))[p] <= 1
  {
    if n > 0 {
      StrangersDiffer(n - 1, p);
      assert seq(n - 1, _ => 0) !in Strangers(n - 1);
    }
  }

  /** `n` callers of one parent. */
  function Siblings(parent: Text, n: nat): (r: seq<Text>)
    ensures |r| == n && multiset(r) == multiset{}[parent := n]
  {
    if n == 0 then [] else Siblings(parent, n - 1) + [parent]
  }

  /** One parent with no child yet, called for by a crowd of `k`. */
  function Newcomers(limits: Limits, k: nat): seq<Text>
    requires limits.maxConcurrent >= 1
  {
    Siblings(seq(limits.maxConcurrent, _ => 0), k)
  }

  /** The bound is reached under all limits that allow a spawn at all: some run ends with k - 1 spawns too many. */
  lemma {:induction false} OvershootIsReached(limits: Limits, mode: OnExceeded, k: nat)
    requires ValidLimits(limits) && k >= 1 && limits.maxConcurrent >= 1 && limits.maxChildrenPerAgent >= 1
    ensures var actions := Rush(Strangers(limits.maxConcurrent - 1), Newcomers(limits, k));
            && Possible(limits, mode, k, EMPTY, actions)
            && After(EMPTY, actions).state.activeConcurrent == limits.maxConcurrent + k - 1
  {
    var first, crowd := Strangers(limits.maxConcurrent - 1), Newcomers(limits, k);
    forall p
      ensures multiset(first)[p] <= limits.maxChildrenPerAgent
    {
      StrangersDiffer(limits.maxConcurrent - 1, p);
    }
    forall p | p in crowd
      ensures multiset(first)[p] < limits.maxChildrenPerAgent
    {
      assert p in multiset(crowd);
      assert p !in first;
    }
    RushSpawns(limits, mode, k, first, crowd, []);
  }

  /** So is the bound of any parent: its own limit, or the one on all spawns if that is lower. */
  lemma {:induction false} ParentOvershootIsReached(limits: Limits, mode: OnExceeded, k: nat, parent: Text)
    requires ValidLimits(limits) && k >= 1 && limits.maxConcurrent >= 1 && limits.maxChildrenPerAgent >= 1
    ensures var most := Min(limits.maxChildrenPerAgent, limits.maxConcurrent);
            var actions := Rush(Siblings(parent, most - 1), Siblings(parent, k));
            && Possible(limits, mode, k, EMPTY, actions)
            && Children(After(EMPTY, actions).state, parent) == most + k - 1
  {
    var most := Min(limits.maxChildrenPerAgent, limits.maxConcurrent);
    var first, crowd := Siblings(parent, most - 1), Siblings(parent, k);
    RushSpawns(limits, mode, k, first, crowd, parent);
    assert multiset(first + crowd) == multiset(first) + multiset(crowd);
  }

  /** No run gets a spawn past a limit of zero, or when no caller may enter the gap. */
  lemma {:induction false} NothingSpawns(limits: Limits, mode: OnExceeded, k: nat, actions: seq<Action>)
    requires mode != Warn && (k == 0 || limits.maxConcurrent <= 0 || limits.maxChildrenPerAgent <= 0)
    requires Possible(limits, mode, k, EMPTY, actions)
    ensures After(EMPTY, actions) == EMPTY
    decreases actions
  {
    if actions != [] {
      assert Next(EMPTY, actions[0]) == EMPTY;
      NothingSpawns(limits, mode, k, actions[1..]);
    }
  }

  /** Some run has more active spawns than the limit. */
  ghost predicate CanExceed(limits: Limits, mode: OnExceeded, k: nat) {
    exists actions :: Possible(limits, mode, k, EMPTY, actions)
                      && After(EMPTY, actions).state.activeConcurrent > limits.maxConcurrent
  }

  /** The enforced limit can be exceeded exactly when it allows a spawn and two callers fit into the gap. */
  lemma {:induction false} ExceededIffGapHoldsTwo(limits: Limits, mode: OnExceeded, k: nat)
    requires ValidLimits(limits) && mode != Warn
    ensures CanExceed(limits, mode, k) <==> k >= 2 && limits.maxConcurrent >= 1 && limits.maxChildrenPerAgent >= 1
  {
    if k >= 2 && limits.maxConcurrent >= 1 && limits.maxChildrenPerAgent >= 1 {
      OvershootIsReached(limits, mode, k);
    } else {
      forall actions | Possible(limits, mode, k, EMPTY, actions)
        ensures After(EMPTY, actions).state.activeConcurrent <= limits.maxConcurrent
      {
        if k == 1 && limits.maxConcurrent >= 1 && limits.maxChildrenPerAgent >= 1 {
          OvershootIsBounded(limits, mode, k, actions, []);
        } else {
          NothingSpawns(limits, mode, k, actions);
        }
      }
    }
  }

  /** With warnings only, any callers one after the other spawn, whatever the limits are. */
  lemma {:induction false} WarningIsUnbounded(limits: Limits, parents: seq<Text>)
    requires ValidLimits(limits)
    ensures Possible(limits, Warn, 1, EMPTY, OneByOne(parents))
    ensures After(EMPTY, OneByOne(parents)).state.activeConcurrent == |parents|
  {
    OneByOneSpawns(limits, Warn, 1, parents, []);
  }
}
