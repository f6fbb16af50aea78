/**
 * Coalescing of concurrent webhook creations. A call that finds nothing starts a creation and is
 * suspended until its promise settles; calls meanwhile share the promise. A webhook is named by
 * the creation that delivered it.
 */
module WebhookManager {
  import opened JsText
  import opened Promises
  import opened Wrappers

  /** `creators` are the creations whose starting call has not resumed, with their channels. */
  datatype State = State(cache: map<Text, nat>, pending: map<Text, nat>, promises: seq<Promise>,
                         creators: map<nat, Text>)

  const EMPTY: State := State(map[], map[], [], map[])

  /** The atomic steps: code between two suspension points, and the settling of a creation from outside. */
  datatype Event =
    | Get(channel: Text)
    | Settle(promise: nat, outcome: Promise)
    | Resume(promise: nat)
    | Invalidate(channel: Text)
    | ClearAll

  predicate Enabled(s: State, e: Event) {
    match e
    case Settle(p, outcome) => p < |s.promises| && s.promises[p] == Unsettled && outcome != Unsettled
    case Resume(p) => p in s.creators && p < |s.promises| && s.promises[p] != Unsettled
    case _ => true
  }

  /** The creation a call for `channel` is answered from, if none has to be started. */
  function Current(s: State, channel: Text): Option<nat> {
    if channel in s.cache then Some(s.cache[channel])
    else if channel in s.pending then Some(s.pending[channel])
    else None
  }

  function Step(s: State, e: Event): State
    requires Enabled(s, e)
  {
    match e
    case Get(channel) =>
      if Current(s, channel).Some? then s
      else
        var p := |s.promises|;
        s.(pending := s.pending[channel := p],
           promises := s.promises + [Unsettled],
           creators := s.creators[p := channel])
    case Settle(p, outcome) => s.(promises := s.promises[p := outcome])
    case Resume(p) =>
      var channel := s.creators[p];
      var t := s.(creators := s.creators - {p}, pending := s.pending - {channel});
      if s.promises[p] == Fulfilled then t.(cache := s.cache[channel := p]) else t
    case Invalidate(channel) => s.(cache := s.cache - {channel})
    case ClearAll => s.(cache := map[], pending := map[])
  }

  /** Every other channel is answered from the same creation as before. */
  ghost predicate OthersKept(before: State, after: State, channel: Text) {
    forall c | c != channel :: Current(after, c) == Current(before, c)
  }

  class Manager {
    var cache: map<Text, nat>
    var pending: map<Text, nat>
    var promises: seq<Promise>
    var creators: map<nat, Text>

    function View(): State
      reads this
    {
      State(cache, pending, promises, creators)
    }

    constructor ()
      ensures View() == EMPTY && forall channel :: Coalesced(View(), channel)
    {
      cache, pending, promises, creators := map[], map[], [], map[];
    }

    /** Returns the creation whose webhook the caller gets, at once or when its promise settles. */
    method GetOrCreate(channel: Text) returns (creation: nat)
      modifies this
      ensures View() == Step(old(View()), Get(channel))
      ensures Current(View(), channel) == Some(creation)
      ensures var current := Current(old(View()), channel);
              creation == if current.Some? then current.value else |old(promises)|
      ensures OthersKept(old(View()), View(), channel)
    {
      if channel in cache {
        return cache[channel];
      }
      if channel in pending {
        return pending[channel];
      }
      creation := |promises|;
      promises := promises + [Unsettled];
      creators := creators[creation := channel];
      pending := pending[channel := creation];
    }

    /** The call that started a creation resumes: it caches the webhook or fails, and clears the pending entry. */
    method CreatorResumes(promise: nat) returns (ok: bool)
      requires Enabled(View(), Resume(promise))
      modifies this
      ensures View() == Step(old(View()), Resume(promise))
      ensures ok <==> old(promises[promise]) == Fulfilled
      ensures var channel := old(creators[promise]);
              && OthersKept(old(View()), View(), channel)
              && channel !in pending
              && if ok then Current(View(), channel) == Some(promise) else cache == old(cache)
    {
      var channel := creators[promise];
      creators := creators - {promise};
      ok := promises[promise] == Fulfilled;
      if ok {
        cache := cache[channel := promise];
      }
      pending := pending - {channel};
    }

    method SettleCreation(promise: nat, outcome: Promise)
      requires Enabled(View(), Settle(promise, outcome))
      modifies this
      ensures View() == Step(old(View()), Settle(promise, outcome))
      ensures cache == old(cache) && pending == old(pending)
    {
      promises := promises[promise := outcome];
    }

    method InvalidateChannel(channel: Text)
      modifies this
      ensures View() == Step(old(View()), Invalidate(channel))
      ensures channel !in cache && OthersKept(old(View()), View(), channel)
    {
      cache := cache - {channel};
    }

    method Clear()
      modifies this
      ensures View() == Step(old(View()), ClearAll)
      ensures forall channel :: Current(View(), channel) == None
    {
      cache, pending := map[], map[];
    }
  }

  // ---- Whole runs ----

  predicate Possible(s: State, events: seq<Event>)
    decreases events
  {
    events == [] || (Enabled(s, events[0]) && Possible(Step(s, events[0]), events[1..]))
  }

  function Run(s: State, events: seq<Event>): State
    requires Possible(s, events)
    decreases events
  {
    if events == [] then s else Run(Step(s, events[0]), events[1..])
  }

  ghost predicate InFlight(s: State, channel: Text) {
    exists p :: p in s.creators && s.creators[p] == channel
  }

  ghost predicate TwoInFlight(s: State, channel: Text) {
    exists p, q :: p in s.creators && q in s.creators && p != q && s.creators[p] == s.creators[q] == channel
  }

  /** Clearing happens only when the channel has no creation in flight. */
  ghost predicate CalmClears(s: State, events: seq<Event>, channel: Text)
    requires Possible(s, events)
    decreases events
  {
    events == [] ||
    (&& (events[0].ClearAll? ==> !InFlight(s, channel))
     && CalmClears(Step(s, events[0]), events[1..], channel))
  }

  /** The pending entry of a channel and its creations in flight are one and the same. */
  ghost predicate Coalesced(s: State, channel: Text) {
    && (channel in s.pending ==>
          && s.pending[channel] in s.creators
          && s.creators[s.pending[channel]] == channel
          && channel !in s.cache)
    && (forall p | p in s.creators && s.creators[p] == channel :: channel in s.pending && s.pending[channel] == p)
    && (forall p | p in s.creators :: p < |s.promises|)
  }

  lemma {:induction false} StepCoalesced(s: State, e: Event, channel: Text)
    requires Enabled(s, e) && Coalesced(s, channel) && (e.ClearAll? ==> !InFlight(s, channel))
    ensures Coalesced(Step(s, e), channel)
  {
  }

  /** In every run that clears only while the channel is idle, the channel has at most one creation in flight. */
  lemma {:induction false} OneCreationInFlight(s: State, events: seq<Event>, channel: Text)
    requires Coalesced(s, channel) && Possible(s, events) && CalmClears(s, events, channel)
    ensures Coalesced(Run(s, events), channel) && !TwoInFlight(Run(s, events), channel)
    decreases events
  {
    if events != [] {
      StepCoalesced(s, events[0], channel);
      OneCreationInFlight(Step(s, events[0]), events[1..], channel);
    }
  }

  /** Some run after clearing, calm from then on, has two creations of the channel in flight. */
  ghost predicate ClearMayDuplicate(s: State, channel: Text) {
    var cleared := Step(s, ClearAll);
    exists events :: Possible(cleared, events) && CalmClears(cleared, events, channel)
                     && TwoInFlight(Run(cleared, events), channel)
  }

  /** With a creation in flight, clearing and the next call leave two in flight. */
  lemma {:induction false} ClearThenGet(s: State, channel: Text)
    requires Coalesced(s, channel) && InFlight(s, channel)
    ensures var cleared := Step(s, ClearAll);
            && Possible(cleared, [Get(channel)]) && CalmClears(cleared, [Get(channel)], channel)
            && TwoInFlight(Run(cleared, [Get(channel)]), channel)
  {
    var cleared := Step(s, ClearAll);
    var after := Step(cleared, Get(channel));
    var p :| p in s.creators && s.creators[p] == channel;
    assert [Get(channel)][1..] == [];
    assert Possible(after, []) && CalmClears(after, [], channel) && Run(after, []) == after;
    assert p in after.creators && |s.promises| in after.creators && p != |s.promises|;
  }

  /** Clearing can lead to a duplicate creation exactly when the channel has a creation in flight. */
  lemma {:induction false} ClearIsSafeIffIdle(s: State, channel: Text)
    requires Coalesced(s, channel)
    ensures ClearMayDuplicate(s, channel) <==> InFlight(s, channel)
  {
    var cleared := Step(s, ClearAll);
    if InFlight(s, channel) {
      ClearThenGet(s, channel);
    } else {
      forall events | Possible(cleared, events) && CalmClears(cleared, events, channel)
        ensures !TwoInFlight(Run(cleared, events), channel)
      {
        OneCreationInFlight(cleared, events, channel);
      }
    }
  }

  /** From nothing: a call, a clear and a call leave two creations in flight. */
  lemma {:induction false} ClearDuplicates(channel: Text)
    ensures TwoInFlight(Step(Step(Step(EMPTY, Get(channel)), ClearAll), Get(channel)), channel)
  {
    var s := Step(Step(Step(EMPTY, Get(channel)), ClearAll), Get(channel));
    assert 0 in s.creators && s.creators[0] == channel && 1 in s.creators && s.creators[1] == channel;
  }

  /** A step that gives up the channel's webhook: an invalidation, a clear or a failed creation. */
  predicate Breaks(s: State, e: Event, channel: Text)
    requires Enabled(s, e)
  {
    match e
    case Invalidate(c) => c == channel
    case ClearAll => true
    case Resume(p) => s.creators[p] == channel && s.promises[p] != Fulfilled
    case _ => false
  }

  predicate Starts(s: State, e: Event, channel: Text) {
    e == Get(channel) && Current(s, channel) == None
  }

  function BreakCount(s: State, events: seq<Event>, channel: Text): nat
    requires Possible(s, events)
    decreases events
  {
    if events == [] then 0
    else (if Breaks(s, events[0], channel) then 1 else 0) + BreakCount(Step(s, events[0]), events[1..], channel)
  }

  function StartCount(s: State, events: seq<Event>, channel: Text): nat
    requires Possible(s, events)
    decreases events
  {
    if events == [] then 0
    else (if Starts(s, events[0], channel) then 1 else 0) + StartCount(Step(s, events[0]), events[1..], channel)
  }

  /** In every run the creations started number at most one more than the failures and invalidations. */
  lemma {:induction false} StartsBounded(s: State, events: seq<Event>, channel: Text)
    requires Coalesced(s, channel) && Possible(s, events) && CalmClears(s, events, channel)
    ensures StartCount(s, events, channel) + (if Current(s, channel).Some? then 1 else 0)
            <= 1 + BreakCount(s, events, channel)
    decreases events
  {
    if events != [] {
      var next := Step(s, events[0]);
      StartsBounded(next, events[1..], channel);
      assert Current(s, channel).Some? && !Breaks(s, events[0], channel) ==> Current(next, channel).Some?;
    }
  }

  /** All calls between two failures or invalidations are answered from the same creation. */
  lemma {:induction false} CallersShare(s: State, events: seq<Event>, channel: Text)
    requires Coalesced(s, channel) && Possible(s, events)
    requires Current(s, channel).Some? && BreakCount(s, events, channel) == 0
    ensures Current(Run(s, events), channel) == Current(s, channel)
    ensures StartCount(s, events, channel) == 0
    decreases events
  {
    if events != [] {
      CallersShare(Step(s, events[0]), events[1..], channel);
    }
  }
}
