/**
 * The one-slot bridge between transcriptions and replies. A turn occupies the slot until a reply,
 * a rejection, its handler's failure or a timeout frees it; the call ends when its promise settles.
 */
module LlmBridge {
  import opened JsText
  import opened Wrappers

  datatype Failure = NoHandler | Concurrent | HandlerFailed | TimedOut | Refused

  datatype Promise = Unsettled | Resolved(text: Text) | Broken(why: Failure)

  /** Where the call of a turn is suspended, or how it ended. */
  datatype Phase = InHandler | Awaiting | Returned(text: Text) | Threw(why: Failure)

  datatype Turn = Turn(phase: Phase, promise: Promise, timerArmed: bool) {
    predicate Ended() { phase.Returned? || phase.Threw? }
  }

  /** `slot` is the turn whose response is pending. */
  datatype State = State(hasHandler: bool, slot: Option<nat>, turns: seq<Turn>)

  datatype Event =
    | SetHandler
    | Start
    | HandlerReturns(turn: nat)
    | HandlerThrows(turn: nat)
    | Provide(text: Text)
    | RejectPending
    | TimerFires(turn: nat)
    | PromiseResumes(turn: nat)

  const INITIAL: State := State(false, None, [])

  ghost predicate WellFormed(s: State) {
    s.slot.Some? ==> s.slot.value < |s.turns|
  }

  predicate Enabled(s: State, e: Event) {
    match e
    case HandlerReturns(t) => t < |s.turns| && s.turns[t].phase == InHandler
    case HandlerThrows(t) => t < |s.turns| && s.turns[t].phase == InHandler
    case TimerFires(t) => t < |s.turns| && s.turns[t].timerArmed
    case PromiseResumes(t) => t < |s.turns| && s.turns[t].phase == Awaiting && s.turns[t].promise != Unsettled
    case _ => true
  }

  /** Settles the pending response, whichever turn it belongs to, and frees the slot. */
  function SettlePending(s: State, promise: Promise): State
    requires WellFormed(s)
  {
    if s.slot.Some? then
      s.(slot := None, turns := s.turns[s.slot.value := s.turns[s.slot.value].(promise := promise)])
    else s
  }

  /** What a call that cannot start throws. */
  function StartError(s: State): Option<Failure> {
    if !s.hasHandler then Some(NoHandler) else if s.slot.Some? then Some(Concurrent) else None
  }

  function Step(s: State, e: Event): (r: State)
    requires WellFormed(s) && Enabled(s, e)
    ensures WellFormed(r) && |s.turns| <= |r.turns|
  {
    match e
    case SetHandler => s.(hasHandler := true)
    case Start =>
      if StartError(s).Some? then s
      else s.(slot := Some(|s.turns|), turns := s.turns + [Turn(InHandler, Unsettled, true)])
    case HandlerReturns(t) => s.(turns := s.turns[t := s.turns[t].(phase := Awaiting)])
    case HandlerThrows(t) =>
      var cleared := s.turns[t].(timerArmed := false);
      if s.slot == None then s.(turns := s.turns[t := cleared.(phase := Awaiting)])
      else s.(slot := None, turns := s.turns[t := cleared.(phase := Threw(HandlerFailed))])
    case Provide(text) => SettlePending(s, Resolved(text))
    case RejectPending => SettlePending(s, Broken(Refused))
    case TimerFires(t) =>
      SettlePending(s.(turns := s.turns[t := s.turns[t].(timerArmed := false)]), Broken(TimedOut))
    case PromiseResumes(t) =>
      var phase := match s.turns[t].promise case Resolved(text) => Returned(text) case Broken(why) => Threw(why);
      s.(turns := s.turns[t := s.turns[t].(phase := phase, timerArmed := false)])
  }

  /** Every turn there was is as it was, except these. */
  ghost predicate Untouched(before: seq<Turn>, after: seq<Turn>, changed: set<nat>) {
    |before| <= |after| && forall t | 0 <= t < |before| && t !in changed :: after[t] == before[t]
  }

  class Bridge {
    var hasHandler: bool
    var pendingResponse: Option<nat>
    var turns: seq<Turn>

    function View(): State
      reads this
    {
      State(hasHandler, pendingResponse, turns)
    }

    constructor ()
      ensures View() == INITIAL
    {
      hasHandler, pendingResponse, turns := false, None, [];
    }

    method SetMessageHandler()
      modifies this
      ensures View() == old(View()).(hasHandler := true)
    {
      hasHandler := true;
    }

    /** The call up to its handler's first suspension: it takes the slot and arms its timer. */
    method ProcessTranscription() returns (turn: Result<nat, Failure>)
      requires WellFormed(View())
      modifies this
      ensures View() == Step(old(View()), Start)
      ensures turn == match StartError(old(View()))
                      case Some(why) => Result.Failure(why)
                      case None => Success(|old(turns)|)
      ensures turn.Success? <==> old(hasHandler) && old(pendingResponse) == None
      ensures turn.Success? ==> pendingResponse == Some(turn.value) && turns[turn.value].timerArmed
      ensures Untouched(old(turns), turns, {})
    {
      if !hasHandler {
        return Result.Failure(NoHandler);
      }
      if pendingResponse.Some? {
        return Result.Failure(Concurrent);
      }
      var t := |turns|;
      turns := turns + [Turn(InHandler, Unsettled, true)];
      pendingResponse := Some(t);
      return Success(t);
    }

    method ProvideResponse(text: Text)
      requires WellFormed(View())
      modifies this
      ensures View() == Step(old(View()), Provide(text))
      ensures pendingResponse == None
      ensures match old(pendingResponse)
              case Some(t) => turns[t].promise == Resolved(text) && Untouched(old(turns), turns, {t})
              case None => turns == old(turns)
    {
      if pendingResponse == None {
        return;
      }
      var t := pendingResponse.value;
      pendingResponse := None;
      turns := turns[t := turns[t].(promise := Resolved(text))];
    }

    method Reject()
      requires WellFormed(View())
      modifies this
      ensures View() == Step(old(View()), RejectPending)
      ensures pendingResponse == None
      ensures match old(pendingResponse)
              case Some(t) => turns[t].promise == Broken(Refused) && Untouched(old(turns), turns, {t})
              case None => turns == old(turns)
    {
      if pendingResponse == None {
        return;
      }
      var t := pendingResponse.value;
      pendingResponse := None;
      turns := turns[t := turns[t].(promise := Broken(Refused))];
    }

    /** The timer of `turn` fires: it rejects whatever response is pending. */
    method OnTimeout(turn: nat)
      requires WellFormed(View()) && Enabled(View(), TimerFires(turn))
      modifies this
      ensures View() == Step(old(View()), TimerFires(turn))
      ensures pendingResponse == None && !turns[turn].timerArmed
      ensures match old(pendingResponse)
              case Some(t) => turns[t].promise == Broken(TimedOut) && Untouched(old(turns), turns, {turn, t})
              case None => Untouched(old(turns), turns, {turn})
    {
      turns := turns[turn := turns[turn].(timerArmed := false)];
      if pendingResponse.Some? {
        var t := pendingResponse.value;
        turns := turns[t := turns[t].(promise := Broken(TimedOut))];
        pendingResponse := None;
      }
    }

    /** The handler of `turn` finishes: a failure ends the call unless the slot was freed before. */
    method OnHandlerDone(turn: nat, failed: bool)
      requires WellFormed(View()) && Enabled(View(), HandlerReturns(turn))
      modifies this
      ensures View() == Step(old(View()), if failed then HandlerThrows(turn) else HandlerReturns(turn))
      ensures pendingResponse == if failed then None else old(pendingResponse)
      ensures turns[turn].Ended() <==> failed && old(pendingResponse).Some?
      ensures Untouched(old(turns), turns, {turn})
    {
      if !failed {
        turns := turns[turn := turns[turn].(phase := Awaiting)];
        return;
      }
      turns := turns[turn := turns[turn].(timerArmed := false)];
      if pendingResponse == None {
        turns := turns[turn := turns[turn].(phase := Awaiting)];
        return;
      }
      pendingResponse := None;
      turns := turns[turn := turns[turn].(phase := Threw(HandlerFailed))];
    }

    /** The settled promise of `turn` ends its call and clears its timer. */
    method OnPromiseSettled(turn: nat)
      requires WellFormed(View()) && Enabled(View(), PromiseResumes(turn))
      modifies this
      ensures View() == Step(old(View()), PromiseResumes(turn))
      ensures turns[turn].Ended() && !turns[turn].timerArmed
      ensures pendingResponse == old(pendingResponse) && Untouched(old(turns), turns, {turn})
    {
      var phase := match turns[turn].promise case Resolved(text) => Returned(text) case Broken(why) => Threw(why);
      turns := turns[turn := turns[turn].(phase := phase, timerArmed := false)];
    }
  }

  // ---- Which starts are safe ----

  /** The events by which a turn acts: its handler, its timer and the resumption of its call. */
  predicate ActsFor(e: Event, t: nat) {
    match e
    case HandlerReturns(u) => t == u
    case HandlerThrows(u) => t == u
    case TimerFires(u) => t == u
    case PromiseResumes(u) => t == u
    case _ => false
  }

  /** A turn that may still free a slot: its handler is running, or its timer is armed. */
  predicate MayFreeSlot(turn: Turn) {
    turn.timerArmed || turn.phase == InHandler
  }

  ghost predicate NoneMayFreeSlot(s: State) {
    forall t | 0 <= t < |s.turns| :: !MayFreeSlot(s.turns[t])
  }

  /** After a start, whatever an older turn can do leaves the slot to the new turn. */
  ghost predicate StartIsSafe(s: State)
    requires WellFormed(s) && StartError(s) == None
  {
    var started := Step(s, Start);
    forall t, e | 0 <= t < |s.turns| && ActsFor(e, t) && Enabled(started, e) ::
      Step(started, e).slot == Some(|s.turns|)
  }

  /** A start is safe from older turns exactly when none of their timers is armed and none of their handlers runs. */
  lemma {:induction false} StartIsSafeIff(s: State)
    requires WellFormed(s) && StartError(s) == None
    ensures StartIsSafe(s) <==> NoneMayFreeSlot(s)
  {
    var started := Step(s, Start);
    if t: nat :| t < |s.turns| && MayFreeSlot(s.turns[t]) {
      assert started.turns[t] == s.turns[t];
      if s.turns[t].timerArmed {
        assert ActsFor(TimerFires(t), t) && Step(started, TimerFires(t)).slot == None;
      } else {
        assert ActsFor(HandlerThrows(t), t) && Step(started, HandlerThrows(t)).slot == None;
      }
    }
  }

  // ---- Runs in which starts are safe ----

  /** A turn starts only when no older one may free its slot; when all calls have ended, for instance. */
  ghost predicate Safe(s: State, e: Event) {
    e == Start && StartError(s) == None ==> NoneMayFreeSlot(s)
  }

  ghost predicate Possible(events: seq<Event>)
    decreases |events|, 0
  {
    events == [] ||
    (var before := events[..|events| - 1];
     Possible(before) && Enabled(Run(before), events[|before|]) && Safe(Run(before), events[|before|]))
  }

  ghost function Run(events: seq<Event>): (s: State)
    requires Possible(events)
    ensures WellFormed(s)
    decreases |events|, 1
  {
    if events == [] then INITIAL
    else Step(Run(events[..|events| - 1]), events[|events| - 1])
  }

  /** The first text provided while the slot was open for turn `t`. */
  ghost function FirstText(events: seq<Event>, t: nat): Option<Text>
    requires Possible(events)
    decreases |events|
  {
    if events == [] then None
    else
      var before, e := events[..|events| - 1], events[|events| - 1];
      var earlier := FirstText(before, t);
      if earlier.Some? then earlier
      else if e.Provide? && Run(before).slot == Some(t) then Some(e.text)
      else None
  }

  /**
   * The slot is open for a call in progress exactly while nothing has settled it, and only the last
   * turn may free the slot; an ended call has given up its timer and returns what its promise says.
   */
  ghost predicate Tidy(s: State, t: nat)
    requires t < |s.turns|
  {
    var turn := s.turns[t];
    && (MayFreeSlot(turn) || s.slot == Some(t) ==> t == |s.turns| - 1)
    && (!turn.Ended() ==> (s.slot == Some(t) <==> turn.promise == Unsettled))
    && (!turn.Ended() && turn.promise == Unsettled ==> turn.timerArmed)
    && (turn.Ended() ==> s.slot != Some(t) && !turn.timerArmed)
    && (turn.phase.Returned? ==> turn.promise == Resolved(turn.phase.text))
    && (turn.phase.Threw? ==> !turn.promise.Resolved?)
  }

  lemma {:induction false} StepTidy(s: State, e: Event, t: nat)
    requires WellFormed(s) && Enabled(s, e) && Safe(s, e)
    requires forall u | 0 <= u < |s.turns| :: Tidy(s, u)
    requires t < |Step(s, e).turns|
    ensures Tidy(Step(s, e), t)
  {
    assert t < |s.turns| ==> Tidy(s, t);
    if s.slot.Some? {
      assert Tidy(s, s.slot.value);
    }
    if (e.HandlerReturns? || e.HandlerThrows? || e.TimerFires? || e.PromiseResumes?) {
      assert Tidy(s, e.turn);
    }
  }

  lemma {:induction false} RunTidy(events: seq<Event>)
    requires Possible(events)
    ensures forall t | 0 <= t < |Run(events).turns| :: Tidy(Run(events), t)
    decreases |events|
  {
    if events != [] {
      var before := events[..|events| - 1];
      RunTidy(before);
      forall t | 0 <= t < |Run(events).turns| ensures Tidy(Run(events), t) {
        StepTidy(Run(before), events[|before|], t);
      }
    }
  }

  /** A promise is resolved exactly with the first text provided while its slot was open. */
  lemma {:induction false} PromiseIsFirstText(events: seq<Event>, t: nat)
    requires Possible(events)
    ensures t >= |Run(events).turns| ==> FirstText(events, t) == None
    ensures t < |Run(events).turns| ==>
              (FirstText(events, t) == match Run(events).turns[t].promise case Resolved(x) => Some(x) case _ => None)
    decreases |events|
  {
    if events != [] {
      var before, e := events[..|events| - 1], events[|events| - 1];
      var s := Run(before);
      PromiseIsFirstText(before, t);
      RunTidy(before);
      if s.slot.Some? {
        assert Tidy(s, s.slot.value);
      }
    }
  }

  /**
   * In every run with safe starts a call that has ended returned the first text provided while its slot
   * was open, and threw if there was none; the slot is free of it and its timer can no longer act.
   */
  lemma {:induction false} CallReturnsFirstText(events: seq<Event>, t: nat)
    requires Possible(events) && t < |Run(events).turns| && Run(events).turns[t].Ended()
    ensures var turn := Run(events).turns[t];
            && (match FirstText(events, t)
                case Some(text) => turn.phase == Returned(text)
                case None => turn.phase.Threw?)
            && Run(events).slot != Some(t)
            && !Enabled(Run(events), TimerFires(t))
  {
    RunTidy(events);
    assert Tidy(Run(events), t);
    PromiseIsFirstText(events, t);
  }

  /** Between calls the slot is empty: the next call is never refused as concurrent. */
  lemma {:induction false} SlotEmptyBetweenCalls(events: seq<Event>)
    requires Possible(events) && forall t | 0 <= t < |Run(events).turns| :: Run(events).turns[t].Ended()
    ensures Run(events).slot == None
  {
    RunTidy(events);
    var s := Run(events);
    assert s.slot.Some? ==> Tidy(s, s.slot.value);
  }

  lemma {:induction false} OneMore(events: seq<Event>, e: Event)
    requires Possible(events) && Enabled(Run(events), e) && Safe(Run(events), e)
    ensures Possible(events + [e]) && Run(events + [e]) == Step(Run(events), e)
  {
    assert (events + [e])[..|events|] == events;
  }

  /** A call that waits for its promise after the slot was taken from it. */
  predicate Stranded(s: State, t: nat) {
    t < |s.turns| && s.turns[t].phase == Awaiting && s.turns[t].promise == Unsettled && s.slot != Some(t)
  }

  /** No turn is ever stranded, and a call in progress without a settled promise has its timer armed. */
  lemma {:induction false} NoneStranded(events: seq<Event>, t: nat)
    requires Possible(events) && t < |Run(events).turns|
    ensures !Stranded(Run(events), t)
    ensures var turn := Run(events).turns[t]; !turn.Ended() && turn.promise == Unsettled ==> turn.timerArmed
  {
    RunTidy(events);
    assert Tidy(Run(events), t);
  }

  function LeftToDo(turn: Turn): nat {
    if turn.Ended() then 0
    else 1 + (if turn.promise == Unsettled then 1 else 0) + if turn.phase == InHandler then 1 else 0
  }

  /** What a call in progress can do next, without any reply: its timer fires, its handler returns, or it resumes. */
  function NextFor(turn: Turn, t: nat): Event {
    if turn.promise == Unsettled then TimerFires(t)
    else if turn.phase == InHandler then HandlerReturns(t)
    else PromiseResumes(t)
  }

  lemma {:induction false} CanGoOn(events: seq<Event>, t: nat)
    requires Possible(events) && t < |Run(events).turns| && !Run(events).turns[t].Ended()
    ensures var s := Run(events);
            var e := NextFor(s.turns[t], t);
            && Enabled(s, e) && t < |Step(s, e).turns|
            && LeftToDo(Step(s, e).turns[t]) < LeftToDo(s.turns[t])
  {
    RunTidy(events);
    assert Tidy(Run(events), t);
  }

  /** With these further events, all safe, the call of turn `t` has ended. */
  ghost predicate EndsWith(events: seq<Event>, more: seq<Event>, t: nat) {
    Possible(events + more) && t < |Run(events + more).turns| && Run(events + more).turns[t].Ended()
  }

  lemma {:induction false} EndsSooner(events: seq<Event>, e: Event, rest: seq<Event>, t: nat)
    requires EndsWith(events + [e], rest, t)
    ensures EndsWith(events, [e] + rest, t)
  {
    assert events + ([e] + rest) == (events + [e]) + rest;
  }

  lemma {:induction false} EndedEnds(events: seq<Event>, t: nat)
    requires Possible(events) && t < |Run(events).turns| && Run(events).turns[t].Ended()
    ensures EndsWith(events, [], t)
  {
    assert events + [] == events;
  }

  /** From every moment of a run with safe starts each call can still end, by its own timer if by nothing else. */
  lemma {:induction false} EveryCallCanEnd(events: seq<Event>, t: nat) returns (more: seq<Event>)
    requires Possible(events) && t < |Run(events).turns|
    ensures EndsWith(events, more, t)
    decreases LeftToDo(Run(events).turns[t])
  {
    var turn := Run(events).turns[t];
    if turn.Ended() {
      EndedEnds(events, t);
      more := [];
    } else {
      var e := NextFor(turn, t);
      CanGoOn(events, t);
      OneMore(events, e);
      var rest := EveryCallCanEnd(events + [e], t);
      EndsSooner(events, e, rest, t);
      more := [e] + rest;
    }
  }

  /** Starting only after all earlier calls have ended is safe in every run. */
  lemma {:induction false} SequentialStartIsSafe(events: seq<Event>)
    requires Possible(events) && forall t | 0 <= t < |Run(events).turns| :: Run(events).turns[t].Ended()
    ensures NoneMayFreeSlot(Run(events))
  {
    RunTidy(events);
    forall t | 0 <= t < |Run(events).turns|
      ensures !MayFreeSlot(Run(events).turns[t])
    {
      assert Tidy(Run(events), t) && Run(events).turns[t].Ended();
    }
  }

  /**
   * After an unsafe start the guarantee fails: a turn answered before its handler is done leaves its
   * timer armed, and that timer rejects the response of the next turn.
   */
  lemma {:induction false} OldTimerHitsNextTurn(text: Text)
    ensures var s := State(true, None, []);
            var s1 := Step(s, Start);
            var s2 := Step(s1, Provide(text));
            var s3 := Step(s2, Start);
            && StartError(s2) == None && !StartIsSafe(s2)
            && Enabled(s3, TimerFires(0))
            && s3.turns[1].timerArmed
            && Step(s3, TimerFires(0)).turns[1].promise == Broken(TimedOut)
            && Step(s3, TimerFires(0)).turns[1].timerArmed
  {
    var s2 := Step(Step(State(true, None, []), Start), Provide(text));
    assert MayFreeSlot(s2.turns[0]);
    StartIsSafeIff(s2);
  }

  /** Events that may follow each other from `s`, whether their starts are safe or not. */
  predicate CanFollow(s: State, events: seq<Event>)
    requires WellFormed(s)
    decreases events
  {
    events == [] || (Enabled(s, events[0]) && CanFollow(Step(s, events[0]), events[1..]))
  }

  function After(s: State, events: seq<Event>): State
    requires WellFormed(s) && CanFollow(s, events)
    decreases events
  {
    if events == [] then s else After(Step(s, events[0]), events[1..])
  }

  /** Nothing ever ends a stranded call, not even its own timer. */
  lemma {:induction false} StrandedForever(s: State, events: seq<Event>, t: nat)
    requires WellFormed(s) && CanFollow(s, events) && Stranded(s, t)
    ensures Stranded(After(s, events), t)
    decreases events
  {
    if events != [] {
      StrandedForever(Step(s, events[0]), events[1..], t);
    }
  }

  /** The handler of an older turn that throws takes the slot from the next turn, whose call then never ends. */
  lemma {:induction false} OldHandlerStrandsNextTurn(text: Text)
    ensures var s := Step(Step(Step(State(true, None, []), Start), Provide(text)), Start);
            && Enabled(s, HandlerThrows(0)) && Enabled(Step(s, HandlerThrows(0)), HandlerReturns(1))
            && Stranded(Step(Step(s, HandlerThrows(0)), HandlerReturns(1)), 1)
  {
  }
}
