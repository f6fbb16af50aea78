/**
 * The single-consumer send queue. Code between two suspension points is one atomic step; a
 * suspended invocation of the queue processor is a frame, resumed by a timer or by the transport.
 */
module SendQueue {
  import opened TokenBucket

  datatype Outcome = Resolved | Rejected

  datatype Settled<M> = Settled(message: M, outcome: Outcome)

  /** A suspended invocation: sleeping since `read` for `waitTime`, or handing its message to the transport. */
  datatype Frame<M> = Waiting(message: M, read: int, waitTime: int) | Sending(message: M)

  function Messages<M>(settled: seq<Settled<M>>): (r: seq<M>)
  {
    seq(|settled|, i requires 0 <= i < |settled| => settled[i].message)
  }

  function InFlight<M>(frames: seq<Frame<M>>): (r: seq<M>)
  {
    seq(|frames|, i requires 0 <= i < |frames| => frames[i].message)
  }

  /** From the `from`-th one on, promises are only rejected, and only when there is no connection. */
  ghost predicate OnlyRefusals<M>(settled: seq<Settled<M>>, from: nat, connected: bool) {
    forall k | from <= k < |settled| :: !connected && settled[k].outcome == Rejected
  }

  lemma {:induction false} MessagesAppend<M>(settled: seq<Settled<M>>, s: Settled<M>)
    ensures Messages(settled + [s]) == Messages(settled) + [s.message]
  {
  }

  lemma {:induction false} InFlightOne<M>(f: Frame<M>)
    ensures InFlight([f]) == [f.message]
  {
  }

  class Clock {
    var now: int

    constructor ()
      ensures now == 0
    {
      now := 0;
    }

    /** Any reading that does not go back. */
    method Read() returns (t: int)
      modifies this
      ensures t == now && old(now) <= now
    {
      var later :| later >= now;
      now := later;
      t := later;
    }
  }

  class Queue<M> {
    const burstLimit: int
    const messageDelay: int
    const clock: Clock
    var sendQueue: seq<M>
    var processing: bool
    var lastSendTime: int
    var tokenBucket: Tokens
    var frames: seq<Frame<M>>

    // history: every message ever accepted, every promise settled, every send taken
    ghost var enqueued: seq<M>
    ghost var settled: seq<Settled<M>>
    ghost var sends: seq<Send>

    /** First in, first out, each message settled once: what was accepted is settled, in flight or queued, in order. */
    ghost predicate Conserved()
      reads this
    {
      enqueued == Messages(settled) + InFlight(frames) + sendQueue
    }

    ghost predicate Limited()
      reads this, clock
    {
      && burstLimit >= 1 && messageDelay >= 0
      && IsRun(sends, burstLimit, messageDelay)
      && lastSendTime == LastTime(sends) <= clock.now
    }

    /** Every settled message, and the one with the transport, has taken exactly one send from the limiter. */
    ghost predicate Charged()
      reads this
    {
      |sends| == |settled| + if frames != [] && frames[0].Sending? then 1 else 0
    }

    /** No invocation is running: between two steps. */
    ghost predicate Valid()
      reads this, clock
    {
      && Conserved() && Limited() && Charged()
      // at most one consumer, and the flag says whether there is one
      && |frames| == (if processing then 1 else 0)
      // no message is stranded
      && (sendQueue != [] ==> processing)
      && (if processing && frames[0].Waiting? then WaitingFrame(frames[0])
          else tokenBucket == BucketAfter(sends, burstLimit))
    }

    ghost predicate WaitingFrame(f: Frame<M>)
      requires f.Waiting?
      reads this, clock
    {
      && messageDelay <= f.waitTime <= 2 * messageDelay
      && lastSendTime <= f.read <= clock.now
      && tokenBucket == Refill(BucketAfter(sends, burstLimit), f.read - lastSendTime, burstLimit, messageDelay)
      && MustWait(tokenBucket)
    }

    /** The consumer is running: it holds the flag and no frame is suspended. */
    ghost predicate Running()
      reads this, clock
    {
      && Conserved() && Limited() && Charged()
      && processing && frames == [] && tokenBucket == BucketAfter(sends, burstLimit)
    }

    constructor (burstLimit: int, messageDelay: int)
      requires burstLimit >= 1 && messageDelay >= 0
      ensures Valid() && fresh(clock) && enqueued == [] && settled == [] && sends == []
      ensures this.burstLimit == burstLimit && this.messageDelay == messageDelay
    {
      this.burstLimit, this.messageDelay := burstLimit, messageDelay;
      clock := new Clock();
      sendQueue, processing, lastSendTime, tokenBucket, frames := [], false, 0, Count(burstLimit), [];
      enqueued, settled, sends := [], [], [];
    }

    /** What every step keeps of the past. */
    twostate predicate Extends()
      reads this
    {
      old(settled) <= settled && old(sends) <= sends
    }

    /** Accepting a message: it is queued last, and a consumer runs. */
    method DoSend(message: M, connected: bool)
      requires Valid()
      modifies this, clock
      ensures Valid() && Extends() && enqueued == old(enqueued) + [message]
      ensures OnlyRefusals(settled, |old(settled)|, connected)
      ensures old(processing) ==>
                sendQueue == old(sendQueue) + [message] && sends == old(sends) && settled == old(settled)
    {
      sendQueue := sendQueue + [message];
      enqueued := enqueued + [message];
      if processing {
        return;
      }
      processing := true;
      ProcessQueue(connected);
    }

    /** The consumer's loop, until the queue is empty or the invocation suspends. */
    method ProcessQueue(connected: bool)
      requires Running()
      modifies this, clock
      ensures Valid() && Extends() && enqueued == old(enqueued)
      ensures OnlyRefusals(settled, |old(settled)|, connected)
    {
      while sendQueue != []
        invariant Running() && Extends() && enqueued == old(enqueued)
        invariant OnlyRefusals(settled, |old(settled)|, connected)
        decreases |sendQueue|
      {
        var suspended := ProcessItem(connected);
        if suspended {
          return;
        }
      }
      processing := false;
    }

    /** One round of the loop: shift, refill, wait if the bucket is empty, else take. */
    method ProcessItem(connected: bool) returns (suspended: bool)
      requires Running() && sendQueue != []
      modifies this, clock
      ensures if suspended then Valid() else Running()
      ensures enqueued == old(enqueued) && sendQueue == old(sendQueue)[1..] && old(sends) <= sends
      ensures if suspended then settled == old(settled)
              else !connected && settled == old(settled) + [Settled(old(sendQueue[0]), Rejected)]
      // it sleeps exactly when the limiter has no room for a send at the moment of the refill
      ensures if suspended && frames[0].Waiting?
              then sends == old(sends) && !CanAdd(sends, 1, frames[0].read, burstLimit, messageDelay)
              else |sends| == |old(sends)| + 1
                   && CanAdd(old(sends), 1, sends[|old(sends)|].read, burstLimit, messageDelay)
    {
      var item := sendQueue[0];
      sendQueue := sendQueue[1..];
      assert old(sendQueue) == [item] + sendQueue;

      var now := clock.Read();
      WaitsIffNoRoom(sends, now, burstLimit, messageDelay);
      tokenBucket := Refill(tokenBucket, now - lastSendTime, burstLimit, messageDelay);
      if MustWait(tokenBucket) {
        var jitter: int :| 0 <= jitter <= messageDelay;
        frames := [Waiting(item, now, messageDelay + jitter)];
        InFlightOne(frames[0]);
        return true;
      }
      suspended := Take(item, now, connected);
    }

    /** Spends one token at the time of the send. */
    method Spend(ghost read: int)
      requires Limited() && ReadyToSpend(read)
      modifies `tokenBucket, `lastSendTime, `sends, clock
      ensures Limited() && tokenBucket == BucketAfter(sends, burstLimit)
      ensures |sends| == |old(sends)| + 1 && old(sends) <= sends && sends[|old(sends)|].read == read
    {
      tokenBucket := TakeOne(tokenBucket);
      lastSendTime := clock.Read();
      ghost var s := Send(read, lastSendTime, tokenBucket);
      sends := sends + [s];
    }

    /** The bucket has a token from the refill at `read`, or the wait it demanded is over. */
    ghost predicate ReadyToSpend(read: int)
      reads this, clock
    {
      var refilled := Refill(BucketAfter(sends, burstLimit), read - lastSendTime, burstLimit, messageDelay);
      && lastSendTime <= read <= clock.now
      && if MustWait(refilled) then read + messageDelay <= clock.now && tokenBucket == Count(1)
         else tokenBucket == refilled
    }

    /** Spends a token and hands the message to the transport, or rejects it when there is no connection. */
    method Take(item: M, ghost read: int, connected: bool) returns (suspended: bool)
      requires Limited() && processing && frames == [] && ReadyToSpend(read)
      requires enqueued == Messages(settled) + [item] + sendQueue && |sends| == |settled|
      modifies this, clock
      ensures suspended <==> connected
      ensures if connected then Valid() && processing && frames == [Sending(item)] && settled == old(settled)
              else Running() && settled == old(settled) + [Settled(item, Rejected)]
      ensures sendQueue == old(sendQueue) && enqueued == old(enqueued)
      ensures |sends| == |old(sends)| + 1 && old(sends) <= sends && sends[|old(sends)|].read == read
    {
      Spend(read);
      if !connected {
        MessagesAppend(settled, Settled(item, Rejected));
        settled := settled + [Settled(item, Rejected)];
        return false;
      }
      frames := [Sending(item)];
      InFlightOne(frames[0]);
      return true;
    }

    /** A sleeping consumer wakes, not before its time, and takes its message. */
    method TimerFires(i: nat, connected: bool)
      requires Valid() && i < |frames| && frames[i].Waiting?
      requires clock.now >= frames[i].read + frames[i].waitTime
      modifies this, clock
      ensures Valid() && Extends() && enqueued == old(enqueued) && |sends| > |old(sends)|
      ensures connected ==> frames == [Sending(old(frames[i].message))]
      ensures OnlyRefusals(settled, |old(settled)|, connected)
    {
      var frame := frames[i];
      InFlightOne(frame);
      frames := [];
      tokenBucket := Count(1);
      var suspended := Take(frame.message, frame.read, connected);
      if !suspended {
        ProcessQueue(connected);
      }
    }

    /** The transport finishes with the message in flight: exactly its promise is settled, then the consumer goes on. */
    method RenderSettles(i: nat, sent: bool, connected: bool)
      requires Valid() && i < |frames| && frames[i].Sending?
      modifies this, clock
      ensures Valid() && Extends() && enqueued == old(enqueued)
      ensures |settled| > |old(settled)|
      ensures settled[|old(settled)|] == Settled(old(frames[i].message), if sent then Resolved else Rejected)
      ensures OnlyRefusals(settled, |old(settled)| + 1, connected)
    {
      var frame := frames[i];
      InFlightOne(frame);
      MessagesAppend(settled, Settled(frame.message, if sent then Resolved else Rejected));
      frames := [];
      settled := settled + [Settled(frame.message, if sent then Resolved else Rejected)];
      ProcessQueue(connected);
    }

    /** The promise of the k-th accepted message is settled as the k-th one, and only then. */
    lemma SettledInOrder(k: nat)
      requires Valid() && k < |enqueued|
      ensures k < |settled| ==> settled[k].message == enqueued[k]
      ensures k >= |settled| ==> k - |settled| < |frames| + |sendQueue|
    {
    }

    /** The rate bound holds between any two sends made so far. */
    lemma RateBoundHolds(i: nat, j: nat)
      requires Valid() && messageDelay >= 1 && i <= j < |sends|
      ensures j - i + 1 <= burstLimit + (sends[j].at - sends[i].at) / messageDelay
    {
      RateBound(sends, i, j, burstLimit, messageDelay);
    }

    /** Between steps the bucket is never overdrawn nor overfull. */
    lemma BucketHolds()
      requires Valid() && messageDelay >= 1
      ensures tokenBucket.Count? && 0 <= tokenBucket.n <= burstLimit
    {
      BucketBounds(sends, |sends|, burstLimit, messageDelay);
      assert sends[..|sends|] == sends;
      if processing && frames[0].Waiting? {
        FloorMonotone(0, frames[0].read - lastSendTime, messageDelay);
      }
    }
  }
}
