/** Mail threading: message ids are mapped to threads through a bounded cache. */
module ThreadCache {
  import opened JsText
  import opened Wrappers
  import opened Recency

  datatype Mail = Mail(messageId: Text, inReplyTo: Option<Text>, references: seq<Text>)

  class Cache {
    var cache: Entries<Text, Text>
    const maxSize: int

    ghost predicate Valid()
      reads this
    {
      Fits(cache, maxSize)
    }

    constructor (maxSize: int)
      ensures Valid() && cache == [] && this.maxSize == maxSize
    {
      this.maxSize := maxSize;
      cache := [];
    }

    method Set(messageId: Text, threadId: Text)
      requires Valid()
      modifies this
      ensures Valid()
      ensures cache == Apply(old(cache), Store(messageId, threadId), maxSize)
      ensures StoredLast(old(cache), cache, messageId, threadId, maxSize)
    {
      StoreShape(cache, messageId, threadId, maxSize);
      ApplyFits(cache, Store(messageId, threadId), maxSize);
      FindIsMembership(cache, messageId);
      if Find(cache, messageId).Some? {
        cache := Remove(cache, messageId);
      }
      if |cache| >= maxSize {
        if cache != [] {
          cache := cache[1..];
        }
      }
      cache := cache + [(messageId, threadId)];
    }

    method GetThreadId(messageId: Text) returns (threadId: Option<Text>)
      requires Valid()
      modifies this
      ensures Valid()
      ensures cache == Apply(old(cache), Use(messageId), maxSize)
      ensures threadId == Find(old(cache), messageId)
      ensures if threadId.Some? then MovedLast(old(cache), cache, messageId) else cache == old(cache)
    {
      UseShape(cache, messageId, maxSize);
      FindIsMembership(cache, messageId);
      ApplyFits(cache, Use(messageId), maxSize);
      threadId := Find(cache, messageId);
      if threadId == None {
        return;
      }
      cache := Remove(cache, messageId);
      cache := cache + [(messageId, threadId.value)];
    }

    /**
     * The parent's thread if it is cached, else that of the latest cached reference; only the hit becomes most
     * recent.
     */
    method Resolve(inReplyTo: Option<Text>, references: seq<Text>) returns (threadId: Option<Text>)
      requires Valid()
      modifies this
      ensures Valid()
      ensures threadId == Thread(Contents(old(cache)), inReplyTo, references)
      ensures cache == Resolved(old(cache), inReplyTo, references, maxSize)
      ensures match Hit(Contents(old(cache)), inReplyTo, references)
              case Some(id) => MovedLast(old(cache), cache, id)
              case None => cache == old(cache)
    {
      ContentsFind(cache);
      if inReplyTo.Some? {
        threadId := GetThreadId(inReplyTo.value);
        if threadId.Some? {
          return;
        }
      }
      var i := |references|;
      assert references[..i] == references;
      while i > 0
        invariant 0 <= i <= |references|
        invariant Valid() && cache == old(cache)
        invariant Hit(Contents(old(cache)), inReplyTo, references) == Latest(Contents(old(cache)), references[..i])
      {
        i := i - 1;
        assert references[..i + 1] == references[..i] + [references[i]];
        threadId := GetThreadId(references[i]);
        if threadId.Some? {
          return;
        }
      }
      return None;
    }

    /** The thread of a delivered message, which is then remembered for it. */
    method ResolveThread(mail: Mail) returns (threadId: Text)
      requires Valid()
      modifies this
      ensures Valid()
      ensures threadId == ThreadOf(Contents(old(cache)), mail)
      ensures cache == Apply(Resolved(old(cache), mail.inReplyTo, mail.references, maxSize),
                             Store(mail.messageId, threadId), maxSize)
    {
      var existing := Resolve(mail.inReplyTo, mail.references);
      if existing.Some? {
        Set(mail.messageId, existing.value);
        return existing.value;
      }
      Set(mail.messageId, mail.messageId);
      return mail.messageId;
    }
  }

  // ---- The cache as a plain map ----

  function Contents(l: Entries<Text, Text>): map<Text, Text> {
    if l == [] then map[] else Contents(l[1..])[l[0].0 := l[0].1]
  }

  lemma {:induction false} ContentsAt(l: Entries<Text, Text>, k: Text)
    ensures Find(l, k) == if k in Contents(l) then Some(Contents(l)[k]) else None
    ensures Contents(l).Keys == KeySet(l)
  {
    if l != [] {
      ContentsAt(l[1..], k);
    }
  }

  lemma {:induction false} ContentsFind(l: Entries<Text, Text>)
    ensures forall k :: Find(l, k) == if k in Contents(l) then Some(Contents(l)[k]) else None
  {
    forall k ensures Find(l, k) == if k in Contents(l) then Some(Contents(l)[k]) else None {
      ContentsAt(l, k);
    }
  }

  /** The latest known reference. */
  function Latest(known: map<Text, Text>, references: seq<Text>): (id: Option<Text>)
    ensures id.Some? ==> id.value in known
  {
    if references == [] then None
    else
      var last := |references| - 1;
      if references[last] in known then Some(references[last]) else Latest(known, references[..last])
  }

  /** The message whose thread is taken over. */
  function Hit(known: map<Text, Text>, inReplyTo: Option<Text>, references: seq<Text>): (id: Option<Text>)
    ensures id.Some? ==> id.value in known
  {
    if inReplyTo.Some? && inReplyTo.value in known then inReplyTo else Latest(known, references)
  }

  function Thread(known: map<Text, Text>, inReplyTo: Option<Text>, references: seq<Text>): Option<Text> {
    match Hit(known, inReplyTo, references)
    case Some(id) => Some(known[id])
    case None => None
  }

  /** The cache after a resolution. */
  function Resolved(l: Entries<Text, Text>, inReplyTo: Option<Text>, references: seq<Text>,
      maxSize: int): Entries<Text, Text> {
    match Hit(Contents(l), inReplyTo, references)
    case Some(id) => Apply(l, Use(id), maxSize)
    case None => l
  }

  function ThreadOf(known: map<Text, Text>, mail: Mail): Text {
    match Thread(known, mail.inReplyTo, mail.references)
    case Some(t) => t
    case None => mail.messageId
  }

  lemma {:induction false} UseKeepsContents(l: Entries<Text, Text>, k: Text, capacity: int)
    requires DistinctKeys(l)
    ensures Contents(Apply(l, Use(k), capacity)) == Contents(l)
  {
    if Find(l, k).Some? {
      ContentsAt(l, k);
      FindIsMembership(l, k);
      TouchContents(l, k, Find(l, k).value);
    }
  }

  lemma {:induction false} TouchContents(l: Entries<Text, Text>, k: Text, v: Text)
    requires DistinctKeys(l)
    ensures Contents(Touch(l, k, v)) == Contents(l)[k := v]
  {
    var touched := Touch(l, k, v);
    RemoveParts(l, k);
    AppendParts(Remove(l, k), k, v);
    AppendSelf(Remove(l, k), k, v);
    ContentsAt(touched, k);
    ContentsAt(l, k);
    forall j | j in Contents(touched) ensures Contents(touched)[j] == Contents(l)[k := v][j] {
      ContentsAt(touched, j);
      ContentsAt(l, j);
      if j != k {
        RemoveOther(l, k, j);
        AppendOther(Remove(l, k), k, v, j);
      }
    }
  }

  /** While all distinct message ids fit, storing one never evicts another. */
  lemma {:induction false} StoreWithRoom(l: Entries<Text, Text>, k: Text, v: Text, capacity: int)
    requires Fits(l, capacity)
    ensures |Contents(l).Keys + {k}| <= capacity ==> Contents(Insert(l, k, v, capacity)) == Contents(l)[k := v]
  {
    ContentsAt(l, k);
    RemoveParts(l, k);
    KeySetSize(Remove(l, k));
    assert KeySet(l) + {k} == KeySet(Remove(l, k)) + {k};
    TouchContents(l, k, v);
  }

  /** Resolving reorders the cache but changes nothing that is known, and what is stored is added while all ids fit. */
  lemma {:induction false} ResolutionContents(l: Entries<Text, Text>, mail: Mail, maxSize: int)
    requires Fits(l, maxSize)
    ensures var resolved := Resolved(l, mail.inReplyTo, mail.references, maxSize);
            && Fits(resolved, maxSize) && Contents(resolved) == Contents(l)
            && (|Contents(l).Keys + {mail.messageId}| <= maxSize ==>
                  forall thread :: Contents(Apply(resolved, Store(mail.messageId, thread), maxSize))
                                   == Contents(l)[mail.messageId := thread])
  {
    var hit := Hit(Contents(l), mail.inReplyTo, mail.references);
    if hit.Some? {
      UseKeepsContents(l, hit.value, maxSize);
      ApplyFits(l, Use(hit.value), maxSize);
    }
    forall thread | |Contents(l).Keys + {mail.messageId}| <= maxSize
      ensures Contents(Apply(Resolved(l, mail.inReplyTo, mail.references, maxSize),
                             Store(mail.messageId, thread), maxSize))
              == Contents(l)[mail.messageId := thread]
    {
      StoreWithRoom(Resolved(l, mail.inReplyTo, mail.references, maxSize), mail.messageId, thread, maxSize);
    }
  }

  // ---- Whole deliveries ----

  /** What is known after the mails `mails`, starting from nothing. */
  function Known(mails: seq<Mail>): map<Text, Text> {
    if mails == [] then map[]
    else
      var last := |mails| - 1;
      var before := Known(mails[..last]);
      before[mails[last].messageId := ThreadOf(before, mails[last])]
  }

  ghost function Ids(mails: seq<Mail>): set<Text> {
    set i | 0 <= i < |mails| :: mails[i].messageId
  }

  lemma {:induction false} KnownIds(mails: seq<Mail>)
    ensures Known(mails).Keys == Ids(mails)
  {
    if mails != [] {
      var last := |mails| - 1;
      KnownIds(mails[..last]);
      forall x ensures x in Ids(mails) <==> x in Ids(mails[..last]) || x == mails[last].messageId {
        if x in Ids(mails[..last]) {
          var i :| 0 <= i < last && mails[..last][i].messageId == x;
          assert mails[i].messageId == x;
        }
        if x in Ids(mails) && x != mails[last].messageId {
          var i :| 0 <= i < |mails| && mails[i].messageId == x;
          assert mails[..last][i].messageId == x;
        }
      }
    }
  }

  /** One delivery through a cache that has room adds exactly what becomes known. */
  lemma {:induction false} DeliveryStep(l: Entries<Text, Text>, mails: seq<Mail>, i: nat, maxSize: int)
    requires i < |mails| && |Ids(mails)| <= maxSize
    requires Fits(l, maxSize) && Contents(l) == Known(mails[..i])
    ensures var mail, known := mails[i], Known(mails[..i]);
            Contents(Apply(Resolved(l, mail.inReplyTo, mail.references, maxSize),
                           Store(mail.messageId, ThreadOf(known, mail)), maxSize))
            == Known(mails[..i + 1])
  {
    assert mails[..i + 1][..i] == mails[..i];
    KnownIds(mails[..i]);
    KnownIds(mails[..i + 1]);
    SubsetSize(Ids(mails[..i + 1]), Ids(mails));
    ResolutionContents(l, mails[i], maxSize);
  }

  /** The thread of every message, given all that is known from the earlier ones. */
  function Threads(mails: seq<Mail>): (threads: seq<Text>)
    ensures |threads| == |mails|
  {
    if mails == [] then []
    else
      var before, last := mails[..|mails| - 1], mails[|mails| - 1];
      Threads(before) + [ThreadOf(Known(before), last)]
  }

  // ---- Deliveries through a cache of any size ----

  /** The store operations of one delivery: the use of the message found, and the storing of the thread. */
  function Mailing(l: Entries<Text, Text>, mail: Mail): seq<Op<Text, Text>> {
    (match Hit(Contents(l), mail.inReplyTo, mail.references) case Some(id) => [Use(id)] case None => [])
    + [Store(mail.messageId, ThreadOf(Contents(l), mail))]
  }

  function Operations(mails: seq<Mail>, maxSize: int): seq<Op<Text, Text>>
    decreases |mails|, 0
  {
    if mails == [] then []
    else
      var before, last := mails[..|mails| - 1], mails[|mails| - 1];
      Operations(before, maxSize) + Mailing(CacheAfter(before, maxSize), last)
  }

  function CacheAfter(mails: seq<Mail>, maxSize: int): Entries<Text, Text>
    decreases |mails|, 1
  {
    Run([], Operations(mails, maxSize), maxSize)
  }

  /** The thread of every message, as the cache decides it. */
  function Assigned(mails: seq<Mail>, maxSize: int): (threads: seq<Text>)
    ensures |threads| == |mails|
  {
    if mails == [] then []
    else
      var before, last := mails[..|mails| - 1], mails[|mails| - 1];
      Assigned(before, maxSize) + [ThreadOf(Contents(CacheAfter(before, maxSize)), last)]
  }

  lemma {:induction false} MailingResolves(l: Entries<Text, Text>, mail: Mail, maxSize: int)
    ensures Run(l, Mailing(l, mail), maxSize) ==
            Apply(Resolved(l, mail.inReplyTo, mail.references, maxSize),
                  Store(mail.messageId, ThreadOf(Contents(l), mail)), maxSize)
  {
    var store := Store(mail.messageId, ThreadOf(Contents(l), mail));
    var hit := Hit(Contents(l), mail.inReplyTo, mail.references);
    if hit.Some? {
      RunConcat(l, [Use(hit.value)], [store], maxSize);
      RunOne(l, Use(hit.value), maxSize);
    } else {
      assert Mailing(l, mail) == [store];
    }
    RunOne(Resolved(l, mail.inReplyTo, mail.references, maxSize), store, maxSize);
  }

  lemma {:induction false} CacheStep(mails: seq<Mail>, i: nat, maxSize: int)
    requires i < |mails|
    ensures var l, mail := CacheAfter(mails[..i], maxSize), mails[i];
            && Fits(l, maxSize)
            && CacheAfter(mails[..i + 1], maxSize) ==
               Apply(Resolved(l, mail.inReplyTo, mail.references, maxSize),
                     Store(mail.messageId, ThreadOf(Contents(l), mail)), maxSize)
            && Assigned(mails[..i + 1], maxSize) == Assigned(mails[..i], maxSize) + [ThreadOf(Contents(l), mail)]
  {
    var l, ops := CacheAfter(mails[..i], maxSize), Operations(mails[..i], maxSize);
    assert mails[..i + 1][..i] == mails[..i];
    RunFits([], ops, maxSize);
    RunConcat([], ops, Mailing(l, mails[i]), maxSize);
    MailingResolves(l, mails[i], maxSize);
  }

  /** The threads assigned to a whole delivery; while all ids fit they are those of an unbounded memory. */
  method DeliverAll(mails: seq<Mail>, maxSize: int) returns (threads: seq<Text>)
    ensures threads == Assigned(mails, maxSize)
    ensures |Ids(mails)| <= maxSize ==> threads == Threads(mails)
  {
    var cache := new Cache(maxSize);
    threads := [];
    for i := 0 to |mails|
      invariant cache.Valid() && cache.maxSize == maxSize && fresh(cache)
      invariant cache.cache == CacheAfter(mails[..i], maxSize) && threads == Assigned(mails[..i], maxSize)
    {
      CacheStep(mails, i, maxSize);
      var thread := cache.ResolveThread(mails[i]);
      threads := threads + [thread];
    }
    assert mails[..|mails|] == mails;
    if |Ids(mails)| <= maxSize {
      EnoughRoom(mails, |mails|, maxSize);
    }
  }

  /** While all ids fit, the bounded cache knows all that was ever known. */
  lemma {:induction false} EnoughRoom(mails: seq<Mail>, n: nat, maxSize: int)
    requires n <= |mails| && |Ids(mails)| <= maxSize
    ensures Contents(CacheAfter(mails[..n], maxSize)) == Known(mails[..n])
    ensures Assigned(mails[..n], maxSize) == Threads(mails[..n])
    decreases n
  {
    if n > 0 {
      EnoughRoom(mails, n - 1, maxSize);
      CacheStep(mails, n - 1, maxSize);
      DeliveryStep(CacheAfter(mails[..n - 1], maxSize), mails, n - 1, maxSize);
      assert mails[..n][..n - 1] == mails[..n - 1];
    }
  }

  /** No message id is delivered twice. */
  ghost predicate DeliveredOnce(mails: seq<Mail>) {
    forall i, j | 0 <= i < j < |mails| :: mails[i].messageId != mails[j].messageId
  }

  /** The thread of a message is decided when it is delivered. */
  lemma {:induction false} AssignedUpTo(mails: seq<Mail>, i: nat, n: nat, maxSize: int)
    requires i < n <= |mails|
    ensures Assigned(mails[..n], maxSize)[i] == Assigned(mails, maxSize)[i]
    decreases |mails|
  {
    var last := |mails| - 1;
    if n <= last {
      AssignedUpTo(mails[..last], i, n, maxSize);
      assert mails[..last][..n] == mails[..n];
    } else {
      assert mails[..n] == mails;
    }
  }

  /** What the cache holds for a message is its thread. */
  lemma {:induction false} HeldIsThread(mails: seq<Mail>, i: nat, maxSize: int)
    requires DeliveredOnce(mails) && i < |mails|
    ensures var held := Find(CacheAfter(mails, maxSize), mails[i].messageId);
            held == None || held == Some(Assigned(mails, maxSize)[i])
  {
    var last := |mails| - 1;
    var l, mail := CacheAfter(mails[..last], maxSize), mails[last];
    CacheStep(mails, last, maxSize);
    assert mails[..last + 1] == mails;
    ResolutionContents(l, mail, maxSize);
    var resolved := Resolved(l, mail.inReplyTo, mail.references, maxSize);
    InsertFinds(resolved, mail.messageId, ThreadOf(Contents(l), mail), maxSize, mails[i].messageId);
    if i < last {
      HeldIsThread(mails[..last], i, maxSize);
      ContentsAt(l, mails[i].messageId);
      ContentsAt(resolved, mails[i].messageId);
    }
  }

  /** The last operation that names the message id, or -1. */
  function LastNaming(ops: seq<Op<Text, Text>>, id: Text): (t: int)
    ensures -1 <= t < |ops|
    ensures t >= 0 ==> ops[t].key == id
    ensures forall u | t < u < |ops| :: ops[u].key != id
  {
    if ops == [] then -1
    else if ops[|ops| - 1].key == id then |ops| - 1
    else LastNaming(ops[..|ops| - 1], id)
  }

  /** The ids stored or used after a position of the operations. */
  ghost function OthersAfter(ops: seq<Op<Text, Text>>, t: nat, maxSize: int): set<Text>
    requires t < |ops|
  {
    Touched(Run([], ops[..t + 1], maxSize), ops[t + 1..], maxSize)
  }

  /** An operation that makes its key the most recent one. */
  ghost predicate Touching(l: Entries<Text, Text>, op: Op<Text, Text>) {
    op.Store? || (op.Use? && Find(l, op.key).Some?)
  }

  /** Deliveries only touch: they store, or use what is held. */
  lemma {:induction false} OperationsTouch(mails: seq<Mail>, t: nat, maxSize: int)
    requires t < |Operations(mails, maxSize)|
    ensures Touching(Run([], Operations(mails, maxSize)[..t], maxSize), Operations(mails, maxSize)[t])
  {
    var before, mail := mails[..|mails| - 1], mails[|mails| - 1];
    var l, ops := CacheAfter(before, maxSize), Operations(before, maxSize);
    var all := Operations(mails, maxSize);
    if t < |ops| {
      OperationsTouch(before, t, maxSize);
      assert all[..t] == ops[..t];
    } else if t == |ops| {
      assert all[..t] == ops && all[t] == Mailing(l, mail)[0];
      var hit := Hit(Contents(l), mail.inReplyTo, mail.references);
      if hit.Some? {
        ContentsAt(l, hit.value);
      }
    } else {
      assert all[t] == Mailing(l, mail)[1];
    }
  }

  lemma {:induction false} StoredOnce(mails: seq<Mail>, i: nat, maxSize: int)
    requires i < |mails|
    ensures exists t | 0 <= t < |Operations(mails, maxSize)| :: Operations(mails, maxSize)[t].key == mails[i].messageId
  {
    var last := |mails| - 1;
    var ops, all := Operations(mails[..last], maxSize), Operations(mails, maxSize);
    if i < last {
      StoredOnce(mails[..last], i, maxSize);
      var t :| 0 <= t < |ops| && ops[t].key == mails[i].messageId;
      assert all[t] == ops[t];
    } else {
      assert all[|all| - 1].key == mails[i].messageId;
    }
  }

  /**
   * A message's thread is held exactly while fewer than `maxSize` other ids have been stored or used since its own
   * id was for the last time.
   */
  lemma {:induction false} HeldIffFewOthers(mails: seq<Mail>, i: nat, maxSize: int)
    requires maxSize >= 1 && DeliveredOnce(mails) && i < |mails|
    ensures var ops, id := Operations(mails, maxSize), mails[i].messageId;
            var t := LastNaming(ops, id);
            && t >= 0
            && Find(CacheAfter(mails, maxSize), id) ==
               if |OthersAfter(ops, t, maxSize)| < maxSize then Some(Assigned(mails, maxSize)[i]) else None
  {
    var ops, id := Operations(mails, maxSize), mails[i].messageId;
    StoredOnce(mails, i, maxSize);
    HeldIsThread(mails, i, maxSize);
    var t := LastNaming(ops, id);
    var l := Run([], ops[..t], maxSize);
    RunFits([], ops[..t], maxSize);
    OperationsTouch(mails, t, maxSize);
    RunAround(ops, t, maxSize);
    forall u | t < u < |ops| ensures !ops[u].Drop? {
      OperationsTouch(mails, u, maxSize);
    }
    LastTouchDecides(l, ops[t], ops[t + 1..], maxSize);
  }

  lemma {:induction false} RunAround(ops: seq<Op<Text, Text>>, t: nat, maxSize: int)
    requires t < |ops|
    ensures var next := Apply(Run([], ops[..t], maxSize), ops[t], maxSize);
            Run([], ops[..t + 1], maxSize) == next && Run([], ops, maxSize) == Run(next, ops[t + 1..], maxSize)
  {
    assert ops[..t + 1] == ops[..t] + [ops[t]] && ops == ops[..t + 1] + ops[t + 1..];
    RunConcat([], ops[..t], [ops[t]], maxSize);
    RunOne(Run([], ops[..t], maxSize), ops[t], maxSize);
    RunConcat([], ops[..t + 1], ops[t + 1..], maxSize);
  }

  /** In a cache of any size, a reply gets its parent's thread while few others have been seen since the parent was. */
  lemma {:induction false} ReplyFindsRecentParent(mails: seq<Mail>, parent: nat, reply: nat, maxSize: int)
    requires maxSize >= 1 && DeliveredOnce(mails) && parent < reply < |mails|
    requires mails[reply].inReplyTo == Some(mails[parent].messageId)
    ensures var ops := Operations(mails[..reply], maxSize);
            var t := LastNaming(ops, mails[parent].messageId);
            t >= 0 &&
            (|OthersAfter(ops, t, maxSize)| < maxSize ==>
               Assigned(mails, maxSize)[reply] == Assigned(mails, maxSize)[parent])
  {
    HeldIffFewOthers(mails[..reply], parent, maxSize);
    AssignedUpTo(mails, parent, reply, maxSize);
    AssignedUpTo(mails, reply, reply + 1, maxSize);
    CacheStep(mails, reply, maxSize);
    ContentsAt(CacheAfter(mails[..reply], maxSize), mails[parent].messageId);
  }

  /** What is learned about a message stays known. */
  lemma {:induction false} KnownStays(mails: seq<Mail>, i: nat, n: nat)
    requires DeliveredOnce(mails) && i < n <= |mails|
    ensures mails[i].messageId in Known(mails[..n])
    ensures Known(mails[..n])[mails[i].messageId] == ThreadOf(Known(mails[..i]), mails[i])
    decreases n
  {
    assert mails[..n][..n - 1] == mails[..n - 1];
    if i < n - 1 {
      KnownStays(mails, i, n - 1);
    }
  }

  /** The thread that a delivery assigns to a message is decided by what the earlier messages made known. */
  lemma {:induction false} ThreadsAt(mails: seq<Mail>, i: nat)
    requires i < |mails|
    ensures Threads(mails)[i] == ThreadOf(Known(mails[..i]), mails[i])
  {
    var last := |mails| - 1;
    if last > 0 {
      ThreadsAt(mails[..last], if i < last then i else 0);
    }
    if i < last {
      assert mails[..last][..i] == mails[..i];
    }
  }

  /** An id that no message delivered before the mail at `n` has. */
  ghost predicate Unseen(mails: seq<Mail>, n: nat, id: Text)
    requires n <= |mails|
  {
    id !in Ids(mails[..n])
  }

  /** The mail answers nothing that was delivered before it. */
  ghost predicate StartsThread(mails: seq<Mail>, i: nat)
    requires i < |mails|
  {
    && (mails[i].inReplyTo.Some? ==> Unseen(mails, i, mails[i].inReplyTo.value))
    && (forall r | 0 <= r < |mails[i].references| :: Unseen(mails, i, mails[i].references[r]))
  }

  /** The id is a reference of the mail at `i`, and no later reference was delivered before the mail. */
  ghost predicate LatestSeen(mails: seq<Mail>, i: nat, id: Text)
    requires i < |mails|
  {
    exists r | 0 <= r < |mails[i].references| ::
      && mails[i].references[r] == id
      && forall s | r < s < |mails[i].references| :: Unseen(mails, i, mails[i].references[s])
  }

  /**
   * The later mail answers the earlier one: it is a reply to it, or it is a reply to nothing delivered before and
   * the earlier mail is the last of its references that was.
   */
  ghost predicate Answers(mails: seq<Mail>, reply: nat, parent: nat)
    requires parent < reply < |mails|
  {
    var mail, id := mails[reply], mails[parent].messageId;
    || mail.inReplyTo == Some(id)
    || ((mail.inReplyTo.Some? ==> Unseen(mails, reply, mail.inReplyTo.value)) && LatestSeen(mails, reply, id))
  }

  lemma {:induction false} LatestIs(known: map<Text, Text>, references: seq<Text>)
    ensures var latest := Latest(known, references);
            if latest.None? then forall r | 0 <= r < |references| :: references[r] !in known
            else exists r | 0 <= r < |references| ::
                   && references[r] == latest.value
                   && forall s | r < s < |references| :: references[s] !in known
  {
    if references != [] && references[|references| - 1] !in known {
      LatestIs(known, references[..|references| - 1]);
    }
  }

  /** The message whose thread is taken over is the one that the mail answers, if there is one. */
  lemma {:induction false} HitIsAnswered(mails: seq<Mail>, reply: nat, parent: nat)
    requires parent < reply < |mails|
    ensures var mail := mails[reply];
            Hit(Known(mails[..reply]), mail.inReplyTo, mail.references) == Some(mails[parent].messageId)
            <==> Answers(mails, reply, parent)
  {
    KnownIds(mails[..reply]);
    LatestIs(Known(mails[..reply]), mails[reply].references);
  }

  lemma {:induction false} NoHitStarts(mails: seq<Mail>, i: nat)
    requires i < |mails|
    ensures Thread(Known(mails[..i]), mails[i].inReplyTo, mails[i].references) == None <==> StartsThread(mails, i)
  {
    KnownIds(mails[..i]);
    LatestIs(Known(mails[..i]), mails[i].references);
  }

  /** A mail gets the thread of the mail that it answers. */
  lemma {:induction false} ReplyGetsParentThread(mails: seq<Mail>, parent: nat, reply: nat)
    requires DeliveredOnce(mails) && parent < reply < |mails| && Answers(mails, reply, parent)
    ensures Threads(mails)[reply] == Threads(mails)[parent]
  {
    HitIsAnswered(mails, reply, parent);
    KnownStays(mails, parent, reply);
    ThreadsAt(mails, parent);
    ThreadsAt(mails, reply);
  }

  /** Positions of a chain of replies, each answering the one before it. */
  ghost predicate ReplyChain(mails: seq<Mail>, chain: seq<nat>) {
    && chain != []
    && (forall c | 0 <= c < |chain| :: chain[c] < |mails|)
    && (forall c | 0 < c < |chain| :: chain[c - 1] < chain[c] && Answers(mails, chain[c], chain[c - 1]))
  }

  /** Every message of a chain carries its root's message id as thread. */
  lemma {:induction false} ChainCarriesRoot(mails: seq<Mail>, chain: seq<nat>, c: nat)
    requires DeliveredOnce(mails) && ReplyChain(mails, chain) && c < |chain| && StartsThread(mails, chain[0])
    ensures Threads(mails)[chain[c]] == mails[chain[0]].messageId
  {
    if c == 0 {
      NoHitStarts(mails, chain[0]);
      ThreadsAt(mails, chain[0]);
    } else {
      ChainCarriesRoot(mails, chain, c - 1);
      ReplyGetsParentThread(mails, chain[c - 1], chain[c]);
    }
  }

  /** A chain that leads from a mail that starts a thread to the mail at `i`. */
  ghost predicate LeadsTo(mails: seq<Mail>, chain: seq<nat>, i: nat) {
    ReplyChain(mails, chain) && StartsThread(mails, chain[0]) && chain[|chain| - 1] == i
  }

  /** A mail that does not start a thread answers an earlier mail. */
  lemma {:induction false} AnswersSome(mails: seq<Mail>, i: nat) returns (parent: nat)
    requires i < |mails| && !StartsThread(mails, i)
    ensures parent < i && Answers(mails, i, parent)
  {
    NoHitStarts(mails, i);
    KnownIds(mails[..i]);
    var id := Hit(Known(mails[..i]), mails[i].inReplyTo, mails[i].references).value;
    parent :| 0 <= parent < i && mails[..i][parent].messageId == id;
    HitIsAnswered(mails, i, parent);
  }

  /** Every mail of a delivery is led to by some chain. */
  lemma {:induction false} SomeChainLeads(mails: seq<Mail>, i: nat) returns (chain: seq<nat>)
    requires i < |mails|
    ensures LeadsTo(mails, chain, i)
  {
    if StartsThread(mails, i) {
      chain := [i];
    } else {
      var parent := AnswersSome(mails, i);
      var before := SomeChainLeads(mails, parent);
      chain := before + [i];
    }
  }

  /** Threads are the trees of answers: two mails share one exactly if chains from one root lead to both. */
  lemma {:induction false} SameThreadIffSameRoot(mails: seq<Mail>, i: nat, j: nat)
    requires DeliveredOnce(mails) && i < |mails| && j < |mails|
    ensures Threads(mails)[i] == Threads(mails)[j]
            <==> exists toI, toJ :: LeadsTo(mails, toI, i) && LeadsTo(mails, toJ, j) && toI[0] == toJ[0]
  {
    ThreadsAt(mails, i);
    ThreadsAt(mails, j);
    forall toI, toJ | LeadsTo(mails, toI, i) && LeadsTo(mails, toJ, j)
      ensures Threads(mails)[i] == Threads(mails)[j] <==> toI[0] == toJ[0]
    {
      ChainCarriesRoot(mails, toI, |toI| - 1);
      ChainCarriesRoot(mails, toJ, |toJ| - 1);
    }
    var toI := SomeChainLeads(mails, i);
    var toJ := SomeChainLeads(mails, j);
  }
}
