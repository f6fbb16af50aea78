/** The time-limited, size-limited cache of agent cards, kept in insertion order. */
module AgentCardCache {
  import opened JsText
  import opened Wrappers
  import opened Recency

  datatype CacheEntry<Card> = CacheEntry(card: Card, expiresAt: int)

  /** What a lookup at time `now` does to the cache: it refreshes a live entry and deletes an expired one. */
  function Lookup<Card>(entries: Entries<Text, CacheEntry<Card>>, url: Text, now: int): Op<Text,
      CacheEntry<Card>> {
    var entry := Find(entries, url);
    if entry.Some? && now >= entry.value.expiresAt then Drop(url) else Use(url)
  }

  /** The card that a lookup at time `now` finds: one that is held and whose time is not up. */
  function Returned<Card>(entries: Entries<Text, CacheEntry<Card>>, url: Text, now: int): Option<Card> {
    match Find(entries, url)
    case Some(entry) => if now < entry.expiresAt then Some(entry.card) else None
    case None => None
  }

  /** A lookup moves a live entry to the end, takes out an expired one, and else changes nothing. */
  lemma {:induction false} LookupShape<Card>(entries: Entries<Text, CacheEntry<Card>>, url: Text, now: int,
      maxEntries: int)
    requires DistinctKeys(entries)
    ensures var after := Apply(entries, Lookup(entries, url, now), maxEntries);
            match Find(entries, url)
            case None => after == entries
            case Some(entry) =>
              if now < entry.expiresAt then MovedLast(entries, after, url)
              else Dropped(entries, after, url) && url !in KeySet(after)
  {
    FindIsMembership(entries, url);
    UseShape(entries, url, maxEntries);
    DropShape(entries, url, maxEntries);
    RemoveParts(entries, url);
  }

  class Cache<Card(==)> {
    var entries: Entries<Text, CacheEntry<Card>>
    const ttlMs: int
    const maxEntries: int

    ghost predicate Valid()
      reads this
    {
      Fits(entries, maxEntries)
    }

    constructor (ttlMs: int, maxEntries: int)
      ensures Valid() && entries == [] && this.ttlMs == ttlMs && this.maxEntries == maxEntries
    {
      this.ttlMs, this.maxEntries := ttlMs, maxEntries;
      entries := [];
    }

    /** A hit before its expiry returns the card and makes it the most recent entry. */
    method Get(url: Text, now: int) returns (card: Option<Card>)
      requires Valid()
      modifies this
      ensures Valid()
      ensures entries == Apply(old(entries), Lookup(old(entries), url, now), maxEntries)
      ensures card == Returned(old(entries), url, now)
      ensures match Find(old(entries), url)
              case None => entries == old(entries) && card == None
              case Some(entry) =>
                if now < entry.expiresAt then MovedLast(old(entries), entries, url) && card == Some(entry.card)
                else Dropped(old(entries), entries, url) && url !in KeySet(entries) && card == None
    {
      LookupShape(entries, url, now, maxEntries);
      ApplyFits(entries, Lookup(entries, url, now), maxEntries);
      var entry := Find(entries, url);
      if entry == None {
        return None;
      }
      if now >= entry.value.expiresAt {
        entries := Remove(entries, url);
        return None;
      }
      // delete and insert again: a map keeps the order of insertion
      entries := Remove(entries, url);
      entries := entries + [(url, entry.value)];
      return Some(entry.value.card);
    }

    /** Stores a card as the most recent entry, evicting the least recent one of a full cache. */
    method Set(url: Text, card: Card, now: int)
      requires Valid()
      modifies this
      ensures Valid()
      ensures entries == Apply(old(entries), Store(url, CacheEntry(card, now + ttlMs)), maxEntries)
      ensures StoredLast(old(entries), entries, url, CacheEntry(card, now + ttlMs), maxEntries)
    {
      StoreShape(entries, url, CacheEntry(card, now + ttlMs), maxEntries);
      ApplyFits(entries, Store(url, CacheEntry(card, now + ttlMs)), maxEntries);
      entries := Remove(entries, url);
      if |entries| >= maxEntries {
        if entries != [] {
          var oldestKey := entries[0].0;
          entries := Remove(entries, oldestKey);
        }
      }
      entries := entries + [(url, CacheEntry(card, now + ttlMs))];
    }

    method Delete(url: Text) returns (found: bool)
      requires Valid()
      modifies this
      ensures Valid()
      ensures found <==> url in KeySet(old(entries))
      ensures entries == Apply(old(entries), Drop(url), maxEntries) && Without(old(entries), entries, url)
    {
      DropShape(entries, url, maxEntries);
      ApplyFits(entries, Drop(url), maxEntries);
      FindIsMembership(entries, url);
      found := Find(entries, url).Some?;
      entries := Remove(entries, url);
    }

    method Clear()
      modifies this
      ensures Valid() && entries == []
    {
      entries := [];
    }

    method Has(url: Text, now: int) returns (has: bool)
      requires Valid()
      modifies this
      ensures Valid()
      ensures entries == Apply(old(entries), Lookup(old(entries), url, now), maxEntries)
      ensures has <==> Returned(old(entries), url, now).Some?
      ensures match Find(old(entries), url)
              case None => entries == old(entries) && !has
              case Some(entry) =>
                if now < entry.expiresAt then MovedLast(old(entries), entries, url) && has
                else Dropped(old(entries), entries, url) && url !in KeySet(entries) && !has
    {
      var card := Get(url, now);
      has := card.Some?;
    }
  }

  /** A call on the cache at a moment of time; a test for presence is a lookup. */
  datatype Call<Card> =
    | GetCall(url: Text, now: int)
    | SetCall(url: Text, card: Card, now: int)
    | DeleteCall(url: Text)
    | ClearCall

  ghost function OpOf<Card>(entries: Entries<Text, CacheEntry<Card>>, call: Call<Card>, ttlMs: int)
    : Op<Text, CacheEntry<Card>>
    requires !call.ClearCall?
  {
    match call
    case GetCall(url, now) => Lookup(entries, url, now)
    case SetCall(url, card, now) => Store(url, CacheEntry(card, now + ttlMs))
    case DeleteCall(url) => Drop(url)
  }

  ghost function AfterCall<Card>(entries: Entries<Text, CacheEntry<Card>>, call: Call<Card>, ttlMs: int,
      maxEntries: int): Entries<Text, CacheEntry<Card>> {
    if call.ClearCall? then [] else Apply(entries, OpOf(entries, call, ttlMs), maxEntries)
  }

  ghost function AfterCalls<Card>(entries: Entries<Text, CacheEntry<Card>>, calls: seq<Call<Card>>, ttlMs: int,
      maxEntries: int): Entries<Text, CacheEntry<Card>>
    decreases calls
  {
    if calls == [] then entries
    else AfterCalls(AfterCall(entries, calls[0], ttlMs, maxEntries), calls[1..], ttlMs, maxEntries)
  }

  predicate Clears<Card>(calls: seq<Call<Card>>) {
    exists i | 0 <= i < |calls| :: calls[i].ClearCall?
  }

  /** The store operations that a sequence of calls performs. */
  ghost function OpsOf<Card>(entries: Entries<Text, CacheEntry<Card>>, calls: seq<Call<Card>>, ttlMs: int,
      maxEntries: int)
    : (ops: seq<Op<Text, CacheEntry<Card>>>)
    requires !Clears(calls)
    ensures |ops| == |calls| && forall i | 0 <= i < |calls| :: ops[i].key == calls[i].url
    ensures Run(entries, ops, maxEntries) == AfterCalls(entries, calls, ttlMs, maxEntries)
    decreases calls
  {
    if calls == [] then []
    else
      var op := OpOf(entries, calls[0], ttlMs);
      var rest := OpsOf(Apply(entries, op, maxEntries), calls[1..], ttlMs, maxEntries);
      assert ([op] + rest)[1..] == rest;
      [op] + rest
  }

  /** None of the calls names the url. */
  ghost predicate LeavesAlone<Card>(calls: seq<Call<Card>>, url: Text) {
    forall i | 0 <= i < |calls| :: calls[i].ClearCall? || calls[i].url != url
  }

  lemma {:induction false} AfterCallFits<Card>(entries: Entries<Text, CacheEntry<Card>>, call: Call<Card>, ttlMs: int,
      maxEntries: int, url: Text)
    requires Fits(entries, maxEntries)
    ensures Fits(AfterCall(entries, call, ttlMs, maxEntries), maxEntries)
    ensures !call.ClearCall? && call.url != url && url !in KeySet(entries) ==>
              url !in KeySet(AfterCall(entries, call, ttlMs, maxEntries))
  {
    if !call.ClearCall? {
      var op := OpOf(entries, call, ttlMs);
      ApplyFits(entries, op, maxEntries);
      if call.url != url && url !in KeySet(entries) {
        GoneStaysGone(entries, [op], maxEntries, url);
        FindIsMembership(Apply(entries, op, maxEntries), url);
      }
    }
  }

  /** What is not held is not found after calls on other urls. */
  lemma {:induction false} NotFoundUnlessStored<Card>(entries: Entries<Text, CacheEntry<Card>>, url: Text,
      calls: seq<Call<Card>>, ttlMs: int, maxEntries: int)
    requires Fits(entries, maxEntries) && url !in KeySet(entries) && LeavesAlone(calls, url)
    ensures Find(AfterCalls(entries, calls, ttlMs, maxEntries), url) == None
    decreases calls
  {
    FindIsMembership(entries, url);
    if calls != [] {
      AfterCallFits(entries, calls[0], ttlMs, maxEntries, url);
      NotFoundUnlessStored(AfterCall(entries, calls[0], ttlMs, maxEntries), url, calls[1..], ttlMs, maxEntries);
    }
  }

  lemma {:induction false} ClearForgets<Card>(entries: Entries<Text, CacheEntry<Card>>, url: Text,
      calls: seq<Call<Card>>, ttlMs: int, maxEntries: int)
    requires Fits(entries, maxEntries) && LeavesAlone(calls, url) && Clears(calls)
    ensures Find(AfterCalls(entries, calls, ttlMs, maxEntries), url) == None
    decreases calls
  {
    var next := AfterCall(entries, calls[0], ttlMs, maxEntries);
    AfterCallFits(entries, calls[0], ttlMs, maxEntries, url);
    if calls[0].ClearCall? {
      NotFoundUnlessStored(next, url, calls[1..], ttlMs, maxEntries);
    } else {
      ClearForgets(next, url, calls[1..], ttlMs, maxEntries);
    }
  }

  /** A call that makes its url the most recent one: a store, or a lookup that finds a card. */
  ghost predicate Refreshes<Card>(entries: Entries<Text, CacheEntry<Card>>, call: Call<Card>) {
    call.SetCall? || (call.GetCall? && Returned(entries, call.url, call.now).Some?)
  }

  /** The urls stored, or looked up and found, by a sequence of calls. */
  ghost function Renewed<Card>(entries: Entries<Text, CacheEntry<Card>>, calls: seq<Call<Card>>, ttlMs: int,
      maxEntries: int): set<Text>
    decreases calls
  {
    if calls == [] then {}
    else
      var rest := Renewed(AfterCall(entries, calls[0], ttlMs, maxEntries), calls[1..], ttlMs, maxEntries);
      if Refreshes(entries, calls[0]) then rest + {calls[0].url} else rest
  }

  /** Some call deletes a url, or looks up one whose time is up. */
  ghost predicate Removes<Card>(entries: Entries<Text, CacheEntry<Card>>, calls: seq<Call<Card>>, ttlMs: int,
      maxEntries: int)
    decreases calls
  {
    calls != [] &&
    (|| calls[0].DeleteCall?
     || (calls[0].GetCall? && Find(entries, calls[0].url).Some?
         && calls[0].now >= Find(entries, calls[0].url).value.expiresAt)
     || Removes(AfterCall(entries, calls[0], ttlMs, maxEntries), calls[1..], ttlMs, maxEntries))
  }

  lemma {:induction false} RenewedIsTouched<Card>(entries: Entries<Text, CacheEntry<Card>>, calls: seq<Call<Card>>,
      ttlMs: int, maxEntries: int)
    requires !Clears(calls)
    ensures var ops := OpsOf(entries, calls, ttlMs, maxEntries);
            && Touched(entries, ops, maxEntries) == Renewed(entries, calls, ttlMs, maxEntries)
            && ((forall i | 0 <= i < |ops| :: !ops[i].Drop?) <==> !Removes(entries, calls, ttlMs, maxEntries))
    decreases calls
  {
    if calls != [] {
      var op, next := OpOf(entries, calls[0], ttlMs), AfterCall(entries, calls[0], ttlMs, maxEntries);
      var ops, rest := OpsOf(entries, calls, ttlMs, maxEntries), OpsOf(next, calls[1..], ttlMs, maxEntries);
      RenewedIsTouched(next, calls[1..], ttlMs, maxEntries);
      assert ops[0] == op && ops[1..] == rest;
      assert forall i | 0 < i < |ops| :: ops[i] == rest[i - 1];
      assert forall i | 0 <= i < |rest| :: rest[i] == ops[i + 1];
    }
  }

  /**
   * What the next lookup of a url returns, after calls on other urls: nothing if the cache was cleared; else the
   * card, until its time is up, as long as fewer than `maxEntries` others were stored or found meanwhile; nothing
   * if that many were and none was removed. A lookup does not renew the expiry, and one that finds nothing does
   * not count.
   */
  lemma {:induction false} NextGetReturns<Card>(entries: Entries<Text, CacheEntry<Card>>, last: Call<Card>,
      calls: seq<Call<Card>>, now: int, ttlMs: int, maxEntries: int)
    requires maxEntries >= 1 && Fits(entries, maxEntries) && Refreshes(entries, last)
    requires LeavesAlone(calls, last.url)
    ensures var refreshed := AfterCall(entries, last, ttlMs, maxEntries);
            var answer := Returned(AfterCalls(refreshed, calls, ttlMs, maxEntries), last.url, now);
            var (card, expiresAt) :=
              if last.SetCall? then (last.card, last.now + ttlMs)
              else (Find(entries, last.url).value.card, Find(entries, last.url).value.expiresAt);
            if Clears(calls) then answer == None
            else
              var others := Renewed(refreshed, calls, ttlMs, maxEntries);
              && (|others| < maxEntries ==> answer == if now < expiresAt then Some(card) else None)
              && (|others| >= maxEntries && !Removes(refreshed, calls, ttlMs, maxEntries) ==> answer == None)
  {
    var op, refreshed := OpOf(entries, last, ttlMs), AfterCall(entries, last, ttlMs, maxEntries);
    if Clears(calls) {
      AfterCallFits(entries, last, ttlMs, maxEntries, last.url);
      ClearForgets(refreshed, last.url, calls, ttlMs, maxEntries);
    } else {
      RenewedIsTouched(refreshed, calls, ttlMs, maxEntries);
      LastTouchDecides(entries, op, OpsOf(refreshed, calls, ttlMs, maxEntries), maxEntries);
    }
  }

  // ---- Looking up an expired url ----

  /**
   * All that `kept` holds of other urls, `spared` holds as well, with no more urls newer than it; of `url` they
   * hold the same, if both hold something.
   */
  ghost predicate Spares<Card>(kept: Entries<Text, CacheEntry<Card>>, spared: Entries<Text, CacheEntry<Card>>,
      url: Text) {
    && (forall k | k in KeySet(kept) && k != url ::
          k in KeySet(spared) && Find(spared, k) == Find(kept, k) && Newer(spared, k) <= Newer(kept, k))
    && (url in KeySet(kept) && url in KeySet(spared) ==> Find(spared, url) == Find(kept, url))
  }

  /** The call finds a card in `spared` only. */
  ghost predicate FindsMore<Card>(kept: Entries<Text, CacheEntry<Card>>, spared: Entries<Text, CacheEntry<Card>>,
      call: Call<Card>) {
    call.GetCall? && Returned(spared, call.url, call.now).Some? && Returned(kept, call.url, call.now) == None
  }

  lemma {:induction false} OpsSpare<Card>(kept: Entries<Text, CacheEntry<Card>>,
      spared: Entries<Text, CacheEntry<Card>>, url: Text, call: Call<Card>, ttlMs: int, k: Text)
    requires Spares(kept, spared, url) && !call.ClearCall? && !FindsMore(kept, spared, call)
    requires k in KeySet(kept) && k != url && k != call.url
    ensures NewerAfter(spared, OpOf(spared, call, ttlMs), k) <= NewerAfter(kept, OpOf(kept, call, ttlMs), k)
  {
    FindIsMembership(kept, call.url);
    FindIsMembership(spared, call.url);
    NewerHeld(spared, k);
  }

  lemma {:induction false} NewerHeld<Card>(l: Entries<Text, CacheEntry<Card>>, k: Text)
    ensures Newer(l, k) <= KeySet(l)
  {
    if l != [] && l[0].0 != k {
      NewerHeld(l[1..], k);
    }
  }

  lemma {:induction false} OtherSpared<Card>(kept: Entries<Text, CacheEntry<Card>>,
      spared: Entries<Text, CacheEntry<Card>>, url: Text, call: Call<Card>, ttlMs: int, maxEntries: int, k: Text)
    requires maxEntries >= 1 && Fits(kept, maxEntries) && Fits(spared, maxEntries) && Spares(kept, spared, url)
    requires !call.ClearCall? && !FindsMore(kept, spared, call) && k != url && k != call.url
    requires k in KeySet(AfterCall(kept, call, ttlMs, maxEntries))
    ensures var (kept', spared') :=
              (AfterCall(kept, call, ttlMs, maxEntries), AfterCall(spared, call, ttlMs, maxEntries));
            k in KeySet(spared') && Find(spared', k) == Find(kept', k) && Newer(spared', k) <= Newer(kept', k)
  {
    var op, op' := OpOf(kept, call, ttlMs), OpOf(spared, call, ttlMs);
    AfterCallFits(kept, call, ttlMs, maxEntries, k);
    OpsSpare(kept, spared, url, call, ttlMs, k);
    ApplyOther(kept, op, maxEntries, k);
    ApplyOther(spared, op', maxEntries, k);
    SubsetSize(NewerAfter(spared, op', k), NewerAfter(kept, op, k));
  }

  lemma {:induction false} OwnSpared<Card>(kept: Entries<Text, CacheEntry<Card>>,
      spared: Entries<Text, CacheEntry<Card>>, url: Text, call: Call<Card>, ttlMs: int, maxEntries: int)
    requires maxEntries >= 1 && Fits(kept, maxEntries) && Fits(spared, maxEntries) && Spares(kept, spared, url)
    requires !call.ClearCall? && !FindsMore(kept, spared, call)
    ensures var (kept', spared') :=
              (AfterCall(kept, call, ttlMs, maxEntries), AfterCall(spared, call, ttlMs, maxEntries));
            var k := call.url;
            k in KeySet(kept') && (k != url || k in KeySet(spared')) ==>
              k in KeySet(spared') && Find(spared', k) == Find(kept', k) && Newer(spared', k) <= Newer(kept', k)
  {
    var op, op', k := OpOf(kept, call, ttlMs), OpOf(spared, call, ttlMs), call.url;
    FindIsMembership(kept, k);
    FindIsMembership(spared, k);
    RemoveParts(kept, k);
    RemoveParts(spared, k);
    if op.Store? || (op.Use? && k in KeySet(kept)) {
      TouchIsNewest(kept, op, maxEntries);
    }
    if op'.Store? || (op'.Use? && k in KeySet(spared)) {
      TouchIsNewest(spared, op', maxEntries);
    }
    var kept', spared' := AfterCall(kept, call, ttlMs, maxEntries), AfterCall(spared, call, ttlMs, maxEntries);
    FindIsMembership(spared', k);
  }

  lemma {:induction false} SparesStep<Card>(kept: Entries<Text, CacheEntry<Card>>,
      spared: Entries<Text, CacheEntry<Card>>, url: Text, call: Call<Card>, ttlMs: int, maxEntries: int)
    requires maxEntries >= 1 && Fits(kept, maxEntries) && Fits(spared, maxEntries) && Spares(kept, spared, url)
    requires !FindsMore(kept, spared, call)
    ensures Spares(AfterCall(kept, call, ttlMs, maxEntries), AfterCall(spared, call, ttlMs, maxEntries), url)
  {
    if !call.ClearCall? {
      var kept', spared' := AfterCall(kept, call, ttlMs, maxEntries), AfterCall(spared, call, ttlMs, maxEntries);
      if call.url != url && url in KeySet(kept') && url in KeySet(spared') {
        AfterCallFits(kept, call, ttlMs, maxEntries, url);
        AfterCallFits(spared, call, ttlMs, maxEntries, url);
        ApplyOther(kept, OpOf(kept, call, ttlMs), maxEntries, url);
        ApplyOther(spared, OpOf(spared, call, ttlMs), maxEntries, url);
      }
      OwnSpared(kept, spared, url, call, ttlMs, maxEntries);
      forall k | k in KeySet(kept') && k != url && k != call.url
        ensures k in KeySet(spared') && Find(spared', k) == Find(kept', k) && Newer(spared', k) <= Newer(kept', k)
      {
        OtherSpared(kept, spared, url, call, ttlMs, maxEntries, k);
      }
    }
  }

  /** Some lookup of the run finds a card only because of the entry that `spared` lacks. */
  ghost predicate SomeFindsMore<Card>(kept: Entries<Text, CacheEntry<Card>>,
      spared: Entries<Text, CacheEntry<Card>>, calls: seq<Call<Card>>, ttlMs: int, maxEntries: int)
    decreases calls
  {
    calls != [] &&
    (|| FindsMore(kept, spared, calls[0])
     || SomeFindsMore(AfterCall(kept, calls[0], ttlMs, maxEntries), AfterCall(spared, calls[0], ttlMs, maxEntries),
                      calls[1..], ttlMs, maxEntries))
  }

  lemma {:induction false} SparesRun<Card>(kept: Entries<Text, CacheEntry<Card>>,
      spared: Entries<Text, CacheEntry<Card>>, url: Text, calls: seq<Call<Card>>, ttlMs: int, maxEntries: int)
    requires maxEntries >= 1 && Fits(kept, maxEntries) && Fits(spared, maxEntries) && Spares(kept, spared, url)
    requires !SomeFindsMore(kept, spared, calls, ttlMs, maxEntries)
    ensures Spares(AfterCalls(kept, calls, ttlMs, maxEntries), AfterCalls(spared, calls, ttlMs, maxEntries), url)
    decreases calls
  {
    if calls != [] {
      SparesStep(kept, spared, url, calls[0], ttlMs, maxEntries);
      AfterCallFits(kept, calls[0], ttlMs, maxEntries, url);
      AfterCallFits(spared, calls[0], ttlMs, maxEntries, url);
      SparesRun(AfterCall(kept, calls[0], ttlMs, maxEntries), AfterCall(spared, calls[0], ttlMs, maxEntries), url,
                calls[1..], ttlMs, maxEntries);
    }
  }

  lemma {:induction false} ExpiredIsOut<Card>(entries: Entries<Text, CacheEntry<Card>>, url: Text, now: int,
      ttlMs: int, maxEntries: int)
    requires Fits(entries, maxEntries) && Returned(entries, url, now) == None
    ensures var spared := AfterCall(entries, GetCall(url, now), ttlMs, maxEntries);
            Fits(spared, maxEntries) && url !in KeySet(spared) && Spares(entries, spared, url)
  {
    AfterCallFits(entries, GetCall(url, now), ttlMs, maxEntries, url);
    FindIsMembership(entries, url);
    RemoveParts(entries, url);
    forall k | k in KeySet(entries) && k != url
      ensures var spared := AfterCall(entries, GetCall(url, now), ttlMs, maxEntries);
              k in KeySet(spared) && Find(spared, k) == Find(entries, k) && Newer(spared, k) <= Newer(entries, k)
    {
      RemoveOther(entries, url, k);
    }
  }

  /**
   * Looking up an expired url takes no life from any other entry: in every run that follows, whatever is found
   * without that lookup is found with it, unless some lookup before has found a card only thanks to it.
   */
  lemma {:induction false} ExpiredLookupSparesOthers<Card>(entries: Entries<Text, CacheEntry<Card>>, url: Text,
      now: int, calls: seq<Call<Card>>, other: Text, later: int, ttlMs: int, maxEntries: int)
    requires maxEntries >= 1 && Fits(entries, maxEntries) && Returned(entries, url, now) == None && other != url
    ensures var spared := AfterCall(entries, GetCall(url, now), ttlMs, maxEntries);
            var without := Returned(AfterCalls(entries, calls, ttlMs, maxEntries), other, later);
            || without == None
            || Returned(AfterCalls(spared, calls, ttlMs, maxEntries), other, later) == without
            || SomeFindsMore(entries, spared, calls, ttlMs, maxEntries)
  {
    var spared := AfterCall(entries, GetCall(url, now), ttlMs, maxEntries);
    ExpiredIsOut(entries, url, now, ttlMs, maxEntries);
    if !SomeFindsMore(entries, spared, calls, ttlMs, maxEntries) {
      SparesRun(entries, spared, url, calls, ttlMs, maxEntries);
      FindIsMembership(AfterCalls(entries, calls, ttlMs, maxEntries), other);
    }
  }

  /** Such a find can then cost another entry its place: a store of `c`, a find of `b`, and a store of `d`. */
  lemma {:induction false} FindThanksToDeletionEvicts<Card>(url: Text, b: Text, c: Text, d: Text, card: Card)
    requires url != b && url != c && url != d && b != c && b != d && c != d
    ensures var entries := [(b, CacheEntry(card, 9)), (url, CacheEntry(card, 1))];
            var spared := AfterCall(entries, GetCall(url, 1), 9, 2);
            var calls := [SetCall(c, card, 2), GetCall(b, 3), SetCall(d, card, 4)];
            && Returned(entries, url, 1) == None
            && Returned(AfterCalls(entries, calls, 9, 2), c, 5) == Some(card)
            && Returned(AfterCalls(spared, calls, 9, 2), c, 5) == None
  {
    var entries := [(b, CacheEntry(card, 9)), (url, CacheEntry(card, 1))];
    var (set1, get, set2) := (SetCall(c, card, 2), GetCall(b, 3), SetCall(d, card, 4));
    var eb, ec, ed := (b, CacheEntry(card, 9)), (c, CacheEntry(card, 11)), (d, CacheEntry(card, 13));
    var eu := (url, CacheEntry(card, 1));
    ListOfTwo(eb, eu, url);
    ListOfTwo(eb, eu, c);
    ListOfTwo(eu, ec, b);
    ListOfTwo(eb, ec, b);
    ListOfTwo(eu, ec, d);
    ListOfTwo(ec, eb, d);
    ListOfTwo(ec, ed, c);
    ListOfTwo(eb, ed, c);
    assert [eb, eu][1..] == [eu] && [eu, ec][1..] == [ec] && [ec, eb][1..] == [eb];
    assert [eb] + [ec] == [eb, ec] && [ec] + [eb] == [ec, eb] && [ec] + [ed] == [ec, ed] && [eb] + [ed] == [eb, ed];
    AfterThree([eb, eu], set1, get, set2);
    AfterThree([eb], set1, get, set2);
  }

  lemma {:induction false} ListOfTwo<Card>(e: (Text, CacheEntry<Card>), f: (Text, CacheEntry<Card>), k: Text)
    ensures Find([e], k) == if e.0 == k then Some(e.1) else None
    ensures Remove([e], k) == if e.0 == k then [] else [e]
    ensures Find([e, f], k) == if e.0 == k then Some(e.1) else if f.0 == k then Some(f.1) else None
    ensures Remove([e, f], k) == if e.0 == k then [f] else if f.0 == k then [e] else [e, f]
  {
    assert [e][1..] == [] && [f][1..] == [] && [e, f][1..] == [f];
  }

  lemma {:induction false} AfterThree<Card>(entries: Entries<Text, CacheEntry<Card>>, x: Call<Card>, y: Call<Card>,
      z: Call<Card>)
    ensures AfterCalls(entries, [x, y, z], 9, 2) == AfterCall(AfterCall(AfterCall(entries, x, 9, 2), y, 9, 2), z, 9, 2)
  {
    var first := AfterCall(entries, x, 9, 2);
    var second := AfterCall(first, y, 9, 2);
    assert [x, y, z][1..] == [y, z] && [y, z][1..] == [z] && [z][1..] == [];
    assert AfterCalls(second, [z], 9, 2) == AfterCalls(AfterCall(second, z, 9, 2), [], 9, 2);
    assert AfterCalls(first, [y, z], 9, 2) == AfterCalls(second, [z], 9, 2);
  }
}
