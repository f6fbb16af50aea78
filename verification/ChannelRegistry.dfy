/**
 * Lazy loading of channel adapters: a promise is cached per key before it settles and removed
 * when it fails. An adapter is named by the load that delivered it.
 */
module ChannelRegistry {
  import opened Wrappers
  import opened JsText
  import opened Promises
  import ConfigHash
  import Djb2

  datatype State = State(cache: map<Text, nat>, promises: seq<Promise>, loading: map<nat, Text>)

  const EMPTY: State := State(map[], [], map[])

  datatype Event =
    | Load(key: Text)
    | Settle(promise: nat, outcome: Promise)
    | Resume(promise: nat)

  predicate Enabled(s: State, e: Event) {
    match e
    case Load(_) => true
    case Settle(p, outcome) => p < |s.promises| && s.promises[p] == Unsettled && outcome != Unsettled
    case Resume(p) => p in s.loading && p < |s.promises| && s.promises[p] != Unsettled
  }

  function Step(s: State, e: Event): State
    requires Enabled(s, e)
  {
    match e
    case Load(key) =>
      if key in s.cache then s
      else
        var p := |s.promises|;
        State(s.cache[key := p], s.promises + [Unsettled], s.loading[p := key])
    case Settle(p, outcome) => s.(promises := s.promises[p := outcome])
    case Resume(p) =>
      var t := s.(loading := s.loading - {p});
      if s.promises[p] == Fulfilled then t else t.(cache := s.cache - {s.loading[p]})
  }

  /** Every other key is answered from the same load as before. */
  ghost predicate OthersKept(before: State, after: State, key: Text) {
    forall k | k != key ::
      (k in after.cache <==> k in before.cache) && (k in after.cache ==> after.cache[k] == before.cache[k])
  }

  const COLON: CodeUnit := 0x3A

  /** The cache key: the type, and the explicit instance key or else the hash of the configuration. */
  function CacheKey(channelType: Text, config: ConfigHash.Value, instanceKey: Option<Text>): Text {
    channelType + [COLON] + (if instanceKey.Some? then instanceKey.value else Djb2.Hash(ConfigHash.Stringify(config)))
  }

  lemma {:induction false} LoadKeepsOthers(s: State, key: Text)
    ensures var t := Step(s, Load(key));
            key in t.cache && OthersKept(s, t, key)
  {
  }

  class Registry {
    var loaders: set<Text>
    var cache: map<Text, nat>
    var promises: seq<Promise>
    var loading: map<nat, Text>

    function View(): State
      reads this
    {
      State(cache, promises, loading)
    }

    constructor ()
      ensures View() == EMPTY && loaders == {} && forall key :: Coalesced(View(), key)
    {
      loaders, cache, promises, loading := {}, map[], [], map[];
    }

    /** Registering a type twice is an error. */
    method Register(channelType: Text) returns (ok: bool)
      modifies `loaders
      ensures ok <==> channelType !in old(loaders)
      ensures loaders == old(loaders) + {channelType}
    {
      if channelType in loaders {
        return false;
      }
      loaders := loaders + {channelType};
      return true;
    }

    /** The load whose adapter the caller gets, or nothing for an unknown type that is not cached. */
    method LoadAdapter(channelType: Text, config: ConfigHash.Value,
        instanceKey: Option<Text>) returns (load: Option<nat>)
      modifies this
      ensures loaders == old(loaders)
      ensures var key := CacheKey(channelType, config, instanceKey);
              if key in old(cache) || channelType in loaders
              then View() == Step(old(View()), Load(key)) && key in cache && load == Some(cache[key])
              else View() == old(View()) && load == None
      ensures OthersKept(old(View()), View(), CacheKey(channelType, config, instanceKey))
    {
      var hash := ConfigHash.HashConfig(config);
      var key := channelType + [COLON] + (if instanceKey.Some? then instanceKey.value else hash);
      assert key == CacheKey(channelType, config, instanceKey);
      if key in cache {
        return Some(cache[key]);
      }
      if channelType !in loaders {
        return None;
      }
      LoadKeepsOthers(View(), key);
      var p := |promises|;
      promises := promises + [Unsettled];
      loading := loading[p := key];
      cache := cache[key := p];
      return Some(p);
    }

    /** The call that started a load resumes; a failed load leaves the cache. */
    method LoaderResumes(promise: nat) returns (ok: bool)
      requires Enabled(View(), Resume(promise))
      modifies this
      ensures View() == Step(old(View()), Resume(promise)) && loaders == old(loaders)
      ensures ok <==> old(promises[promise]) == Fulfilled
      ensures if ok then cache == old(cache)
              else old(loading[promise]) !in cache && OthersKept(old(View()), View(), old(loading[promise]))
    {
      var key := loading[promise];
      loading := loading - {promise};
      ok := promises[promise] == Fulfilled;
      if !ok {
        cache := cache - {key};
      }
    }
  }

  // ---- Whole runs ----

  predicate Possible(s: State, events: seq<Event>)
    decreases events
  {
    events == [] || (Enabled(s, events[0]) && Possible(Step(s, events[0]), events[1..]))
  }

  function Run(s: State, events: seq<Event>): State
    requires Possible(s, events)
    decreases events
  {
    if events == [] then s else Run(Step(s, events[0]), events[1..])
  }

  /** A load in flight is the cached one of its key. */
  ghost predicate Coalesced(s: State, key: Text) {
    && (forall p | p in s.loading && s.loading[p] == key :: key in s.cache && s.cache[key] == p)
    && (forall p | p in s.loading :: p < |s.promises|)
  }

  predicate Fails(s: State, e: Event, key: Text)
    requires Enabled(s, e)
  {
    e.Resume? && s.loading[e.promise] == key && s.promises[e.promise] != Fulfilled
  }

  function FailureCount(s: State, events: seq<Event>, key: Text): nat
    requires Possible(s, events)
    decreases events
  {
    if events == [] then 0
    else (if Fails(s, events[0], key) then 1 else 0) + FailureCount(Step(s, events[0]), events[1..], key)
  }

  function LoadCount(s: State, events: seq<Event>, key: Text): nat
    requires Possible(s, events)
    decreases events
  {
    if events == [] then 0
    else (if events[0] == Load(key) && key !in s.cache then 1 else 0) + LoadCount(Step(s, events[0]), events[1..], key)
  }

  /**
   * In every run a key has at most one load in flight, its loads number at most one more than its
   * failures, and without a failure every caller gets the adapter cached first.
   */
  lemma {:induction false} LoadsCoalesce(s: State, events: seq<Event>, key: Text)
    requires Coalesced(s, key) && Possible(s, events)
    ensures Coalesced(Run(s, events), key)
    ensures LoadCount(s, events, key) + (if key in s.cache then 1 else 0) <= 1 + FailureCount(s, events, key)
    ensures key in s.cache && FailureCount(s, events, key) == 0 ==>
              key in Run(s, events).cache && Run(s, events).cache[key] == s.cache[key]
    decreases events
  {
    if events != [] {
      LoadsCoalesce(Step(s, events[0]), events[1..], key);
    }
  }

  // ---- Cache keys ----

  /** Types without a colon keep their keys apart. */
  lemma {:induction false} KeysTellTypesApart(a: Text, b: Text, x: Text, y: Text)
    requires COLON !in a && COLON !in b && a + [COLON] + x == b + [COLON] + y
    ensures a == b && x == y
  {
    ColonNotLater(a, b, x, y);
    ColonNotLater(b, a, y, x);
    var whole := a + [COLON] + x;
    assert a == whole[..|a|] == b && x == whole[|a| + 1..] == y;
  }

  lemma {:induction false} ColonNotLater(a: Text, b: Text, x: Text, y: Text)
    requires COLON !in b && a + [COLON] + x == b + [COLON] + y
    ensures |b| <= |a|
  {
    assert (a + [COLON] + x)[|a|] == COLON;
    assert forall i | 0 <= i < |b| :: (b + [COLON] + y)[i] == b[i];
  }

  lemma {:induction false} HexHasNoColon(n: nat)
    ensures COLON !in Djb2.Hex(n)
  {
    if n >= 16 {
      HexHasNoColon(n / 16);
    }
  }

  /** Without an instance key no two types share a key, whatever they hold: the hash has no colon. */
  lemma {:induction false} HashedKeysTellTypesApart(a: Text, b: Text, v: ConfigHash.Value, w: ConfigHash.Value)
    requires CacheKey(a, v, None) == CacheKey(b, w, None)
    ensures a == b
  {
    var x, y := Djb2.Hash(ConfigHash.Stringify(v)), Djb2.Hash(ConfigHash.Stringify(w));
    HashHasNoColon(ConfigHash.Stringify(v));
    HashHasNoColon(ConfigHash.Stringify(w));
    LastColonNotLater(a, b, x, y);
    LastColonNotLater(b, a, y, x);
    assert (a + [COLON] + x)[..|a|] == a && (b + [COLON] + y)[..|b|] == b;
  }

  lemma {:induction false} HashHasNoColon(s: Text)
    ensures COLON !in Djb2.Hash(s)
  {
    HexHasNoColon(ToUint32(Djb2.Polynomial(s)));
  }

  lemma {:induction false} LastColonNotLater(a: Text, b: Text, x: Text, y: Text)
    requires COLON !in x && a + [COLON] + x == b + [COLON] + y
    ensures |b| <= |a|
  {
    assert (b + [COLON] + y)[|b|] == COLON;
    assert forall i | |a| < i < |a| + 1 + |x| :: (a + [COLON] + x)[i] == x[i - |a| - 1];
  }

  /** With a colon in a type, two types can share a key: the second would be given the first one's adapter. */
  lemma {:induction false} ColonInTypeCollides(a: Text, b: Text, k: Text, config: ConfigHash.Value)
    ensures CacheKey(a + [COLON] + b, config, Some(k)) == CacheKey(a, config, Some(b + [COLON] + k))
  {
  }

  /** Some calls for the two types have one cache key. */
  ghost predicate CanShareKey(a: Text, b: Text) {
    exists v, w, i, j :: CacheKey(a, v, i) == CacheKey(b, w, j)
  }

  /** One type, followed by a colon, begins the other. */
  predicate Extends(a: Text, b: Text) {
    a + [COLON] <= b
  }

  lemma {:induction false} ExtendedSharesKey(a: Text, b: Text)
    requires Extends(a, b)
    ensures CanShareKey(a, b) && CanShareKey(b, a)
  {
    var rest := b[|a| + 1..];
    assert b == a + [COLON] + rest;
    ColonInTypeCollides(a, rest, [], ConfigHash.Null);
  }

  lemma {:induction false} SharedKeyExtends(a: Text, b: Text, x: Text, y: Text)
    requires |a| <= |b| && a + [COLON] + x == b + [COLON] + y
    ensures a == b || Extends(a, b)
  {
    var whole := a + [COLON] + x;
    assert a == whole[..|a|] && b == whole[..|b|];
    assert whole[..|a| + 1] == a + [COLON];
    if |a| < |b| {
      assert b[..|a| + 1] == whole[..|a| + 1];
    }
  }

  /** Two types can share a key exactly when they are the same, or one of them followed by a colon begins the other. */
  lemma {:induction false} TypesShareKeyIff(a: Text, b: Text)
    ensures CanShareKey(a, b) <==> a == b || Extends(a, b) || Extends(b, a)
  {
    if a == b {
      assert CacheKey(a, ConfigHash.Null, None) == CacheKey(b, ConfigHash.Null, None);
    }
    if Extends(a, b) {
      ExtendedSharesKey(a, b);
    }
    if Extends(b, a) {
      ExtendedSharesKey(b, a);
    }
    if v, w, i, j :| CacheKey(a, v, i) == CacheKey(b, w, j) {
      var x := if i.Some? then i.value else Djb2.Hash(ConfigHash.Stringify(v));
      var y := if j.Some? then j.value else Djb2.Hash(ConfigHash.Stringify(w));
      if |a| <= |b| {
        SharedKeyExtends(a, b, x, y);
      } else {
        SharedKeyExtends(b, a, y, x);
      }
    }
  }

  /** The same configuration in any key order leads to the same key, hence to the same adapter. */
  lemma {:induction false} KeyIgnoresOrder(channelType: Text, v: ConfigHash.Value, w: ConfigHash.Value)
    requires ConfigHash.WellFormed(v) && ConfigHash.WellFormed(w) && ConfigHash.Same(v, w)
    ensures CacheKey(channelType, v, None) == CacheKey(channelType, w, None)
  {
    ConfigHash.HashIgnoresKeyOrder(v, w);
  }

  // ---- What keeps the calls for one type apart ----

  lemma {:induction false} SuffixDecides(a: Text, x: Text, y: Text)
    ensures a + [COLON] + x == a + [COLON] + y <==> x == y
  {
    assert x == (a + [COLON] + x)[|a| + 1..] && y == (a + [COLON] + y)[|a| + 1..];
  }

  /** Calls for one type without instance keys share a key exactly when their configurations have one hash. */
  lemma {:induction false} ConfigsShareKeyIff(a: Text, v: ConfigHash.Value, w: ConfigHash.Value)
    ensures CacheKey(a, v, None) == CacheKey(a, w, None)
            <==> Djb2.Hash(ConfigHash.Stringify(v)) == Djb2.Hash(ConfigHash.Stringify(w))
  {
    SuffixDecides(a, Djb2.Hash(ConfigHash.Stringify(v)), Djb2.Hash(ConfigHash.Stringify(w)));
  }

  /** So configurations whose canonical texts differ in one code unit never share one. */
  lemma {:induction false} OneUnitKeepsConfigsApart(a: Text, v: ConfigHash.Value, w: ConfigHash.Value, at: nat)
    requires DifferOnlyAt(ConfigHash.Stringify(v), ConfigHash.Stringify(w), at)
    ensures CacheKey(a, v, None) != CacheKey(a, w, None)
  {
    ConfigsShareKeyIff(a, v, w);
    Djb2.OneChangedUnitNeverCollides(ConfigHash.Stringify(v), ConfigHash.Stringify(w), at);
  }

  /** With instance keys only these decide, and a call without one is told from them by the hash. */
  lemma {:induction false} InstancesShareKeyIff(a: Text, v: ConfigHash.Value, w: ConfigHash.Value, i: Text, j: Text)
    ensures CacheKey(a, v, Some(i)) == CacheKey(a, w, Some(j)) <==> i == j
    ensures CacheKey(a, v, Some(i)) == CacheKey(a, w, None) <==> i == Djb2.Hash(ConfigHash.Stringify(w))
  {
    SuffixDecides(a, i, j);
    SuffixDecides(a, i, Djb2.Hash(ConfigHash.Stringify(w)));
  }

  // ---- Calls with different keys get different loads ----

  /** The keys for which the loads of a run were started, load by load. */
  ghost function StartedFor(events: seq<Event>): seq<Text>
    requires Possible(EMPTY, events)
    decreases |events|
  {
    if events == [] then []
    else
      var before, last := events[..|events| - 1], events[|events| - 1];
      PossibleUpTo(EMPTY, events, |events| - 1);
      StartedFor(before) + if last.Load? && last.key !in Run(EMPTY, before).cache then [last.key] else []
  }

  lemma {:induction false} PossibleUpTo(s: State, events: seq<Event>, n: nat)
    requires Possible(s, events) && n <= |events|
    ensures Possible(s, events[..n])
    ensures n < |events| ==>
              && Enabled(Run(s, events[..n]), events[n])
              && Possible(s, events[..n + 1])
              && Run(s, events[..n + 1]) == Step(Run(s, events[..n]), events[n])
    decreases |events|
  {
    if n > 0 {
      assert events[..n][0] == events[0] && events[..n][1..] == events[1..][..n - 1];
      PossibleUpTo(Step(s, events[0]), events[1..], n - 1);
      if n < |events| {
        assert events[..n + 1][0] == events[0] && events[..n + 1][1..] == events[1..][..n];
      }
    } else if n < |events| {
      assert events[..1] == [events[0]] && [events[0]][1..] == [];
      assert Possible(Step(s, events[0]), []) && Run(Step(s, events[0]), []) == Step(s, events[0]);
    }
  }

  /** Every cached load was started for the key that it is cached under. */
  lemma {:induction false} CachedForItsKey(events: seq<Event>)
    requires Possible(EMPTY, events)
    ensures |StartedFor(events)| == |Run(EMPTY, events).promises|
    ensures forall k | k in Run(EMPTY, events).cache ::
              Run(EMPTY, events).cache[k] < |StartedFor(events)| && StartedFor(events)[Run(EMPTY, events).cache[k]] == k
    decreases |events|
  {
    if events != [] {
      var n := |events| - 1;
      PossibleUpTo(EMPTY, events, n);
      assert events[..n + 1] == events;
      CachedForItsKey(events[..n]);
    }
  }

  lemma {:induction false} StartedForGrows(events: seq<Event>, n: nat)
    requires Possible(EMPTY, events) && n <= |events|
    ensures Possible(EMPTY, events[..n]) && StartedFor(events[..n]) <= StartedFor(events)
    decreases |events|
  {
    PossibleUpTo(EMPTY, events, n);
    if n == |events| {
      assert events[..n] == events;
    } else {
      PossibleUpTo(EMPTY, events, |events| - 1);
      StartedForGrows(events[..|events| - 1], n);
      assert events[..|events| - 1][..n] == events[..n];
    }
  }

  /** The load that answers the call at `n`. */
  ghost predicate AnsweredBy(events: seq<Event>, n: nat, load: nat)
    requires Possible(EMPTY, events) && n < |events| && events[n].Load?
  {
    PossibleUpTo(EMPTY, events, n);
    var s := Run(EMPTY, events[..n + 1]);
    events[n].key in s.cache && s.cache[events[n].key] == load
  }

  /** In every run, two calls that are answered from one load have the same key. */
  lemma {:induction false} DifferentKeysDifferentLoads(events: seq<Event>, m: nat, n: nat, load: nat)
    requires Possible(EMPTY, events) && m < |events| && n < |events| && events[m].Load? && events[n].Load?
    requires AnsweredBy(events, m, load) && AnsweredBy(events, n, load)
    ensures events[m].key == events[n].key
  {
    PossibleUpTo(EMPTY, events, m);
    PossibleUpTo(EMPTY, events, n);
    CachedForItsKey(events[..m + 1]);
    CachedForItsKey(events[..n + 1]);
    StartedForGrows(events, m + 1);
    StartedForGrows(events, n + 1);
  }
}
