/**
 * The abstract least-recently-used store: a list of entries with distinct keys, the one
 * touched longest ago first. The stores of the program refine it.
 */
module Recency {
  import opened Wrappers

  type Entries<K, V> = seq<(K, V)>

  ghost function KeySet<K, V>(l: Entries<K, V>): set<K> {
    if l == [] then {} else {l[0].0} + KeySet(l[1..])
  }

  ghost predicate DistinctKeys<K, V>(l: Entries<K, V>) {
    l == [] || (l[0].0 !in KeySet(l[1..]) && DistinctKeys(l[1..]))
  }

  function Find<K(==), V>(l: Entries<K, V>, k: K): Option<V> {
    if l == [] then None
    else if l[0].0 == k then Some(l[0].1)
    else Find(l[1..], k)
  }

  /** Deletes the entry of `k`, keeping the order of the others. */
  function Remove<K(==), V>(l: Entries<K, V>, k: K): Entries<K, V> {
    if l == [] then []
    else if l[0].0 == k then l[1..]
    else [l[0]] + Remove(l[1..], k)
  }

  /** Makes `k` the most recent entry. */
  function Touch<K(==), V>(l: Entries<K, V>, k: K, v: V): Entries<K, V> {
    Remove(l, k) + [(k, v)]
  }

  /** Drops the least recent entry of a full store. */
  function Evict<K, V>(l: Entries<K, V>, capacity: int): Entries<K, V> {
    if |l| >= capacity && l != [] then l[1..] else l
  }

  function Insert<K(==), V>(l: Entries<K, V>, k: K, v: V, capacity: int): Entries<K, V> {
    Evict(Remove(l, k), capacity) + [(k, v)]
  }

  /** One operation on a store: an access, a store or a deletion. */
  datatype Op<K, V> = Use(key: K) | Store(key: K, value: V) | Drop(key: K)

  function Apply<K(==), V>(l: Entries<K, V>, op: Op<K, V>, capacity: int): Entries<K, V> {
    match op
    case Use(k) => (match Find(l, k) case None => l case Some(v) => Touch(l, k, v))
    case Store(k, v) => Insert(l, k, v, capacity)
    case Drop(k) => Remove(l, k)
  }

  function Run<K(==), V>(l: Entries<K, V>, ops: seq<Op<K, V>>, capacity: int): Entries<K, V>
    decreases ops
  {
    if ops == [] then l else Run(Apply(l, ops[0], capacity), ops[1..], capacity)
  }

  /** The keys that a run makes most recent: stored ones, and accessed ones that were present. */
  ghost function Touched<K, V>(l: Entries<K, V>, ops: seq<Op<K, V>>, capacity: int): set<K>
    decreases ops
  {
    if ops == [] then {}
    else
      var rest := Touched(Apply(l, ops[0], capacity), ops[1..], capacity);
      if ops[0].Store? || (ops[0].Use? && Find(l, ops[0].key).Some?) then rest + {ops[0].key} else rest
  }

  /** The store's invariant: keys are distinct and the capacity is kept (one entry at least fits). */
  ghost predicate Fits<K, V>(l: Entries<K, V>, capacity: int) {
    DistinctKeys(l) && |l| <= if capacity < 1 then 1 else capacity
  }

  lemma {:induction false} FindIsMembership<K, V>(l: Entries<K, V>, k: K)
    ensures Find(l, k).Some? <==> k in KeySet(l)
    ensures k !in KeySet(l) ==> Remove(l, k) == l
  {
    if l != [] {
      FindIsMembership(l[1..], k);
    }
  }

  lemma {:induction false} RemoveParts<K, V>(l: Entries<K, V>, k: K)
    requires DistinctKeys(l)
    ensures DistinctKeys(Remove(l, k)) && KeySet(Remove(l, k)) == KeySet(l) - {k}
    ensures |Remove(l, k)| == if k in KeySet(l) then |l| - 1 else |l|
  {
    if l != [] {
      RemoveParts(l[1..], k);
      if l[0].0 != k {
        assert Remove(l, k)[1..] == Remove(l[1..], k);
      }
    }
  }

  // ---- What the operations do to the list, entry by entry ----

  /** `after` is `before` without the entry of `k`, the others as they were. */
  ghost predicate Dropped<K, V>(before: Entries<K, V>, after: Entries<K, V>, k: K) {
    exists i | 0 <= i < |before| :: before[i].0 == k && after == before[..i] + before[i + 1..]
  }

  /** `after` is `before` with the entry of `k` moved to the end, the others as they were. */
  ghost predicate MovedLast<K, V>(before: Entries<K, V>, after: Entries<K, V>, k: K) {
    exists i | 0 <= i < |before| :: before[i].0 == k && after == before[..i] + before[i + 1..] + [before[i]]
  }

  /** The list without `k`, if it has it. */
  ghost predicate Without<K, V>(l: Entries<K, V>, rest: Entries<K, V>, k: K) {
    if k in KeySet(l) then Dropped(l, rest, k) else rest == l
  }

  /** A stored entry is last; before it come the others, without the first of them if they filled the store. */
  ghost predicate StoredLast<K, V>(before: Entries<K, V>, after: Entries<K, V>, k: K, v: V, capacity: int) {
    if k in KeySet(before) then
      exists i | 0 <= i < |before| ::
        before[i].0 == k && PushedTo(before[..i] + before[i + 1..], after, (k, v), capacity)
    else PushedTo(before, after, (k, v), capacity)
  }

  predicate PushedTo<K(==), V(==)>(rest: Entries<K, V>, after: Entries<K, V>, entry: (K, V), capacity: int) {
    after == (if |rest| >= capacity && rest != [] then rest[1..] else rest) + [entry]
  }

  lemma {:induction false} RemoveDrops<K, V>(l: Entries<K, V>, k: K) returns (i: nat)
    requires k in KeySet(l)
    ensures i < |l| && l[i].0 == k && Find(l, k) == Some(l[i].1) && Remove(l, k) == l[..i] + l[i + 1..]
  {
    if l[0].0 == k {
      i := 0;
    } else {
      var j := RemoveDrops(l[1..], k);
      i := j + 1;
      assert l[..i] == [l[0]] + l[1..][..j];
    }
  }

  lemma {:induction false} UseShape<K, V>(l: Entries<K, V>, k: K, capacity: int)
    ensures if k in KeySet(l) then MovedLast(l, Apply(l, Use(k), capacity), k) else Apply(l, Use(k), capacity) == l
  {
    FindIsMembership(l, k);
    if k in KeySet(l) {
      var i := RemoveDrops(l, k);
      assert Apply(l, Use(k), capacity) == l[..i] + l[i + 1..] + [l[i]];
    }
  }

  lemma {:induction false} DropShape<K, V>(l: Entries<K, V>, k: K, capacity: int)
    ensures Without(l, Apply(l, Drop(k), capacity), k)
  {
    FindIsMembership(l, k);
    if k in KeySet(l) {
      var i := RemoveDrops(l, k);
    }
  }

  lemma {:induction false} StoreShape<K, V>(l: Entries<K, V>, k: K, v: V, capacity: int)
    ensures StoredLast(l, Apply(l, Store(k, v), capacity), k, v, capacity)
  {
    FindIsMembership(l, k);
    if k in KeySet(l) {
      var i := RemoveDrops(l, k);
    } else {
      assert Remove(l, k) == l;
    }
  }

  lemma {:induction false} AppendParts<K, V>(l: Entries<K, V>, k: K, v: V)
    ensures KeySet(l + [(k, v)]) == KeySet(l) + {k}
    ensures DistinctKeys(l) && k !in KeySet(l) ==> DistinctKeys(l + [(k, v)])
  {
    if l == [] {
      assert l + [(k, v)] == [(k, v)];
    } else {
      assert (l + [(k, v)])[1..] == l[1..] + [(k, v)];
      AppendParts(l[1..], k, v);
    }
  }

  lemma {:induction false} KeySetSize<K, V>(l: Entries<K, V>)
    requires DistinctKeys(l)
    ensures |KeySet(l)| == |l|
  {
    if l != [] {
      KeySetSize(l[1..]);
    }
  }

  /** Every operation keeps distinct keys and the capacity, whatever the capacity is. */
  lemma {:induction false} ApplyFits<K, V>(l: Entries<K, V>, op: Op<K, V>, capacity: int)
    requires Fits(l, capacity)
    ensures Fits(Apply(l, op, capacity), capacity)
  {
    var k := op.key;
    RemoveParts(l, k);
    FindIsMembership(l, k);
    match op
    case Use(_) =>
      if Find(l, k).Some? {
        AppendParts(Remove(l, k), k, Find(l, k).value);
      }
    case Store(_, v) =>
      AppendParts(Evict(Remove(l, k), capacity), k, v);
    case Drop(_) =>
  }

  lemma {:induction false} RunFits<K, V>(l: Entries<K, V>, ops: seq<Op<K, V>>, capacity: int)
    requires Fits(l, capacity)
    ensures Fits(Run(l, ops, capacity), capacity)
    decreases ops
  {
    if ops != [] {
      ApplyFits(l, ops[0], capacity);
      RunFits(Apply(l, ops[0], capacity), ops[1..], capacity);
    }
  }

  // ---- What stays and what goes ----

  /** The keys more recent than `k`. */
  ghost function Newer<K, V>(l: Entries<K, V>, k: K): set<K> {
    if l == [] then {} else if l[0].0 == k then KeySet(l[1..]) else Newer(l[1..], k)
  }

  lemma {:induction false} NewerSize<K, V>(l: Entries<K, V>, k: K)
    requires DistinctKeys(l) && k in KeySet(l)
    ensures k !in Newer(l, k) && Newer(l, k) <= KeySet(l)
    ensures |Newer(l, k)| < |l|
    ensures |Newer(l, k)| == |l| - 1 <==> l[0].0 == k
  {
    if l[0].0 == k {
      KeySetSize(l[1..]);
    } else {
      NewerSize(l[1..], k);
    }
  }

  lemma {:induction false} RemoveOther<K, V>(l: Entries<K, V>, x: K, k: K)
    requires DistinctKeys(l) && k in KeySet(l) && x != k
    ensures Find(Remove(l, x), k) == Find(l, k)
    ensures Newer(Remove(l, x), k) == Newer(l, k) - {x}
  {
    if l[0].0 == k {
      RemoveParts(l[1..], x);
      assert Remove(l, x)[1..] == Remove(l[1..], x);
    } else {
      NewerSize(l[1..], k);
      if l[0].0 != x {
        RemoveOther(l[1..], x, k);
        assert Remove(l, x)[1..] == Remove(l[1..], x);
      }
    }
  }

  lemma {:induction false} AppendOther<K, V>(l: Entries<K, V>, x: K, w: V, k: K)
    requires k in KeySet(l) && x != k
    ensures Find(l + [(x, w)], k) == Find(l, k)
    ensures Newer(l + [(x, w)], k) == Newer(l, k) + {x}
  {
    assert (l + [(x, w)])[1..] == l[1..] + [(x, w)];
    if l[0].0 == k {
      AppendParts(l[1..], x, w);
    } else {
      AppendOther(l[1..], x, w, k);
    }
  }

  lemma {:induction false} AppendSelf<K, V>(l: Entries<K, V>, k: K, v: V)
    requires k !in KeySet(l)
    ensures Find(l + [(k, v)], k) == Some(v) && Newer(l + [(k, v)], k) == {}
  {
    if l == [] {
      assert l + [(k, v)] == [(k, v)];
    } else {
      assert (l + [(k, v)])[1..] == l[1..] + [(k, v)];
      AppendSelf(l[1..], k, v);
    }
  }

  /** Storing or accessing a key makes it the most recent one. */
  lemma {:induction false} TouchIsNewest<K, V>(l: Entries<K, V>, op: Op<K, V>, capacity: int)
    requires Fits(l, capacity) && (op.Store? || (op.Use? && op.key in KeySet(l)))
    ensures var after := Apply(l, op, capacity);
            && Find(after, op.key) == (if op.Store? then Some(op.value) else Find(l, op.key))
            && Newer(after, op.key) == {}
  {
    RemoveParts(l, op.key);
    FindIsMembership(l, op.key);
    if op.Use? {
      AppendSelf(Remove(l, op.key), op.key, Find(l, op.key).value);
    } else {
      AppendSelf(Evict(Remove(l, op.key), capacity), op.key, op.value);
    }
  }

  /** The keys newer than another key after one operation, had nothing been evicted. */
  ghost function NewerAfter<K, V>(l: Entries<K, V>, op: Op<K, V>, k: K): set<K> {
    match op
    case Drop(x) => Newer(l, k) - {x}
    case Store(x, _) => Newer(l, k) + {x}
    case Use(x) => if x in KeySet(l) then Newer(l, k) + {x} else Newer(l, k)
  }

  /** Eviction spares `k` exactly when there is room left beside the keys newer than `k`. */
  lemma {:induction false} EvictOther<K, V>(l: Entries<K, V>, capacity: int, k: K)
    requires DistinctKeys(l) && |l| <= capacity && k in KeySet(l)
    ensures var after := Evict(l, capacity);
            if |Newer(l, k)| + 1 < capacity
            then k in KeySet(after) && Find(after, k) == Find(l, k) && Newer(after, k) == Newer(l, k)
            else k !in KeySet(after)
  {
    NewerSize(l, k);
  }

  /** `k` is treated as the keys `newer` now more recent than it demand. */
  ghost predicate KeptIffRoom<K, V>(l: Entries<K, V>, after: Entries<K, V>, k: K, newer: set<K>, capacity: int) {
    if |newer| < capacity
    then k in KeySet(after) && Find(after, k) == Find(l, k) && Newer(after, k) == newer
    else k !in KeySet(after)
  }

  lemma {:induction false} UseOther<K, V>(l: Entries<K, V>, x: K, capacity: int, k: K)
    requires capacity >= 1 && Fits(l, capacity) && k in KeySet(l) && x != k && x in KeySet(l)
    ensures KeptIffRoom(l, Apply(l, Use(x), capacity), k, Newer(l, k) + {x}, capacity)
  {
    var removed := Remove(l, x);
    FindIsMembership(l, x);
    RemoveOther(l, x, k);
    RemoveParts(l, x);
    NewerSize(removed, k);
    AppendOther(removed, x, Find(l, x).value, k);
    AppendParts(removed, x, Find(l, x).value);
    assert Newer(l, k) - {x} + {x} == Newer(l, k) + {x};
  }

  lemma {:induction false} StoreOther<K, V>(l: Entries<K, V>, x: K, w: V, capacity: int, k: K)
    requires capacity >= 1 && Fits(l, capacity) && k in KeySet(l) && x != k
    ensures KeptIffRoom(l, Insert(l, x, w, capacity), k, Newer(l, k) + {x}, capacity)
  {
    var removed := Remove(l, x);
    RemoveOther(l, x, k);
    RemoveParts(l, x);
    var newer := Newer(l, k) - {x};
    assert newer + {x} == Newer(l, k) + {x};
    EvictOther(removed, capacity, k);
    var evicted := Evict(removed, capacity);
    AppendParts(evicted, x, w);
    if |newer| + 1 < capacity {
      AppendOther(evicted, x, w, k);
    }
  }

  lemma {:induction false} DropOther<K, V>(l: Entries<K, V>, x: K, capacity: int, k: K)
    requires capacity >= 1 && Fits(l, capacity) && k in KeySet(l) && x != k
    ensures KeptIffRoom(l, Remove(l, x), k, Newer(l, k) - {x}, capacity)
  {
    RemoveOther(l, x, k);
    RemoveParts(l, x);
    NewerSize(l, k);
    SubsetSize(Newer(l, k) - {x}, Newer(l, k));
  }

  /** An operation on another key keeps `k` exactly when the keys now newer than `k` leave it room. */
  lemma {:induction false} ApplyOther<K, V>(l: Entries<K, V>, op: Op<K, V>, capacity: int, k: K)
    requires capacity >= 1 && Fits(l, capacity) && k in KeySet(l) && op.key != k
    ensures KeptIffRoom(l, Apply(l, op, capacity), k, NewerAfter(l, op, k), capacity)
  {
    match op
    case Drop(x) => DropOther(l, x, capacity, k);
    case Store(x, w) => StoreOther(l, x, w, capacity, k);
    case Use(x) =>
      FindIsMembership(l, x);
      NewerSize(l, k);
      if x in KeySet(l) {
        UseOther(l, x, capacity, k);
      }
  }

  /**
   * A key that no operation of the run names stays, with its value, as long as the keys newer
   * than it and the keys touched since are fewer than the capacity.
   */
  lemma {:induction false} UntouchedSurvives<K, V>(l: Entries<K, V>, ops: seq<Op<K, V>>, capacity: int, k: K)
    requires capacity >= 1 && Fits(l, capacity) && k in KeySet(l)
    requires forall i | 0 <= i < |ops| :: ops[i].key != k
    requires |Newer(l, k) + Touched(l, ops, capacity)| < capacity
    ensures Find(Run(l, ops, capacity), k) == Find(l, k)
    decreases ops
  {
    if ops != [] {
      var next := Apply(l, ops[0], capacity);
      FindIsMembership(l, ops[0].key);
      ApplyFits(l, ops[0], capacity);
      ApplyOther(l, ops[0], capacity, k);
      var all := Newer(l, k) + Touched(l, ops, capacity);
      SubsetSize(NewerAfter(l, ops[0], k), all);
      SubsetSize(Newer(next, k) + Touched(next, ops[1..], capacity), all);
      UntouchedSurvives(next, ops[1..], capacity, k);
    }
  }

  lemma {:induction false} RunOne<K, V>(l: Entries<K, V>, op: Op<K, V>, capacity: int)
    ensures Run(l, [op], capacity) == Apply(l, op, capacity)
  {
    assert [op][1..] == [];
  }

  lemma {:induction false} RunConcat<K, V>(l: Entries<K, V>, a: seq<Op<K, V>>, b: seq<Op<K, V>>, capacity: int)
    ensures Run(l, a + b, capacity) == Run(Run(l, a, capacity), b, capacity)
    decreases a
  {
    if a == [] {
      assert a + b == b;
    } else {
      assert (a + b)[1..] == a[1..] + b;
      RunConcat(Apply(l, a[0], capacity), a[1..], b, capacity);
    }
  }

  lemma {:induction false} FindAppended<K, V>(l: Entries<K, V>, x: K, w: V, k: K)
    ensures Find(l + [(x, w)], k) == if Find(l, k) == None && k == x then Some(w) else Find(l, k)
  {
    if l != [] {
      assert (l + [(x, w)])[1..] == l[1..] + [(x, w)];
      FindAppended(l[1..], x, w, k);
    }
  }

  lemma {:induction false} RemovedFinds<K, V>(l: Entries<K, V>, x: K, k: K)
    requires DistinctKeys(l)
    ensures Find(Remove(l, x), k) == if x == k then None else Find(l, k)
  {
    if l != [] {
      FindIsMembership(l[1..], x);
      RemovedFinds(l[1..], x, k);
    }
  }

  lemma {:induction false} EvictFinds<K, V>(l: Entries<K, V>, capacity: int, k: K)
    requires DistinctKeys(l)
    ensures Find(Evict(l, capacity), k) == None || Find(Evict(l, capacity), k) == Find(l, k)
  {
    if l != [] {
      FindIsMembership(l[1..], k);
    }
  }

  /** What a store leaves of another key: its value, or nothing. */
  lemma {:induction false} InsertFinds<K, V>(l: Entries<K, V>, x: K, w: V, capacity: int, k: K)
    requires DistinctKeys(l)
    ensures Find(Insert(l, x, w, capacity), x) == Some(w)
    ensures x != k ==> Find(Insert(l, x, w, capacity), k) == None || Find(Insert(l, x, w, capacity), k) == Find(l, k)
  {
    var removed := Remove(l, x);
    var evicted := Evict(removed, capacity);
    RemoveParts(l, x);
    FindAppended(evicted, x, w, x);
    FindAppended(evicted, x, w, k);
    RemovedFinds(l, x, x);
    RemovedFinds(l, x, k);
    EvictFinds(removed, capacity, x);
    EvictFinds(removed, capacity, k);
  }

  /** What is newer than `k` and touched from here on, before and after one operation that deletes nothing. */
  lemma {:induction false} TouchedStep<K, V>(l: Entries<K, V>, ops: seq<Op<K, V>>, capacity: int, k: K)
    requires ops != [] && !ops[0].Drop?
    ensures Newer(l, k) + Touched(l, ops, capacity) ==
            NewerAfter(l, ops[0], k) + Touched(Apply(l, ops[0], capacity), ops[1..], capacity)
  {
    FindIsMembership(l, ops[0].key);
  }

  /** Without deletions the condition is exact: the key is gone as soon as the others fill the store. */
  lemma {:induction false} SurvivesExactly<K, V>(l: Entries<K, V>, ops: seq<Op<K, V>>, capacity: int, k: K)
    requires capacity >= 1 && Fits(l, capacity) && k in KeySet(l)
    requires forall i | 0 <= i < |ops| :: ops[i].key != k && !ops[i].Drop?
    ensures Find(Run(l, ops, capacity), k).Some? <==> |Newer(l, k) + Touched(l, ops, capacity)| < capacity
    decreases ops
  {
    NewerSize(l, k);
    if ops == [] {
      FindIsMembership(l, k);
      assert Newer(l, k) + Touched(l, ops, capacity) == Newer(l, k);
    } else {
      var next := Apply(l, ops[0], capacity);
      ApplyFits(l, ops[0], capacity);
      ApplyOther(l, ops[0], capacity, k);
      TouchedStep(l, ops, capacity, k);
      if |NewerAfter(l, ops[0], k)| < capacity {
        SurvivesExactly(next, ops[1..], capacity, k);
      } else {
        SubsetSize(NewerAfter(l, ops[0], k), Newer(l, k) + Touched(l, ops, capacity));
        GoneStaysGone(next, ops[1..], capacity, k);
      }
    }
  }

  lemma {:induction false} GoneStaysGone<K, V>(l: Entries<K, V>, ops: seq<Op<K, V>>, capacity: int, k: K)
    requires Fits(l, capacity) && k !in KeySet(l) && forall i | 0 <= i < |ops| :: ops[i].key != k
    ensures Find(Run(l, ops, capacity), k) == None
    decreases ops
  {
    FindIsMembership(l, k);
    if ops != [] {
      var x := ops[0].key;
      RemoveParts(l, x);
      ApplyFits(l, ops[0], capacity);
      if Find(l, x).Some? {
        AppendParts(Remove(l, x), x, Find(l, x).value);
      }
      if ops[0].Store? {
        AppendParts(Evict(Remove(l, x), capacity), x, ops[0].value);
      }
      GoneStaysGone(Apply(l, ops[0], capacity), ops[1..], capacity, k);
    }
  }

  /**
   * After its own last touch, an entry keeps its value while fewer than `capacity` distinct other keys
   * are touched; when nothing is deleted it is evicted as soon as that many have been.
   */
  lemma {:induction false} LastTouchDecides<K, V>(l: Entries<K, V>, touch: Op<K, V>, ops: seq<Op<K, V>>, capacity: int)
    requires capacity >= 1 && Fits(l, capacity)
    requires touch.Store? || (touch.Use? && Find(l, touch.key).Some?)
    requires forall i | 0 <= i < |ops| :: ops[i].key != touch.key
    ensures var next := Apply(l, touch, capacity);
            var held := if touch.Store? then Some(touch.value) else Find(l, touch.key);
            var others := Touched(next, ops, capacity);
            && (|others| < capacity ==> Find(Run(next, ops, capacity), touch.key) == held)
            && (|others| >= capacity && (forall i | 0 <= i < |ops| :: !ops[i].Drop?) ==>
                  Find(Run(next, ops, capacity), touch.key) == None)
  {
    var k, next := touch.key, Apply(l, touch, capacity);
    FindIsMembership(l, k);
    ApplyFits(l, touch, capacity);
    TouchIsNewest(l, touch, capacity);
    FindIsMembership(next, k);
    assert Newer(next, k) + Touched(next, ops, capacity) == Touched(next, ops, capacity);
    if |Touched(next, ops, capacity)| < capacity {
      UntouchedSurvives(next, ops, capacity, k);
    } else if forall i | 0 <= i < |ops| :: !ops[i].Drop? {
      SurvivesExactly(next, ops, capacity, k);
    }
  }

  lemma {:induction false} SubsetSize<K>(a: set<K>, b: set<K>)
    requires a <= b
    ensures |a| <= |b|
  {
    assert b == a + (b - a);
  }
}
