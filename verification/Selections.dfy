/** The items of a list that have a property, by their positions in order. */
module Selections {
  predicate Rising(at: seq<nat>) {
    forall k, l | 0 <= k < l < |at| :: at[k] < at[l]
  }

  predicate AllHave<T>(items: seq<T>, at: seq<nat>, p: T -> bool) {
    forall k | 0 <= k < |at| :: at[k] < |items| && p(items[at[k]])
  }

  predicate NoneMissed<T>(items: seq<T>, at: seq<nat>, p: T -> bool) {
    forall i: nat | i < |items| && p(items[i]) :: i in at
  }

  /** The positions, in order, of all items with the property. */
  predicate Selects<T>(items: seq<T>, at: seq<nat>, p: T -> bool) {
    Rising(at) && AllHave(items, at, p) && NoneMissed(items, at, p)
  }

  function OneLater(at: seq<nat>): (r: seq<nat>)
  {
    seq(|at|, i requires 0 <= i < |at| => at[i] + 1)
  }

  /** The positions when one more item stands in front. */
  function Behind<T>(x: T, at: seq<nat>, p: T -> bool): seq<nat> {
    (if p(x) then [0] else []) + OneLater(at)
  }

  lemma {:induction false} RisingBehind<T>(x: T, at: seq<nat>, p: T -> bool)
    requires Rising(at)
    ensures Rising(Behind(x, at, p))
  {
    assert Rising(OneLater(at));
    assert forall k | 0 <= k < |at| :: OneLater(at)[k] > 0;
  }

  lemma {:induction false} AllHaveBehind<T>(items: seq<T>, at: seq<nat>, p: T -> bool)
    requires items != [] && AllHave(items[1..], at, p)
    ensures AllHave(items, Behind(items[0], at, p), p)
  {
    forall k | 0 <= k < |at| ensures OneLater(at)[k] < |items| && p(items[OneLater(at)[k]]) {
      assert items[1..][at[k]] == items[OneLater(at)[k]];
    }
  }

  lemma {:induction false} NoneMissedBehind<T>(items: seq<T>, at: seq<nat>, p: T -> bool)
    requires items != [] && NoneMissed(items[1..], at, p)
    ensures NoneMissed(items, Behind(items[0], at, p), p)
  {
    forall i: nat | i < |items| && p(items[i]) ensures i in Behind(items[0], at, p) {
      if i > 0 {
        assert p(items[1..][i - 1]);
        var k :| 0 <= k < |at| && at[k] == i - 1;
        assert OneLater(at)[k] == i;
      }
    }
  }

  lemma {:induction false} SelectsCons<T>(items: seq<T>, at: seq<nat>, p: T -> bool)
    requires items != [] && Selects(items[1..], at, p)
    ensures Selects(items, Behind(items[0], at, p), p)
  {
    RisingBehind(items[0], at, p);
    AllHaveBehind(items, at, p);
    NoneMissedBehind(items, at, p);
  }
}
