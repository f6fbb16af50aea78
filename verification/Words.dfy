/** Words and their powers, and the last items of a history. */
module Words {

  /** `w` repeated `r` times. */
  function Power<T>(w: seq<T>, r: nat): seq<T> {
    if r == 0 then [] else w + Power(w, r - 1)
  }

  lemma {:induction false} PowerLength<T>(w: seq<T>, r: nat)
    ensures |Power(w, r)| == |w| * r
  {
    if r > 0 {
      PowerLength(w, r - 1);
    }
  }

  lemma {:induction false} PowerSplit<T>(w: seq<T>, a: nat, b: nat)
    ensures Power(w, a + b) == Power(w, a) + Power(w, b)
  {
    if a > 0 {
      PowerSplit(w, a - 1, b);
      assert Power(w, a + b) == w + (Power(w, a - 1) + Power(w, b));
    }
  }

  lemma {:induction false} PowerOfPower<T>(w: seq<T>, k: nat, r: nat)
    ensures Power(Power(w, k), r) == Power(w, k * r)
  {
    if r == 0 {
      assert k * r == 0;
    } else {
      PowerOfPower(w, k, r - 1);
      assert k * r == k + k * (r - 1);
      PowerSplit(w, k, k * (r - 1));
    }
  }

  /** The last `n` items of `s`, or all of `s` when it is shorter; nothing for a non-positive `n`. */
  function Last<T>(s: seq<T>, n: int): seq<T> {
    if n <= 0 then [] else if |s| <= n then s else s[|s| - n..]
  }

  lemma {:induction false} LastOfAppend<T>(s: seq<T>, more: seq<T>, n: int)
    ensures Last(Last(s, n) + more, n) == Last(s + more, n)
  {
  }

  lemma {:induction false} LastOfLast<T>(s: seq<T>, m: int, n: int)
    requires m <= n
    ensures Last(Last(s, n), m) == Last(s, m)
  {
  }

  predicate EndsWith<T(==)>(history: seq<T>, suffix: seq<T>) {
    |suffix| <= |history| && history[|history| - |suffix|..] == suffix
  }

  /** A history that ends in a repeated power ends in the repeated root. */
  lemma {:induction false} EndsInRoot<T>(history: seq<T>, root: seq<T>, k: nat, r: nat)
    requires k >= 1 && EndsWith(history, Power(Power(root, k), r))
    ensures EndsWith(history, Power(root, r))
  {
    PowerOfPower(root, k, r);
    assert k * r == (k - 1) * r + r;
    PowerSplit(root, (k - 1) * r, r);
  }
}
