/** Identifiers of buttons: the action, an underscore, and the button's index in its block in decimal. */
module ActionIds {
  import opened JsText
  import opened Numerals

  const UNDERSCORE: CodeUnit := 95

  function ActionId(action: Text, idx: nat): Text {
    action + [UNDERSCORE] + Decimal(idx)
  }

  /** The last underscore of an identifier is the separator. */
  lemma {:induction false} NumberNotLonger(a: Text, i: nat, b: Text, j: nat)
    requires ActionId(a, i) == ActionId(b, j)
    ensures |Decimal(j)| <= |Decimal(i)|
  {
    var id := ActionId(b, j);
    DecimalHasDigits(j);
    assert id[|a|] == UNDERSCORE by {
      assert ActionId(a, i)[|a|] == UNDERSCORE;
    }
    assert forall k | |b| < k < |id| :: id[k] == Decimal(j)[k - |b| - 1];
  }

  /** Two buttons have the same identifier exactly when they have the same action at the same index. */
  lemma {:induction false} ActionIdInjective(a: Text, i: nat, b: Text, j: nat)
    ensures ActionId(a, i) == ActionId(b, j) <==> a == b && i == j
  {
    if ActionId(a, i) == ActionId(b, j) {
      NumberNotLonger(a, i, b, j);
      NumberNotLonger(b, j, a, i);
      var id := ActionId(a, i);
      assert id[..|a|] == a && id[|a| + 1..] == Decimal(i);
      assert ActionId(b, j)[..|a|] == b && ActionId(b, j)[|a| + 1..] == Decimal(j);
      DecimalInjective(i, j);
    }
  }
}
