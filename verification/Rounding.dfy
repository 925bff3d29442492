/** BigNumber's and Number's toFixed(0): to the nearest integer, halves away from zero. */
module Rounding {

  function ToFixed0(x: real): int {
    if x >= 0.0 then (x + 0.5).Floor else -(0.5 - x).Floor
  }

  lemma {:induction false} FloorIs(x: real, n: int)
    requires n as real <= x < n as real + 1.0
    ensures x.Floor == n
  {
  }

  lemma {:induction false} RoundsWithinHalf(x: real)
    requires x >= 0.0
    ensures ToFixed0(x) as real - 0.5 <= x < ToFixed0(x) as real + 0.5
    ensures ToFixed0(x) >= 0
  {
  }

  /** Below zero halves go down. */
  lemma {:induction false} RoundsWithinHalfBelow(x: real)
    requires x < 0.0
    ensures ToFixed0(x) as real - 0.5 < x <= ToFixed0(x) as real + 0.5
    ensures ToFixed0(x) <= 0
  {
  }

  lemma {:induction false} IntegersStay(n: nat)
    ensures ToFixed0(n as real) == n
  {
    FloorIs(n as real + 0.5, n);
  }

  /** Adding whole units commutes with rounding. */
  lemma {:induction false} WholeUnitsPass(n: nat, x: real)
    requires x >= 0.0
    ensures ToFixed0(n as real + x) == n + ToFixed0(x)
  {
    RoundsWithinHalf(x);
    FloorIs(n as real + x + 0.5, n + ToFixed0(x));
  }

  lemma {:induction false} NeverAboveWholeBound(x: real, bound: nat)
    requires 0.0 <= x <= bound as real
    ensures 0 <= ToFixed0(x) <= bound
  {
    RoundsWithinHalf(x);
  }

  lemma {:induction false} NotAboveWholeBound(x: real, bound: nat)
    requires x <= bound as real
    ensures ToFixed0(x) <= bound
  {
    if x >= 0.0 {
      NeverAboveWholeBound(x, bound);
    }
  }
}
