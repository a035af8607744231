/**
 * Percentages as the application shows them: `Math.round(c / t * 100)`,
 * and 0 when there is nothing to divide by, taken as exact-arithmetic
 * rounding: the integer nearest to 100c/t, ties going up. The application
 * computes in IEEE doubles, where a near-half ratio can land just below
 * the half (23/40 * 100 is 57.49999999999999), so this value can exceed
 * the one shown by one.
 */
module Percent {

  /** `total > 0 ? Math.round((correct / total) * 100) : 0`, rounded exactly. */
  function RoundedPercent(correct: nat, total: nat): (p: nat)
    ensures total == 0 ==> p == 0
    ensures total > 0 ==> 2 * total * p <= 200 * correct + total < 2 * total * (p + 1)
  {
    if total == 0 then 0 else (200 * correct + total) / (2 * total)
  }

  /** Multiplying by a non-negative factor keeps the order. */
  lemma MulMonotonic(k: nat, a: int, b: int)
    requires a <= b
    ensures k * a <= k * b
  {
  }

  /** A score of at most the number of questions is at most 100 percent. */
  lemma {:induction false} RoundedPercentAtMost100(correct: nat, total: nat)
    requires correct <= total
    ensures RoundedPercent(correct, total) <= 100
  {
    var p := RoundedPercent(correct, total);
    if total > 0 && p > 100 {
      MulMonotonic(2 * total, 101, p);
      assert false;
    }
  }

  /** More correct answers never lower the percentage. */
  lemma {:induction false} RoundedPercentMonotonic(c1: nat, c2: nat, total: nat)
    requires c1 <= c2
    ensures RoundedPercent(c1, total) <= RoundedPercent(c2, total)
  {
    if total > 0 {
      var p1 := RoundedPercent(c1, total);
      var p2 := RoundedPercent(c2, total);
      if p2 < p1 {
        MulMonotonic(2 * total, p2 + 1, p1);
        assert false;
      }
    }
  }

  /** All answers correct shows exactly 100, none correct shows exactly 0. */
  lemma {:induction false} RoundedPercentEnds(total: nat)
    requires total > 0
    ensures RoundedPercent(total, total) == 100
    ensures RoundedPercent(0, total) == 0
  {
    var p := RoundedPercent(total, total);
    if p < 100 {
      MulMonotonic(2 * total, p + 1, 100);
      assert false;
    } else if p > 100 {
      MulMonotonic(2 * total, 101, p);
      assert false;
    }
    var q := RoundedPercent(0, total);
    if q > 0 {
      MulMonotonic(2 * total, 1, q);
      assert false;
    }
  }
}
