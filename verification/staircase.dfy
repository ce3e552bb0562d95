/** The exponent shared by the exponential, natural-exponential and
    inverse-time schedules: `global_step / decay_steps`, floored when the
    schedule is a staircase. */
module Staircase {
  import opened RealMath

  /** `global_step / decay_steps` as the graph computes it: a real quotient. */
  function Quotient(step: int, decaySteps: int): real
    requires decaySteps != 0
  {
    step as real / decaySteps as real
  }

  /** The exponent `div_res`: the quotient, floored when `staircase` is set. */
  function DivRes(step: int, decaySteps: int, staircase: bool): (e: real)
    requires decaySteps != 0
    ensures decaySteps > 0 && step >= 0 ==> e >= 0.0
    ensures staircase && decaySteps > 0 ==> e == (step / decaySteps) as real
    ensures staircase ==> e <= Quotient(step, decaySteps) < e + 1.0
  {
    var q := Quotient(step, decaySteps);
    if staircase then
      assert decaySteps > 0 ==> Floor(q) == step / decaySteps by {
        if decaySteps > 0 {
          FloorIsIntegerDivision(step, decaySteps);
        }
      }
      Floor(q) as real
    else
      q
  }

  /** Every step of block `k` (the `decaySteps` steps from `k * decaySteps`)
      has floored exponent `k`. */
  lemma FloorOnBlock(step: int, decaySteps: int, k: int)
    requires decaySteps > 0
    requires k * decaySteps <= step < (k + 1) * decaySteps
    ensures Floor(Quotient(step, decaySteps)) == k
  {
    var d := decaySteps as real;
    var q := Quotient(step, decaySteps);
    assert k as real * d <= step as real;
    assert step as real < (k as real + 1.0) * d;
    DivCompare(step as real, d, k as real);
    DivCompare(step as real, d, k as real + 1.0);
    FloorUnique(q, k);
  }

  /** The floored real quotient is Euclidean integer division. */
  lemma FloorIsIntegerDivision(step: int, decaySteps: int)
    requires decaySteps > 0
    ensures Floor(Quotient(step, decaySteps)) == step / decaySteps
  {
    var k := step / decaySteps;
    assert k * decaySteps <= step < (k + 1) * decaySteps;
    FloorOnBlock(step, decaySteps, k);
  }

  /** Every step in `((m - 1) * decaySteps, m * decaySteps]` has ceiling `m`. */
  lemma CeilOnBlock(step: int, decaySteps: int, m: int)
    requires decaySteps > 0
    requires (m - 1) * decaySteps < step <= m * decaySteps
    ensures Ceil(Quotient(step, decaySteps)) == m
  {
    var d := decaySteps as real;
    var q := Quotient(step, decaySteps);
    assert (m as real - 1.0) * d < step as real;
    assert step as real <= m as real * d;
    DivCompare(step as real, d, m as real);
    DivCompare(step as real, d, m as real - 1.0);
    CeilUnique(q, m);
  }

  /** The ceiling of the real quotient, as integer arithmetic. */
  lemma CeilIsIntegerDivision(step: int, decaySteps: int)
    requires decaySteps > 0
    ensures Ceil(Quotient(step, decaySteps)) == (step + decaySteps - 1) / decaySteps
  {
    var m := (step + decaySteps - 1) / decaySteps;
    assert m * decaySteps <= step + decaySteps - 1 < (m + 1) * decaySteps;
    CeilOnBlock(step, decaySteps, m);
  }

  /** The exponent never decreases as the step grows (for a positive period). */
  lemma DivResMonotone(s1: int, s2: int, decaySteps: int, staircase: bool)
    requires decaySteps > 0
    requires s1 <= s2
    ensures DivRes(s1, decaySteps, staircase) <= DivRes(s2, decaySteps, staircase)
  {
    var q1, q2 := Quotient(s1, decaySteps), Quotient(s2, decaySteps);
    DivMonotone(s1 as real, s2 as real, decaySteps as real);
    FloorMonotone(q1, q2);
  }

  /** Two steps inside the same block of `decaySteps` steps share their
      staircase exponent. */
  lemma StaircaseConstantOnBlock(s1: int, s2: int, decaySteps: int, k: int)
    requires decaySteps > 0
    requires k * decaySteps <= s1 < (k + 1) * decaySteps
    requires k * decaySteps <= s2 < (k + 1) * decaySteps
    ensures DivRes(s1, decaySteps, true) == DivRes(s2, decaySteps, true) == k as real
  {
    FloorOnBlock(s1, decaySteps, k);
    FloorOnBlock(s2, decaySteps, k);
  }

  /** The staircase exponent moves only when the step reaches a multiple of
      `decaySteps`. */
  lemma StaircaseStepsAtMultiples(step: int, decaySteps: int)
    requires decaySteps > 0
    requires (step + 1) % decaySteps != 0
    ensures DivRes(step + 1, decaySteps, true) == DivRes(step, decaySteps, true)
  {
    var k, r := step / decaySteps, step % decaySteps;
    assert step == k * decaySteps + r;
    if r + 1 == decaySteps {
      DivModUnique(step + 1, decaySteps, k + 1, 0);
      assert false;
    }
    assert step + 1 < (k + 1) * decaySteps;
    StaircaseConstantOnBlock(step, step + 1, decaySteps, k);
  }

  /** At a multiple of `decaySteps` the floor has no effect. */
  lemma StaircaseExactAtMultiples(k: int, decaySteps: int)
    requires decaySteps > 0
    ensures DivRes(k * decaySteps, decaySteps, true) == DivRes(k * decaySteps, decaySteps, false) == k as real
  {
    FloorOnBlock(k * decaySteps, decaySteps, k);
    var d := decaySteps as real;
    assert (k * decaySteps) as real == k as real * d;
    assert Quotient(k * decaySteps, decaySteps) == k as real;
  }
}
