/** Properties of `polynomial_decay`: the clamp of the step in plain mode and
    the stretched period in cycle mode. */
module Polynomial {
  import opened RealMath
  import opened Staircase
  import opened LearningRateDecay

  /** In cycle mode the period is the least multiple of `decaySteps` that is
      at least the step, and at least `decaySteps` itself. */
  lemma CyclePeriodBounds(step: int, decaySteps: int)
    requires decaySteps > 0 && step >= 0
    ensures PolynomialPeriod(step, decaySteps, true) >= decaySteps
    ensures PolynomialPeriod(step, decaySteps, true) >= step
    ensures step > 0 ==> PolynomialPeriod(step, decaySteps, true) - decaySteps < step
    ensures step == 0 ==> PolynomialPeriod(step, decaySteps, true) == decaySteps
    ensures PolynomialPeriod(step, decaySteps, true) % decaySteps == 0
  {
    var m := CycleMultiplier(step, decaySteps);
    var p := PolynomialPeriod(step, decaySteps, true);
    assert p == m * decaySteps;
    if step > 0 {
      assert m * decaySteps <= step + decaySteps - 1 < (m + 1) * decaySteps;
      Distribute(m, 1, decaySteps);
    }
    DivModUnique(p, decaySteps, m, 0);
  }

  /** Without the step-0 guard the cycle period at step 0 would be
      `decaySteps * ceil(0) == 0`. */
  lemma CycleGuardNeeded(decaySteps: int)
    requires decaySteps != 0
    ensures decaySteps * Ceil(Quotient(0, decaySteps)) == 0
    ensures PolynomialPeriod(0, decaySteps, true) == decaySteps
  {
    assert Quotient(0, decaySteps) == 0.0;
    CeilUnique(0.0, 0);
  }

  /** For a training step the fraction of the period elapsed lies in [0, 1],
      in either mode. */
  lemma FractionInUnitInterval(step: int, decaySteps: int, cycle: bool)
    requires decaySteps > 0 && step >= 0
    ensures 0.0 <= PolynomialFraction(step, decaySteps, cycle) <= 1.0
  {
    var s, p := PolynomialStep(step, decaySteps, cycle), PolynomialPeriod(step, decaySteps, cycle);
    if cycle {
      CyclePeriodBounds(step, decaySteps);
    }
    assert 0 <= s <= p;
    DivCompare(s as real, p as real, 1.0);
  }

  /** For a training step the rate stays between the end rate and the initial
      rate, whichever is larger. */
  lemma PolynomialBetweenRates(learningRate: real, step: int, decaySteps: int, endLearningRate: real,
                               power: nat, cycle: bool)
    requires decaySteps > 0 && step >= 0
    ensures endLearningRate <= learningRate ==>
              endLearningRate <= PolynomialRate(learningRate, step, decaySteps, endLearningRate, power, cycle)
                              <= learningRate
    ensures learningRate <= endLearningRate ==>
              learningRate <= PolynomialRate(learningRate, step, decaySteps, endLearningRate, power, cycle)
                           <= endLearningRate
  {
    var f := PolynomialFraction(step, decaySteps, cycle);
    FractionInUnitInterval(step, decaySteps, cycle);
    var x := Pow(1.0 - f, power);
    PowUnitInterval(1.0 - f, power);
    Interpolate(endLearningRate, learningRate, x);
  }

  /** Without `cycle`, once the step reaches `decaySteps` the rate stays at
      its value for `decaySteps`. */
  lemma PolynomialConstantAfterDecay(learningRate: real, step: int, decaySteps: int, endLearningRate: real,
                                     power: nat)
    requires decaySteps > 0 && step >= decaySteps
    ensures PolynomialRate(learningRate, step, decaySteps, endLearningRate, power, false)
         == PolynomialRate(learningRate, decaySteps, decaySteps, endLearningRate, power, false)
  {
  }

  /** Without `cycle` and for a positive power, the rate is the end rate once
      the step reaches `decaySteps`. */
  lemma PolynomialReachesEnd(learningRate: real, step: int, decaySteps: int, endLearningRate: real,
                             power: nat)
    requires decaySteps > 0 && step >= decaySteps && power >= 1
    ensures PolynomialRate(learningRate, step, decaySteps, endLearningRate, power, false) == endLearningRate
  {
    assert PolynomialStep(step, decaySteps, false) == decaySteps;
    var d := decaySteps as real;
    assert d / d == 1.0;
    assert PolynomialFraction(step, decaySteps, false) == 1.0;
    PowZero(power);
  }

  /** With `cycle` and a positive power, every multiple of `decaySteps` ends
      a cycle at the end rate. */
  lemma PolynomialCycleEndsAtMultiples(learningRate: real, k: int, decaySteps: int, endLearningRate: real,
                                       power: nat)
    requires decaySteps > 0 && k >= 1 && power >= 1
    ensures PolynomialPeriod(k * decaySteps, decaySteps, true) == k * decaySteps
    ensures PolynomialRate(learningRate, k * decaySteps, decaySteps, endLearningRate, power, true) == endLearningRate
  {
    var step := k * decaySteps;
    MulNonNegative(k - 1, decaySteps);
    Distribute(k - 1, 1, decaySteps);
    CeilOnBlock(step, decaySteps, k);
    assert step >= decaySteps;
    var x := step as real;
    assert x / x == 1.0;
    PowZero(power);
  }

  /** With `cycle` and periods longer than one step, the step after a
      multiple of `decaySteps` starts a new, longer cycle whose rate is again
      above the end rate. */
  lemma PolynomialCycleRestarts(learningRate: real, k: int, decaySteps: int, endLearningRate: real,
                                power: nat)
    requires decaySteps > 1 && k >= 1
    requires endLearningRate < learningRate
    ensures PolynomialPeriod(k * decaySteps + 1, decaySteps, true) == (k + 1) * decaySteps
    ensures endLearningRate < PolynomialRate(learningRate, k * decaySteps + 1, decaySteps, endLearningRate, power, true)
  {
    var step := k * decaySteps + 1;
    NextCyclePeriod(k, decaySteps);
    FractionBelowOne(step, decaySteps, true);
    var x := Pow(1.0 - PolynomialFraction(step, decaySteps, true), power);
    PowPositive(1.0 - PolynomialFraction(step, decaySteps, true), power);
    AboveEnd(learningRate, endLearningRate, x);
  }

  /** A step short of a positive period has elapsed less than the whole period. */
  lemma FractionBelowOne(step: int, decaySteps: int, cycle: bool)
    requires decaySteps != 0
    requires 0 <= PolynomialStep(step, decaySteps, cycle) < PolynomialPeriod(step, decaySteps, cycle)
    ensures PolynomialFraction(step, decaySteps, cycle) < 1.0
  {
    var s, p := PolynomialStep(step, decaySteps, cycle), PolynomialPeriod(step, decaySteps, cycle);
    DivCompare(s as real, p as real, 1.0);
  }

  /** A positive share of a positive span lies above the end rate. */
  lemma AboveEnd(learningRate: real, endLearningRate: real, x: real)
    requires endLearningRate < learningRate && x > 0.0
    ensures endLearningRate < Lerp(endLearningRate, learningRate, x)
  {
    assert (learningRate - endLearningRate) * x > 0.0;
  }

  /** The step after the `k`-th multiple of `decaySteps` falls in cycle `k + 1`. */
  lemma NextCyclePeriod(k: int, decaySteps: int)
    requires decaySteps > 1 && k >= 1
    ensures PolynomialPeriod(k * decaySteps + 1, decaySteps, true) == (k + 1) * decaySteps
    ensures 0 < k * decaySteps + 1 < (k + 1) * decaySteps
  {
    var step := k * decaySteps + 1;
    Distribute(k, 1, decaySteps);
    MulNonNegative(k, decaySteps);
    CeilOnBlock(step, decaySteps, k + 1);
  }

  /** Without `cycle`, when the end rate is not above the initial rate, the
      schedule never increases over training steps. */
  lemma PolynomialNonIncreasing(learningRate: real, s1: int, s2: int, decaySteps: int, endLearningRate: real,
                                power: nat)
    requires decaySteps > 0 && 0 <= s1 <= s2
    requires endLearningRate <= learningRate
    ensures PolynomialRate(learningRate, s2, decaySteps, endLearningRate, power, false)
         <= PolynomialRate(learningRate, s1, decaySteps, endLearningRate, power, false)
  {
    var f1, f2 := PolynomialFraction(s1, decaySteps, false), PolynomialFraction(s2, decaySteps, false);
    FractionInUnitInterval(s2, decaySteps, false);
    DivMonotone(PolynomialStep(s1, decaySteps, false) as real, PolynomialStep(s2, decaySteps, false) as real,
                decaySteps as real);
    PowMonotone(1.0 - f2, 1.0 - f1, power);
    MulMonotoneReal(learningRate - endLearningRate, Pow(1.0 - f2, power), Pow(1.0 - f1, power));
  }
}
