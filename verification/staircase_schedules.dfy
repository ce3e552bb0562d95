/** Properties of the three schedules built on the exponent `div_res`:
    exponential, natural-exponential and inverse-time decay. */
module StaircaseSchedules {
  import opened Wrappers
  import opened RealMath
  import opened Staircase
  import opened LearningRateDecay

  /** The real power agrees with the natural-exponent power on whole exponents. */
  ghost predicate ExtendsNaturalPower(pow: (real, real) -> real)
  {
    forall x: real, n: nat :: pow(x, n as real) == Pow(x, n)
  }

  /** The exponential never decreases. */
  ghost predicate NonDecreasing(exp: real -> real)
  {
    forall x, y :: x <= y ==> exp(x) <= exp(y)
  }

  // ---- exponential_decay ----

  /** In staircase mode the exponential rate holds still within each block of
      `decaySteps` steps. */
  lemma ExponentialConstantOnBlock(learningRate: real, s1: int, s2: int, decaySteps: int, decayRate: real,
                                   k: int, pow: (real, real) -> real)
    requires decaySteps > 0
    requires k * decaySteps <= s1 < (k + 1) * decaySteps
    requires k * decaySteps <= s2 < (k + 1) * decaySteps
    ensures ExponentialRate(learningRate, s1, decaySteps, decayRate, true, pow)
         == ExponentialRate(learningRate, s2, decaySteps, decayRate, true, pow)
         == learningRate * pow(decayRate, k as real)
  {
    StaircaseConstantOnBlock(s1, s2, decaySteps, k);
  }

  /** For a training step (non-negative), the staircase exponential rate is
      `learning_rate * decay_rate ^ (step / decay_steps)` with an integer power. */
  lemma ExponentialStaircaseIsIntegerPower(learningRate: real, step: int, decaySteps: int, decayRate: real,
                                           pow: (real, real) -> real)
    requires decaySteps > 0 && step >= 0
    requires ExtendsNaturalPower(pow)
    ensures ExponentialRate(learningRate, step, decaySteps, decayRate, true, pow)
         == learningRate * Pow(decayRate, step / decaySteps)
  {
    var n: nat := step / decaySteps;
    assert pow(decayRate, n as real) == Pow(decayRate, n);
  }

  /** At multiples of `decaySteps` the staircase and smooth schedules agree. */
  lemma ExponentialModesAgreeAtMultiples(learningRate: real, k: int, decaySteps: int, decayRate: real,
                                         pow: (real, real) -> real)
    requires decaySteps > 0
    ensures ExponentialRate(learningRate, k * decaySteps, decaySteps, decayRate, true, pow)
         == ExponentialRate(learningRate, k * decaySteps, decaySteps, decayRate, false, pow)
  {
    StaircaseExactAtMultiples(k, decaySteps);
  }

  /** Step 0 yields the initial rate whenever `x ** 0 == 1`. */
  lemma ExponentialStartsAtLearningRate(learningRate: real, decaySteps: int, decayRate: real,
                                        staircase: bool, pow: (real, real) -> real)
    requires decaySteps != 0
    requires pow(decayRate, 0.0) == 1.0
    ensures ExponentialRate(learningRate, 0, decaySteps, decayRate, staircase, pow) == learningRate
  {
    assert Quotient(0, decaySteps) == 0.0;
    assert Floor(0.0) == 0 by {
      FloorUnique(0.0, 0);
    }
  }

  // ---- natural_exp_decay ----

  /** In staircase mode the natural-exponential rate holds still within each
      block of `decaySteps` steps. */
  lemma NaturalExpConstantOnBlock(learningRate: real, s1: int, s2: int, decaySteps: int, decayRate: real,
                                  k: int, exp: real -> real)
    requires decaySteps > 0
    requires k * decaySteps <= s1 < (k + 1) * decaySteps
    requires k * decaySteps <= s2 < (k + 1) * decaySteps
    ensures NaturalExpRate(learningRate, s1, decaySteps, decayRate, true, exp)
         == NaturalExpRate(learningRate, s2, decaySteps, decayRate, true, exp)
  {
    StaircaseConstantOnBlock(s1, s2, decaySteps, k);
  }

  /** At multiples of `decaySteps` the staircase and smooth schedules agree. */
  lemma NaturalExpModesAgreeAtMultiples(learningRate: real, k: int, decaySteps: int, decayRate: real,
                                        exp: real -> real)
    requires decaySteps > 0
    ensures NaturalExpRate(learningRate, k * decaySteps, decaySteps, decayRate, true, exp)
         == NaturalExpRate(learningRate, k * decaySteps, decaySteps, decayRate, false, exp)
  {
    StaircaseExactAtMultiples(k, decaySteps);
  }

  /** With a non-decreasing, non-negative `exp`, a non-negative initial rate
      and a non-negative decay rate, the schedule never increases. */
  lemma NaturalExpNonIncreasing(learningRate: real, s1: int, s2: int, decaySteps: int, decayRate: real,
                                staircase: bool, exp: real -> real)
    requires decaySteps > 0 && s1 <= s2
    requires learningRate >= 0.0 && decayRate >= 0.0
    requires NonDecreasing(exp)
    ensures NaturalExpRate(learningRate, s2, decaySteps, decayRate, staircase, exp)
         <= NaturalExpRate(learningRate, s1, decaySteps, decayRate, staircase, exp)
  {
    var e1, e2 := DivRes(s1, decaySteps, staircase), DivRes(s2, decaySteps, staircase);
    DivResMonotone(s1, s2, decaySteps, staircase);
    var a1, a2 := NegatedExponent(decayRate, e1), NegatedExponent(decayRate, e2);
    assert a2 <= a1 by {
      assert a1 - a2 == decayRate * (e2 - e1);
      assert decayRate * (e2 - e1) >= 0.0;
    }
    assert exp(a2) <= exp(a1);
    assert learningRate * exp(a2) <= learningRate * exp(a1) by {
      assert learningRate * (exp(a1) - exp(a2)) >= 0.0;
    }
  }

  // ---- inverse_time_decay ----

  /** For a non-negative decay rate and step, the denominator is at least 1. */
  lemma InverseTimeDenominatorAtLeastOne(step: int, decaySteps: int, decayRate: real, staircase: bool)
    requires decaySteps > 0 && step >= 0 && decayRate >= 0.0
    ensures InverseTimeDenominator(step, decaySteps, decayRate, staircase) >= 1.0
  {
    var e := DivRes(step, decaySteps, staircase);
    assert decayRate * e >= 0.0;
  }

  /** Whenever `inverse_time_decay` succeeds, its rate times the denominator
      `1 + decay_rate * div_res` gives back the initial rate, in either mode. */
  lemma InverseTimeDecayInvertsDenominator(learningRate: real, step: Option<int>, decaySteps: int,
                                           decayRate: real, staircase: bool)
    requires decaySteps != 0
    requires step.Some? ==> InverseTimeDenominator(step.value, decaySteps, decayRate, staircase) != 0.0
    ensures var r := InverseTimeDecay(learningRate, step, decaySteps, decayRate, staircase);
            r.Success? ==> r.value * InverseTimeDenominator(step.value, decaySteps, decayRate, staircase) == learningRate
  {
    if step.Some? {
      var rate := InverseTimeRate(learningRate, step.value, decaySteps, decayRate, staircase);
      assert rate * InverseTimeDenominator(step.value, decaySteps, decayRate, staircase) == learningRate;
    }
  }

  /** In staircase mode the inverse-time rate holds still within each block. */
  lemma InverseTimeConstantOnBlock(learningRate: real, s1: int, s2: int, decaySteps: int, decayRate: real, k: int)
    requires decaySteps > 0
    requires k * decaySteps <= s1 < (k + 1) * decaySteps
    requires k * decaySteps <= s2 < (k + 1) * decaySteps
    requires 1.0 + decayRate * k as real != 0.0
    ensures InverseTimeDenominator(s1, decaySteps, decayRate, true) != 0.0
    ensures InverseTimeDenominator(s2, decaySteps, decayRate, true) != 0.0
    ensures InverseTimeRate(learningRate, s1, decaySteps, decayRate, true)
         == InverseTimeRate(learningRate, s2, decaySteps, decayRate, true)
         == learningRate / (1.0 + decayRate * k as real)
  {
    StaircaseConstantOnBlock(s1, s2, decaySteps, k);
    assert InverseTimeDenominator(s1, decaySteps, decayRate, true) == 1.0 + decayRate * k as real;
    assert InverseTimeDenominator(s2, decaySteps, decayRate, true) == 1.0 + decayRate * k as real;
  }

  /** In staircase mode the inverse-time rate can change between `step` and
      `step + 1` only when `step + 1` is a multiple of `decaySteps`, for every
      decay rate that keeps both denominators non-zero. */
  lemma InverseTimeChangesOnlyAtMultiples(learningRate: real, step: int, decaySteps: int, decayRate: real)
    requires decaySteps > 0
    requires InverseTimeDenominator(step, decaySteps, decayRate, true) != 0.0
    requires InverseTimeDenominator(step + 1, decaySteps, decayRate, true) != 0.0
    ensures InverseTimeRate(learningRate, step + 1, decaySteps, decayRate, true)
              != InverseTimeRate(learningRate, step, decaySteps, decayRate, true)
            ==> (step + 1) % decaySteps == 0
  {
    if (step + 1) % decaySteps != 0 {
      StaircaseStepsAtMultiples(step, decaySteps);
    }
  }

  /** For non-negative inputs the rate lies between 0 and the initial rate. */
  lemma InverseTimeBounded(learningRate: real, step: int, decaySteps: int, decayRate: real, staircase: bool)
    requires decaySteps > 0 && step >= 0 && decayRate >= 0.0 && learningRate >= 0.0
    ensures InverseTimeDenominator(step, decaySteps, decayRate, staircase) != 0.0
    ensures 0.0 <= InverseTimeRate(learningRate, step, decaySteps, decayRate, staircase) <= learningRate
  {
    InverseTimeDenominatorAtLeastOne(step, decaySteps, decayRate, staircase);
    var den := InverseTimeDenominator(step, decaySteps, decayRate, staircase);
    var r := InverseTimeRate(learningRate, step, decaySteps, decayRate, staircase);
    assert r * den == learningRate;
    assert r >= 0.0;
    assert r <= learningRate by {
      assert r * den >= r * 1.0;
    }
  }

  /** For non-negative inputs the rate never increases with the step. */
  lemma InverseTimeNonIncreasing(learningRate: real, s1: int, s2: int, decaySteps: int, decayRate: real,
                                 staircase: bool)
    requires decaySteps > 0 && 0 <= s1 <= s2 && decayRate >= 0.0 && learningRate >= 0.0
    ensures InverseTimeDenominator(s1, decaySteps, decayRate, staircase) != 0.0
    ensures InverseTimeDenominator(s2, decaySteps, decayRate, staircase) != 0.0
    ensures InverseTimeRate(learningRate, s2, decaySteps, decayRate, staircase)
         <= InverseTimeRate(learningRate, s1, decaySteps, decayRate, staircase)
  {
    InverseTimeDenominatorAtLeastOne(s1, decaySteps, decayRate, staircase);
    InverseTimeDenominatorAtLeastOne(s2, decaySteps, decayRate, staircase);
    DivResMonotone(s1, s2, decaySteps, staircase);
    var d1 := InverseTimeDenominator(s1, decaySteps, decayRate, staircase);
    var d2 := InverseTimeDenominator(s2, decaySteps, decayRate, staircase);
    assert d1 <= d2 by {
      assert d2 - d1 == decayRate * (DivRes(s2, decaySteps, staircase) - DivRes(s1, decaySteps, staircase));
    }
    ReciprocalOrder(learningRate, d1, d2);
  }

  /** The staircase rate is never below the smooth one: flooring shrinks the
      denominator. */
  lemma InverseTimeStaircaseAboveSmooth(learningRate: real, step: int, decaySteps: int, decayRate: real)
    requires decaySteps > 0 && step >= 0 && decayRate >= 0.0 && learningRate >= 0.0
    ensures InverseTimeDenominator(step, decaySteps, decayRate, true) != 0.0
    ensures InverseTimeDenominator(step, decaySteps, decayRate, false) != 0.0
    ensures InverseTimeRate(learningRate, step, decaySteps, decayRate, false)
         <= InverseTimeRate(learningRate, step, decaySteps, decayRate, true)
  {
    InverseTimeDenominatorAtLeastOne(step, decaySteps, decayRate, true);
    InverseTimeDenominatorAtLeastOne(step, decaySteps, decayRate, false);
    var ds := InverseTimeDenominator(step, decaySteps, decayRate, true);
    var dc := InverseTimeDenominator(step, decaySteps, decayRate, false);
    assert ds <= dc by {
      assert dc - ds == decayRate * (DivRes(step, decaySteps, false) - DivRes(step, decaySteps, true));
    }
    ReciprocalOrder(learningRate, ds, dc);
  }

  /** Step 0 yields the initial rate. */
  lemma InverseTimeStartsAtLearningRate(learningRate: real, decaySteps: int, decayRate: real, staircase: bool)
    requires decaySteps != 0
    ensures InverseTimeDenominator(0, decaySteps, decayRate, staircase) == 1.0
    ensures InverseTimeRate(learningRate, 0, decaySteps, decayRate, staircase) == learningRate
  {
    assert Quotient(0, decaySteps) == 0.0;
    FloorUnique(0.0, 0);
  }

  /** Dividing a non-negative number by a larger positive denominator gives a
      smaller quotient. */
  lemma ReciprocalOrder(x: real, d1: real, d2: real)
    requires x >= 0.0 && 0.0 < d1 <= d2
    ensures x / d2 <= x / d1
  {
    var q1, q2 := x / d1, x / d2;
    assert q1 * d1 == x && q2 * d2 == x;
    assert q2 >= 0.0;
    assert q2 * d1 <= q2 * d2 by {
      assert q2 * (d2 - d1) >= 0.0;
    }
    DivCompare(x, d1, q2);
  }
}
