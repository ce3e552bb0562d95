/** The validation errors of the five builders: a missing step counter, and
    for `piecewise_decay` a boundary/value count mismatch checked first. */
module Validation {
  import opened Wrappers
  import opened LearningRateDecay

  /** `polynomial_decay` as written reports a missing step counter with the
      very error `inverse_time_decay` raises, so a caller cannot tell which
      builder failed. */
  lemma PolynomialMessageNamesInverseTime()
    ensures PolynomialDecayAsWritten(0.1, None, 100, 0.0001, 1, false)
         == InverseTimeDecay(0.1, None, 100, 0.5, false)
    ensures PolynomialDecayAsWritten(0.1, None, 100, 0.0001, 1, false).error.schedule != "polynomial_decay"
  {
  }

  /** The corrected `polynomial_decay` and the one as written compute the same
      rate whenever a step counter is supplied; only the message differs. */
  lemma PolynomialVariantsAgreeOnRates(learningRate: real, step: Option<int>, decaySteps: int,
                                       endLearningRate: real, power: nat, cycle: bool)
    requires decaySteps != 0
    requires step.Some? ==> PolynomialPeriod(step.value, decaySteps, cycle) != 0
    ensures step.Some? ==>
              PolynomialDecay(learningRate, step, decaySteps, endLearningRate, power, cycle)
              == PolynomialDecayAsWritten(learningRate, step, decaySteps, endLearningRate, power, cycle)
    ensures step.None? ==>
              PolynomialDecay(learningRate, step, decaySteps, endLearningRate, power, cycle)
              != PolynomialDecayAsWritten(learningRate, step, decaySteps, endLearningRate, power, cycle)
  {
  }

  /** Without a step counter every builder fails, each with its own name, so
      the five errors are pairwise distinct. */
  lemma MissingStepErrorsDistinct(learningRate: real, decaySteps: int, decayRate: real, endLearningRate: real,
                                  power: nat, flag: bool, pow: (real, real) -> real, exp: real -> real,
                                  boundaries: seq<int>, values: seq<real>)
    requires decaySteps != 0
    requires |values| == |boundaries| + 1
    ensures var errors := [
              ExponentialDecay(learningRate, None, decaySteps, decayRate, flag, pow),
              NaturalExpDecay(learningRate, None, decaySteps, decayRate, flag, exp),
              InverseTimeDecay(learningRate, None, decaySteps, decayRate, flag),
              PolynomialDecay(learningRate, None, decaySteps, endLearningRate, power, flag),
              PiecewiseDecay(None, boundaries, values)];
            (forall i :: 0 <= i < 5 ==> errors[i].Failure? && errors[i].error.StepMissing?) &&
            (forall i, j :: 0 <= i < j < 5 ==> errors[i] != errors[j])
  {
  }

  /** `piecewise_decay` checks the list lengths before the step counter: a
      count mismatch is reported even when the step is missing too. */
  lemma PiecewiseLengthCheckedFirst(step: Option<int>, boundaries: seq<int>, values: seq<real>)
    requires |values| != |boundaries| + 1
    ensures PiecewiseDecay(step, boundaries, values) == Failure(BoundaryCountMismatch)
    ensures PiecewiseDecay(None, boundaries, values) != Failure(StepMissing("piecewise_decay"))
  {
  }
}
