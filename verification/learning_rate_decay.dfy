/** The five learning-rate schedules, each as a pure function from the
    training-step counter to a rate. The graph operators the source emits
    (division, `floor`, `ceil`, `elementwise_min`, `Switch`) are read as their
    mathematical meaning; the real-exponent power and `exp` are passed in. */
module LearningRateDecay {
  import opened Wrappers
  import opened RealMath
  import opened Staircase

  /** The validation errors the builders raise. */
  datatype DecayError =
    | StepMissing(schedule: string)  // "global_step is required for <schedule>."
    | BoundaryCountMismatch          // "len(values) - len(boundaries) should be 1"

  /** `learning_rate * decay_rate ** div_res`, with the real power `pow`. */
  function ExponentialRate(learningRate: real, step: int, decaySteps: int, decayRate: real,
                           staircase: bool, pow: (real, real) -> real): (r: real)
    requires decaySteps != 0
    ensures staircase && decaySteps > 0 ==>
              r == learningRate * pow(decayRate, (step / decaySteps) as real)
  {
    learningRate * pow(decayRate, DivRes(step, decaySteps, staircase))
  }

  /** The argument `-1 * decay_rate * div_res` handed to `exp`. */
  function NegatedExponent(decayRate: real, divRes: real): real
  {
    -1.0 * decayRate * divRes
  }

  /** `learning_rate * exp(-1 * decay_rate * div_res)`, with the exponential `exp`. */
  function NaturalExpRate(learningRate: real, step: int, decaySteps: int, decayRate: real,
                          staircase: bool, exp: real -> real): (r: real)
    requires decaySteps != 0
    ensures staircase && decaySteps > 0 ==>
              r == learningRate * exp(NegatedExponent(decayRate, (step / decaySteps) as real))
  {
    learningRate * exp(NegatedExponent(decayRate, DivRes(step, decaySteps, staircase)))
  }

  /** The denominator `1 + decay_rate * div_res` of the inverse-time schedule. */
  function InverseTimeDenominator(step: int, decaySteps: int, decayRate: real, staircase: bool): real
    requires decaySteps != 0
  {
    1.0 + decayRate * DivRes(step, decaySteps, staircase)
  }

  /** `learning_rate / (1 + decay_rate * div_res)`. */
  function InverseTimeRate(learningRate: real, step: int, decaySteps: int, decayRate: real,
                           staircase: bool): (r: real)
    requires decaySteps != 0
    requires InverseTimeDenominator(step, decaySteps, decayRate, staircase) != 0.0
    ensures r * InverseTimeDenominator(step, decaySteps, decayRate, staircase) == learningRate
    ensures staircase && decaySteps > 0 ==>
              r == learningRate / (1.0 + decayRate * (step / decaySteps) as real)
  {
    learningRate / InverseTimeDenominator(step, decaySteps, decayRate, staircase)
  }

  /** The multiplier `div_res` of the cycle period: `ceil(step / decay_steps)`,
      replaced by 1 at step 0. */
  function CycleMultiplier(step: int, decaySteps: int): (m: int)
    requires decaySteps != 0
    ensures decaySteps > 0 && step > 0 ==> m == (step + decaySteps - 1) / decaySteps
    ensures decaySteps > 0 && step >= 0 ==> m >= 1
  {
    assert decaySteps > 0 ==> Ceil(Quotient(step, decaySteps)) == (step + decaySteps - 1) / decaySteps by {
      if decaySteps > 0 {
        CeilIsIntegerDivision(step, decaySteps);
      }
    }
    if step == 0 then 1 else Ceil(Quotient(step, decaySteps))
  }

  /** The period the polynomial schedule divides by: `decay_steps`, stretched
      to `decay_steps * div_res` in cycle mode. */
  function PolynomialPeriod(step: int, decaySteps: int, cycle: bool): (p: int)
    requires decaySteps != 0
    ensures !cycle ==> p == decaySteps
    ensures decaySteps > 0 && step >= 0 ==> p >= decaySteps
  {
    assert decaySteps > 0 && step >= 0 ==> decaySteps * CycleMultiplier(step, decaySteps) >= decaySteps by {
      if decaySteps > 0 && step >= 0 {
        MulNonNegative(decaySteps, CycleMultiplier(step, decaySteps) - 1);
      }
    }
    if cycle then decaySteps * CycleMultiplier(step, decaySteps) else decaySteps
  }

  /** The step the polynomial schedule uses: clamped to `decay_steps` unless cycling. */
  function PolynomialStep(step: int, decaySteps: int, cycle: bool): (s: int)
    ensures s <= step
    ensures !cycle ==> s <= decaySteps && (s == step || s == decaySteps)
  {
    if cycle then step else Min(step, decaySteps)
  }

  /** `global_step / decay_steps` after clamping or stretching. */
  function PolynomialFraction(step: int, decaySteps: int, cycle: bool): real
    requires decaySteps != 0
    requires PolynomialPeriod(step, decaySteps, cycle) != 0
  {
    PolynomialStep(step, decaySteps, cycle) as real / PolynomialPeriod(step, decaySteps, cycle) as real
  }

  /** `(learning_rate - end_learning_rate) * (1 - step / period) ** power
      + end_learning_rate`, for a natural `power`: the point that share of the
      way from the end rate to the initial rate. */
  function PolynomialRate(learningRate: real, step: int, decaySteps: int, endLearningRate: real,
                          power: nat, cycle: bool): (r: real)
    requires decaySteps != 0
    requires PolynomialPeriod(step, decaySteps, cycle) != 0
    ensures power == 0 ==> r == learningRate
    ensures PolynomialFraction(step, decaySteps, cycle) == 0.0 ==> r == learningRate
    ensures power >= 1 && PolynomialFraction(step, decaySteps, cycle) == 1.0 ==> r == endLearningRate
  {
    var f := PolynomialFraction(step, decaySteps, cycle);
    assert f == 0.0 ==> Pow(1.0 - f, power) == 1.0 by {
      if f == 0.0 {
        PowOne(power);
      }
    }
    assert power >= 1 && f == 1.0 ==> Pow(1.0 - f, power) == 0.0 by {
      if power >= 1 && f == 1.0 {
        PowZero(power);
      }
    }
    Lerp(endLearningRate, learningRate, Pow(1.0 - PolynomialFraction(step, decaySteps, cycle), power))
  }

  /** Index of the first `Switch` case whose condition `step < boundaries[i]`
      holds, looking from `from` on; `|boundaries|` selects the default case. */
  function FirstCase(step: int, boundaries: seq<int>, from: nat): (i: nat)
    requires from <= |boundaries|
    ensures from <= i <= |boundaries|
    ensures forall j :: from <= j < i ==> boundaries[j] <= step
    ensures i < |boundaries| ==> step < boundaries[i]
    decreases |boundaries| - from
  {
    if from == |boundaries| then from
    else if step < boundaries[from] then from
    else FirstCase(step, boundaries, from + 1)
  }

  /** The rate the piecewise `Switch` assigns: the value of the first boundary
      above the step, or the last value when no boundary is. */
  function PiecewiseRate(step: int, boundaries: seq<int>, values: seq<real>): (r: real)
    requires |values| == |boundaries| + 1
    ensures r in values
    ensures (forall j :: 0 <= j < |boundaries| ==> boundaries[j] <= step) ==> r == values[|values| - 1]
    ensures forall i :: (0 <= i < |boundaries| && step < boundaries[i] &&
                         forall j :: 0 <= j < i ==> boundaries[j] <= step) ==> r == values[i]
  {
    values[FirstCase(step, boundaries, 0)]
  }

  /** `exponential_decay`: fails without a step counter. */
  function ExponentialDecay(learningRate: real, step: Option<int>, decaySteps: int, decayRate: real,
                            staircase: bool, pow: (real, real) -> real): (r: Result<real, DecayError>)
    requires decaySteps != 0
    ensures r.Failure? <==> step.None?
    ensures r.Failure? ==> r.error == StepMissing("exponential_decay")
    ensures r.Success? && staircase && decaySteps > 0 ==>
              r.value == learningRate * pow(decayRate, (step.value / decaySteps) as real)
  {
    match step
    case None => Failure(StepMissing("exponential_decay"))
    case Some(s) => Success(ExponentialRate(learningRate, s, decaySteps, decayRate, staircase, pow))
  }

  /** `natural_exp_decay`: fails without a step counter. */
  function NaturalExpDecay(learningRate: real, step: Option<int>, decaySteps: int, decayRate: real,
                           staircase: bool, exp: real -> real): (r: Result<real, DecayError>)
    requires decaySteps != 0
    ensures r.Failure? <==> step.None?
    ensures r.Failure? ==> r.error == StepMissing("natural_exp_decay")
    ensures r.Success? && staircase && decaySteps > 0 ==>
              r.value == learningRate * exp(NegatedExponent(decayRate, (step.value / decaySteps) as real))
  {
    match step
    case None => Failure(StepMissing("natural_exp_decay"))
    case Some(s) => Success(NaturalExpRate(learningRate, s, decaySteps, decayRate, staircase, exp))
  }

  /** `inverse_time_decay`: fails without a step counter. */
  function InverseTimeDecay(learningRate: real, step: Option<int>, decaySteps: int, decayRate: real,
                            staircase: bool): (r: Result<real, DecayError>)
    requires decaySteps != 0
    requires step.Some? ==> InverseTimeDenominator(step.value, decaySteps, decayRate, staircase) != 0.0
    ensures r.Failure? <==> step.None?
    ensures r.Failure? ==> r.error == StepMissing("inverse_time_decay")
    ensures r.Success? ==> r.value == InverseTimeRate(learningRate, step.value, decaySteps, decayRate, staircase)
    ensures r.Success? && staircase && decaySteps > 0 ==>
              r.value == learningRate / (1.0 + decayRate * (step.value / decaySteps) as real)
  {
    match step
    case None => Failure(StepMissing("inverse_time_decay"))
    case Some(s) => Success(InverseTimeRate(learningRate, s, decaySteps, decayRate, staircase))
  }

  /** `polynomial_decay` as written: a missing step counter raises the error
      message of `inverse_time_decay`. */
  function PolynomialDecayAsWritten(learningRate: real, step: Option<int>, decaySteps: int,
                                    endLearningRate: real, power: nat, cycle: bool): (r: Result<real, DecayError>)
    requires decaySteps != 0
    requires step.Some? ==> PolynomialPeriod(step.value, decaySteps, cycle) != 0
    ensures r.Failure? <==> step.None?
    ensures r.Failure? ==> r.error == StepMissing("inverse_time_decay")
  {
    match step
    case None => Failure(StepMissing("inverse_time_decay"))
    case Some(s) => Success(PolynomialRate(learningRate, s, decaySteps, endLearningRate, power, cycle))
  }

  /** `polynomial_decay`, with the missing-step error naming itself. */
  function PolynomialDecay(learningRate: real, step: Option<int>, decaySteps: int,
                           endLearningRate: real, power: nat, cycle: bool): (r: Result<real, DecayError>)
    requires decaySteps != 0
    requires step.Some? ==> PolynomialPeriod(step.value, decaySteps, cycle) != 0
    ensures r.Failure? <==> step.None?
    ensures r.Failure? ==> r.error == StepMissing("polynomial_decay")
    ensures r.Success? ==>
              r.value == PolynomialRate(learningRate, step.value, decaySteps, endLearningRate, power, cycle)
    ensures r.Success? && step.value == 0 && decaySteps > 0 ==> r.value == learningRate
  {
    match step
    case None => Failure(StepMissing("polynomial_decay"))
    case Some(s) =>
      var r := PolynomialRate(learningRate, s, decaySteps, endLearningRate, power, cycle);
      assert s == 0 && decaySteps > 0 ==> r == learningRate by {
        if s == 0 && decaySteps > 0 {
          PowOne(power);
        }
      }
      Success(r)
  }

  /** `piecewise_decay`: checks the list lengths, then the step counter. */
  function PiecewiseDecay(step: Option<int>, boundaries: seq<int>, values: seq<real>): (r: Result<real, DecayError>)
    ensures |values| != |boundaries| + 1 ==> r == Failure(BoundaryCountMismatch)
    ensures |values| == |boundaries| + 1 && step.None? ==> r == Failure(StepMissing("piecewise_decay"))
    ensures r.Success? <==> |values| == |boundaries| + 1 && step.Some?
    ensures r.Success? ==> r.value == PiecewiseRate(step.value, boundaries, values) && r.value in values
  {
    if |values| - |boundaries| != 1 then Failure(BoundaryCountMismatch)
    else match step
      case None => Failure(StepMissing("piecewise_decay"))
      case Some(s) => Success(PiecewiseRate(s, boundaries, values))
  }
}
