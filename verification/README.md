# Learning-rate decay schedules

A Dafny model of the learning-rate decay helpers in
`python/paddle/v2/fluid/learning_rate_decay.py`. These are the five schedules
`exponential_decay`, `natural_exp_decay`, `inverse_time_decay`,
`polynomial_decay` and `piecewise_decay`. In the source, each builder emits
graph nodes that compute a scalar learning rate from a training-step counter
(`global_step`). The model reads every node as its mathematical meaning:

- division is real division;
- `layers.floor` and `layers.ceil` are the integer floor and ceiling of a real;
- `elementwise_min` is `min`;
- a `Switch` takes its first case whose condition holds, else its `default`.

Steps and `decay_steps` are `int`, rates are exact `real`s, and each builder is
a pure function. A missing step counter is `None` of an `Option<int>`. A raised
`ValueError` is a `Failure` of a `Result`.

Files and modules:

- `wrappers.dfy` (`Wrappers`): `Option` and `Result`.
- `real_math.dfy` (`RealMath`): `Floor`, `Ceil`, `Min`, and `Pow` with a natural exponent, plus arithmetic helper lemmas.
- `staircase.dfy` (`Staircase`): the exponent `div_res = global_step / decay_steps`, floored in staircase mode, which three schedules share. For positive `decay_steps`, the floored exponent is Euclidean integer division, it is constant on each block of `decay_steps` steps, and it moves only at multiples of `decay_steps`.
- `learning_rate_decay.dfy` (`LearningRateDecay`): the five schedules. Each has a rate function for a present step and a builder that returns a `Result`.
- `staircase_schedules.dfy` (`StaircaseSchedules`): properties of the exponential, natural-exponential and inverse-time schedules.
- `polynomial.dfy` (`Polynomial`): the clamp in plain mode, and the stretched period and its step-0 guard in cycle mode.
- `piecewise.dfy` (`Piecewise`): first-match selection, an executable evaluation of the `Switch`, and interval and monotonicity lemmas.
- `validation.dfy` (`Validation`): the error paths.

Where the docstrings and the code disagree, the model follows the code. The
docstring of `natural_exp_decay` (lines 75-80) gives the same formula for both
branches. The code floors the exponent in staircase mode (lines 97-98), and so
does the model. The model also keeps the order of the checks in
`piecewise_decay`: list lengths first, then the step counter (lines 212-216).

## Model

| member | source | states |
|---|---|---|
| RealMath.Floor | python/paddle/v2/fluid/learning_rate_decay.py:61-62 | `floor(x)` is the integer `k` with `k <= x < k + 1` |
| RealMath.Ceil | python/paddle/v2/fluid/learning_rate_decay.py:175 | `ceil(x)` is the integer `k` with `k - 1 < x <= k` |
| RealMath.PowOne | python/paddle/v2/fluid/learning_rate_decay.py:192 | `1 ** power == 1` for every natural `power`, which gives `learning_rate` at step 0 |
| RealMath.PowZero | python/paddle/v2/fluid/learning_rate_decay.py:192 | `0 ** power == 0` for `power >= 1`, which gives `end_learning_rate` at the end of a period |
| RealMath.PowUnitInterval | python/paddle/v2/fluid/learning_rate_decay.py:192 | a power of a base in `[0, 1]` stays in `[0, 1]` |
| RealMath.PowPositive | python/paddle/v2/fluid/learning_rate_decay.py:192 | a power of a positive base is positive |
| RealMath.PowMonotone | python/paddle/v2/fluid/learning_rate_decay.py:192 | on non-negative bases, `x ** power` grows with `x` |
| RealMath.Min | python/paddle/v2/fluid/learning_rate_decay.py:188-189 | `elementwise_min` returns one of its two arguments and is at most each |
| Staircase.DivRes | python/paddle/v2/fluid/learning_rate_decay.py:60-62 | the exponent is non-negative for a training step; in staircase mode it is `step / decay_steps` in integer division and lies within 1 below the real quotient |
| Staircase.FloorIsIntegerDivision | python/paddle/v2/fluid/learning_rate_decay.py:60-62 | `floor(step / decay_steps)` over the reals equals Euclidean integer division for positive `decay_steps` |
| Staircase.CeilIsIntegerDivision | python/paddle/v2/fluid/learning_rate_decay.py:175 | `ceil(step / decay_steps)` equals `(step + decay_steps - 1) / decay_steps` in integers |
| Staircase.StaircaseConstantOnBlock | python/paddle/v2/fluid/learning_rate_decay.py:60-62 | every step of block `k` (from `k * decay_steps` up to, not including, `(k + 1) * decay_steps`) has staircase exponent `k` |
| Staircase.StaircaseStepsAtMultiples | python/paddle/v2/fluid/learning_rate_decay.py:60-62 | the staircase exponent of `step + 1` differs from that of `step` only if `step + 1` is a multiple of `decay_steps` |
| Staircase.StaircaseExactAtMultiples | python/paddle/v2/fluid/learning_rate_decay.py:60-62 | at `k * decay_steps` the floored and unfloored exponents are both `k` |
| Staircase.DivResMonotone | python/paddle/v2/fluid/learning_rate_decay.py:60-62 | the exponent never decreases as the step grows, in either mode |
| LearningRateDecay.ExponentialRate | python/paddle/v2/fluid/learning_rate_decay.py:60-63 | in staircase mode the rate is `learning_rate * decay_rate ** (step / decay_steps)` with an integer-division exponent |
| LearningRateDecay.NaturalExpRate | python/paddle/v2/fluid/learning_rate_decay.py:96-99 | in staircase mode the rate is `learning_rate * exp(-1 * decay_rate * (step / decay_steps))` with an integer-division exponent |
| LearningRateDecay.InverseTimeRate | python/paddle/v2/fluid/learning_rate_decay.py:131-136 | the rate times `1 + decay_rate * div_res` (the denominator of line 136, `InverseTimeDenominator`) gives back `learning_rate`; in staircase mode the denominator uses integer division. Partner lemmas: `InverseTimeBounded`, `InverseTimeNonIncreasing` |
| LearningRateDecay.CycleMultiplier | python/paddle/v2/fluid/learning_rate_decay.py:174-183 | the cycle multiplier is `ceil(step / decay_steps)` as integer arithmetic for a positive step, and at least 1 for every training step, step 0 included |
| LearningRateDecay.PolynomialPeriod | python/paddle/v2/fluid/learning_rate_decay.py:174-187 | without `cycle` the period is `decay_steps`; for a training step it is never below `decay_steps` |
| LearningRateDecay.PolynomialStep | python/paddle/v2/fluid/learning_rate_decay.py:185-189 | without `cycle` the step is clamped: it is the step itself or `decay_steps`, and at most `decay_steps` |
| LearningRateDecay.PolynomialRate | python/paddle/v2/fluid/learning_rate_decay.py:191-192 | the rate `(learning_rate - end_learning_rate) * (1 - step / period) ** power + end_learning_rate`, where `step / period` is `PolynomialFraction` and `** power` is `RealMath.Pow` (repeated multiplication, with `x ** 0 == 1`): it is `learning_rate` when no part of the period has elapsed or the power is 0, and `end_learning_rate` when the whole period has elapsed and the power is at least 1. Partner lemmas: `PolynomialBetweenRates`, `PolynomialReachesEnd`, `PolynomialNonIncreasing`, and for `Pow` the rows `RealMath.PowOne` to `RealMath.PowMonotone` |
| LearningRateDecay.FirstCase | python/paddle/v2/fluid/learning_rate_decay.py:226-233 | the `Switch` case taken: every earlier boundary is at most the step, and the chosen boundary (if any) is above it |
| LearningRateDecay.PiecewiseRate | python/paddle/v2/fluid/learning_rate_decay.py:226-239 | the rate is one of `values`: `values[i]` for the first `i` with `step < boundaries[i]`, else the last value |
| LearningRateDecay.ExponentialDecay | python/paddle/v2/fluid/learning_rate_decay.py:55-65 | fails exactly when no step counter is given, naming `exponential_decay`; in staircase mode yields `learning_rate * decay_rate ** (step / decay_steps)` |
| LearningRateDecay.NaturalExpDecay | python/paddle/v2/fluid/learning_rate_decay.py:92-101 | fails exactly when no step counter is given, naming `natural_exp_decay`; in staircase mode yields the integer-exponent formula |
| LearningRateDecay.InverseTimeDecay | python/paddle/v2/fluid/learning_rate_decay.py:128-138 | fails exactly when no step counter is given, naming `inverse_time_decay`; otherwise yields the inverse-time rate of that step in either mode, which in staircase mode is `learning_rate / (1 + decay_rate * (step / decay_steps))` |
| StaircaseSchedules.InverseTimeDecayInvertsDenominator | python/paddle/v2/fluid/learning_rate_decay.py:131-138 | a successful result times `1 + decay_rate * div_res` is `learning_rate`, in either mode |
| LearningRateDecay.PolynomialDecayAsWritten | python/paddle/v2/fluid/learning_rate_decay.py:170-171 | as written, a missing step counter fails with the error naming `inverse_time_decay` |
| LearningRateDecay.PolynomialDecay | python/paddle/v2/fluid/learning_rate_decay.py:170-193 | fails exactly when no step counter is given, naming `polynomial_decay`; otherwise yields the polynomial rate of that step (so every `Polynomial` lemma applies to it), which at step 0 is `learning_rate` in either mode |
| LearningRateDecay.PiecewiseDecay | python/paddle/v2/fluid/learning_rate_decay.py:212-241 | fails with the count error unless `len(values) == len(boundaries) + 1`, then with the step error if no step is given; succeeds exactly when both checks pass, with the rate the `Switch` selects, which is one of `values` |
| Piecewise.EvaluatePiecewise | python/paddle/v2/fluid/learning_rate_decay.py:212-241 | running the checks and then the cases in boundary order agrees with `PiecewiseDecay`, and the value returned belongs to the first case taken |
| Piecewise.FirstCaseCharacterized | python/paddle/v2/fluid/learning_rate_decay.py:226-239 | an index is the first case taken if and only if it is the index `FirstCase` selects |
| Piecewise.PiecewiseOnInterval | python/paddle/v2/fluid/learning_rate_decay.py:199-209 | with sorted boundaries, a step in `[boundaries[i-1], boundaries[i])` gets `values[i]` |
| Piecewise.FirstCaseMonotone | python/paddle/v2/fluid/learning_rate_decay.py:226-233 | a larger step never selects an earlier case, whatever the order of the boundaries |
| Piecewise.PiecewiseNonIncreasing | python/paddle/v2/fluid/learning_rate_decay.py:226-239 | with non-increasing values the schedule never increases, whatever the order of the boundaries |
| Piecewise.DocumentedExample | python/paddle/v2/fluid/learning_rate_decay.py:199-209 | boundaries `[10000, 20000]` and values `[1.0, 0.5, 0.1]` give 1.0 below 10000, 0.5 up to 20000, then 0.1 |
| StaircaseSchedules.ExponentialConstantOnBlock | python/paddle/v2/fluid/learning_rate_decay.py:60-63 | in staircase mode the exponential rate is `learning_rate * decay_rate ** k` on every step of block `k` |
| StaircaseSchedules.ExponentialStaircaseIsIntegerPower | python/paddle/v2/fluid/learning_rate_decay.py:60-63 | if the power agrees with repeated multiplication on whole exponents, the staircase rate is `learning_rate * decay_rate ^ (step / decay_steps)` |
| StaircaseSchedules.ExponentialModesAgreeAtMultiples | python/paddle/v2/fluid/learning_rate_decay.py:60-63 | at multiples of `decay_steps` the staircase and smooth exponential rates coincide |
| StaircaseSchedules.ExponentialStartsAtLearningRate | python/paddle/v2/fluid/learning_rate_decay.py:60-63 | at step 0 the rate is `learning_rate` whenever `decay_rate ** 0 == 1` |
| StaircaseSchedules.NaturalExpConstantOnBlock | python/paddle/v2/fluid/learning_rate_decay.py:96-99 | in staircase mode the natural-exponential rate is the same on every step of one block |
| StaircaseSchedules.NaturalExpModesAgreeAtMultiples | python/paddle/v2/fluid/learning_rate_decay.py:96-99 | at multiples of `decay_steps` the staircase and smooth natural-exponential rates coincide |
| StaircaseSchedules.NaturalExpNonIncreasing | python/paddle/v2/fluid/learning_rate_decay.py:96-99 | for a non-decreasing `exp`, and for non-negative `learning_rate` and `decay_rate`, the rate never increases with the step |
| StaircaseSchedules.InverseTimeDenominatorAtLeastOne | python/paddle/v2/fluid/learning_rate_decay.py:136 | for a training step and a non-negative decay rate, `1 + decay_rate * div_res >= 1` |
| StaircaseSchedules.InverseTimeConstantOnBlock | python/paddle/v2/fluid/learning_rate_decay.py:131-136 | in staircase mode the rate is `learning_rate / (1 + decay_rate * k)` on every step of block `k` |
| StaircaseSchedules.InverseTimeChangesOnlyAtMultiples | python/paddle/v2/fluid/learning_rate_decay.py:131-136 | in staircase mode the rate can change from `step` to `step + 1` only when `step + 1` is a multiple of `decay_steps`, for every decay rate that keeps both denominators non-zero |
| StaircaseSchedules.InverseTimeBounded | python/paddle/v2/fluid/learning_rate_decay.py:112-116 | for non-negative inputs, `0 <= rate <= learning_rate` |
| StaircaseSchedules.InverseTimeNonIncreasing | python/paddle/v2/fluid/learning_rate_decay.py:131-136 | for non-negative inputs, the rate never increases as the step grows |
| StaircaseSchedules.InverseTimeStaircaseAboveSmooth | python/paddle/v2/fluid/learning_rate_decay.py:112-116 | for non-negative inputs, the staircase rate is never below the smooth rate |
| StaircaseSchedules.InverseTimeStartsAtLearningRate | python/paddle/v2/fluid/learning_rate_decay.py:131-136 | at step 0 the denominator is 1 and the rate is `learning_rate` |
| Polynomial.CyclePeriodBounds | python/paddle/v2/fluid/learning_rate_decay.py:174-184 | in cycle mode the period is a multiple of `decay_steps`, at least `decay_steps` and at least the step, and it is the least such multiple |
| Polynomial.CycleGuardNeeded | python/paddle/v2/fluid/learning_rate_decay.py:181-184 | at step 0, `decay_steps * ceil(0)` is 0; the guard makes the period `decay_steps` |
| Polynomial.FractionInUnitInterval | python/paddle/v2/fluid/learning_rate_decay.py:150-153 | for a training step, `step / period` lies in `[0, 1]` in either mode |
| Polynomial.PolynomialBetweenRates | python/paddle/v2/fluid/learning_rate_decay.py:154-156 | for a training step the rate lies between `end_learning_rate` and `learning_rate` |
| Polynomial.PolynomialConstantAfterDecay | python/paddle/v2/fluid/learning_rate_decay.py:185-192 | without `cycle`, every step at or past `decay_steps` has the rate of step `decay_steps` |
| Polynomial.PolynomialReachesEnd | python/paddle/v2/fluid/learning_rate_decay.py:185-192 | without `cycle` and with power at least 1, the rate is `end_learning_rate` from step `decay_steps` on |
| Polynomial.PolynomialCycleEndsAtMultiples | python/paddle/v2/fluid/learning_rate_decay.py:174-192 | with `cycle` and power at least 1, step `k * decay_steps` (`k >= 1`) has period `k * decay_steps` and rate `end_learning_rate` |
| Polynomial.PolynomialCycleRestarts | python/paddle/v2/fluid/learning_rate_decay.py:174-192 | with `cycle`, `decay_steps > 1`, `k >= 1` and `end_learning_rate < learning_rate`, the step after `k * decay_steps` has period `(k + 1) * decay_steps` and a rate strictly above `end_learning_rate` again |
| Polynomial.NextCyclePeriod | python/paddle/v2/fluid/learning_rate_decay.py:174-184 | the step after the `k`-th multiple of `decay_steps` falls in cycle `k + 1` |
| Polynomial.FractionBelowOne | python/paddle/v2/fluid/learning_rate_decay.py:191-192 | a step short of the period leaves `step / period` below 1 |
| Polynomial.PolynomialNonIncreasing | python/paddle/v2/fluid/learning_rate_decay.py:185-192 | without `cycle` and with `end_learning_rate <= learning_rate`, the rate never increases over training steps |
| Validation.PolynomialMessageNamesInverseTime | python/paddle/v2/fluid/learning_rate_decay.py:128-129 | as written, the missing-step error of `polynomial_decay` is identical to that of `inverse_time_decay` |
| Validation.PolynomialVariantsAgreeOnRates | python/paddle/v2/fluid/learning_rate_decay.py:170-193 | the corrected and as-written `polynomial_decay` give the same rate whenever a step is given, and differ only on the missing-step error |
| Validation.MissingStepErrorsDistinct | python/paddle/v2/fluid/learning_rate_decay.py:55-56 | without a step counter all five builders fail, each with a different error |
| Validation.PiecewiseLengthCheckedFirst | python/paddle/v2/fluid/learning_rate_decay.py:212-216 | a count mismatch is reported before, and instead of, a missing step |

## Findings

| source | as written | input that shows it | evidently intended | confidence | as-written member | corrected member |
|---|---|---|---|---|---|---|
| python/paddle/v2/fluid/learning_rate_decay.py:170-171 | `polynomial_decay` raises "global_step is required for inverse_time_decay." when the step is not a graph variable | `polynomial_decay(0.1, None, 100)` | the message names `polynomial_decay`, as the other four builders name themselves | high (copy of line 129); not executed | LearningRateDecay.PolynomialDecayAsWritten | LearningRateDecay.PolynomialDecay |

## Left out

- The real-exponent power `decay_rate ** div_res` (line 63) and `layers.exp` (line 99) are not definable over `real`. `ExponentialRate` and `NaturalExpRate` take them as function parameters (`pow`, `exp`). The lemmas about them assume only what each needs, such as `pow(x, n) == x ^ n` for whole `n` or `exp` being non-decreasing.
- ExponentialRate: states the rate only in staircase mode. The smooth mode is `learning_rate * pow(decay_rate, step / decay_steps)` for an arbitrary `pow`, and nothing more can be said about it.
- NaturalExpRate: states the rate only in staircase mode, for the same reason.
- ExponentialDecay: states the successful rate only in staircase mode, as for `ExponentialRate`.
- NaturalExpDecay: states the successful rate only in staircase mode, as for `NaturalExpRate`.
- Default arguments are not modelled: every flag and rate is an explicit parameter. The source's defaults are `staircase=False` (lines 37, 72, 108), `end_learning_rate=0.0001` (line 144), `power=1.0` (line 145) and `cycle=False` (line 146). A call that omits them is the model's call with those values.
- PolynomialDecay: `power` is a natural number. A fractional `power` (a Python float, default `1.0`) needs a real-exponent power. A fractional power of a negative base `1 - step / period`, which cycle mode gives for some negative steps, is NaN in the source.
- float32 rounding in `fill_constant`, `float(...)` and the graph arithmetic is not modelled; all arithmetic is exact.
- Division by zero is not modelled, because it gives IEEE infinity or NaN in the source. Every builder requires `decay_steps != 0`. `InverseTimeDecay` also requires a non-zero `1 + decay_rate * div_res`. `PolynomialDecay` also requires a non-zero cycle period. In cycle mode that period is zero exactly when the step is non-zero and `step / decay_steps` lies strictly between -1 and 0. For positive `decay_steps` these are the negative steps above `-decay_steps`. For negative `decay_steps` they are the positive steps below `-decay_steps`. For positive `decay_steps`, non-negative `decay_rate` and training steps, all of these requirements hold.
- DivRes: states its properties, and every staircase lemma holds, only for positive `decay_steps`. Negative `decay_steps` are computed by the model (the floor then rounds the negative quotient down, which is not Euclidean division), but no property is proved for them.
- PolynomialPeriod: states the period bounds only for training steps (step `>= 0`) and positive `decay_steps`. Negative steps and negative `decay_steps` are computed by the model, but no property is proved for them.
- The `isinstance(global_step, Variable)` check is modelled only as "step present or absent". A `learning_rate` given as a graph variable is modelled as its value.
- Graph construction is not modelled: `init_on_cpu`, `create_global_var`, `fill_constant`, `Switch`, `assign` and node naming. The persistent `learning_rate` variable of `piecewise_decay` starts at 0.0, but one branch of the `Switch`, a case or the default, always assigns it, so that initial value is never the result.
- Boundaries of `piecewise_decay` are integers. A fractional boundary `b` selects, for integer steps, exactly as `ceil(b)` would.
- python/paddle/v2/fluid/tests/unittests/test_parameter.py tests parameter creation, the executor, device places and serialization. That is execution-engine plumbing with no schedule logic.
