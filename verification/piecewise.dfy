/** Properties of `piecewise_decay`: the `Switch` picks the first case whose
    boundary lies above the step, and falls back to the last value. */
module Piecewise {
  import opened Wrappers
  import opened LearningRateDecay

  /** Boundaries listed in non-decreasing order. */
  predicate Sorted(boundaries: seq<int>)
  {
    forall i, j :: 0 <= i < j < |boundaries| ==> boundaries[i] <= boundaries[j]
  }

  /** Index `i` is the first case taken: every earlier condition fails and
      case `i` holds, or `i` is the default after all conditions fail. */
  predicate IsFirstCase(step: int, boundaries: seq<int>, i: int)
  {
    && 0 <= i <= |boundaries|
    && (forall j :: 0 <= j < i ==> boundaries[j] <= step)
    && (i < |boundaries| ==> step < boundaries[i])
  }

  /** The `Switch` as it runs: the length check, the step check, then the
      cases in boundary order until one holds, else the default. */
  method EvaluatePiecewise(step: Option<int>, boundaries: seq<int>, values: seq<real>)
    returns (r: Result<real, DecayError>)
    ensures r == PiecewiseDecay(step, boundaries, values)
    ensures r.Success? ==>
              exists i :: IsFirstCase(step.value, boundaries, i) && r.value == values[i]
  {
    if |values| - |boundaries| != 1 {
      return Failure(BoundaryCountMismatch);
    }
    if step.None? {
      return Failure(StepMissing("piecewise_decay"));
    }
    var s := step.value;
    var i := 0;
    while i < |boundaries| && boundaries[i] <= s
      invariant 0 <= i <= |boundaries|
      invariant forall j :: 0 <= j < i ==> boundaries[j] <= s
      invariant FirstCase(s, boundaries, i) == FirstCase(s, boundaries, 0)
    {
      i := i + 1;
    }
    assert IsFirstCase(s, boundaries, i);
    r := Success(values[i]);
  }

  /** The first case taken is exactly the one `FirstCase` finds. */
  lemma FirstCaseCharacterized(step: int, boundaries: seq<int>, i: int)
    ensures IsFirstCase(step, boundaries, i) <==> i == FirstCase(step, boundaries, 0)
  {
  }

  /** With sorted boundaries, a step in `[boundaries[i-1], boundaries[i])`
      gets `values[i]`; the first interval is open below and the last above. */
  lemma PiecewiseOnInterval(step: int, boundaries: seq<int>, values: seq<real>, i: int)
    requires |values| == |boundaries| + 1
    requires Sorted(boundaries)
    requires 0 <= i <= |boundaries|
    requires i > 0 ==> boundaries[i - 1] <= step
    requires i < |boundaries| ==> step < boundaries[i]
    ensures PiecewiseRate(step, boundaries, values) == values[i]
  {
    assert IsFirstCase(step, boundaries, i) by {
      forall j | 0 <= j < i
        ensures boundaries[j] <= step
      {
        assert boundaries[j] <= boundaries[i - 1];
      }
    }
    FirstCaseCharacterized(step, boundaries, i);
  }

  /** A larger step never selects an earlier case, whatever the order of the
      boundaries: every case the smaller step skips, the larger one skips too. */
  lemma FirstCaseMonotone(s1: int, s2: int, boundaries: seq<int>)
    requires s1 <= s2
    ensures FirstCase(s1, boundaries, 0) <= FirstCase(s2, boundaries, 0)
  {
  }

  /** Non-increasing values give a schedule that never increases with the
      step, whatever the order of the boundaries. */
  lemma PiecewiseNonIncreasing(s1: int, s2: int, boundaries: seq<int>, values: seq<real>)
    requires |values| == |boundaries| + 1
    requires forall i, j :: 0 <= i < j < |values| ==> values[j] <= values[i]
    requires s1 <= s2
    ensures PiecewiseRate(s2, boundaries, values) <= PiecewiseRate(s1, boundaries, values)
  {
    FirstCaseMonotone(s1, s2, boundaries);
  }

  /** The schedule of the doc comment: boundaries 10000 and 20000, values
      1.0, 0.5 and 0.1. */
  lemma DocumentedExample(step: int)
    ensures step < 10000 ==> PiecewiseDecay(Some(step), [10000, 20000], [1.0, 0.5, 0.1]) == Success(1.0)
    ensures 10000 <= step < 20000 ==> PiecewiseDecay(Some(step), [10000, 20000], [1.0, 0.5, 0.1]) == Success(0.5)
    ensures 20000 <= step ==> PiecewiseDecay(Some(step), [10000, 20000], [1.0, 0.5, 0.1]) == Success(0.1)
  {
    var b, v := [10000, 20000], [1.0, 0.5, 0.1];
    if step < 10000 {
      PiecewiseOnInterval(step, b, v, 0);
    } else if step < 20000 {
      PiecewiseOnInterval(step, b, v, 1);
    } else {
      PiecewiseOnInterval(step, b, v, 2);
    }
  }
}
