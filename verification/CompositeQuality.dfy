/** The composite quality weights and the score blended with them. */
module CompositeQuality {
  import opened Basics
  import opened RealFacts

  datatype Weights = Weights(visual: real, performance: real)

  const DEFAULT_WEIGHTS := Weights(0.6, 0.4)

  /** Weights as configured: either may be missing. */
  datatype WeightsInput = WeightsInput(visual: Option<real>, performance: Option<real>)

  function RoundToFourDecimals(x: real): real {
    Round(x * 10000.0) as real / 10000.0
  }

  predicate InUnit(w: Option<real>) {
    w.Some? ==> 0.0 <= w.value <= 1.0
  }

  /** The weights before normalisation: a missing one complements the other. */
  function Completed(input: WeightsInput): (real, real)
    requires input.visual.Some? || input.performance.Some?
  {
    if input.visual.None? then (1.0 - input.performance.value, input.performance.value)
    else if input.performance.None? then (input.visual.value, 1.0 - input.visual.value)
    else (input.visual.value, input.performance.value)
  }

  /** resolveCompositeQualityWeights. */
  function ResolveWeights(input: Option<WeightsInput>): Result<Weights> {
    if input.None? then Ok(DEFAULT_WEIGHTS)
    else if !InUnit(input.value.visual) || !InUnit(input.value.performance) then Err("weight must be within 0..1")
    else if input.value.visual.None? && input.value.performance.None? then Ok(DEFAULT_WEIGHTS)
    else
      var (visual, performance) := Completed(input.value);
      var sum := visual + performance;
      if sum <= 0.0 then Err("weights must sum to a positive value")
      else Ok(Weights(RoundToFourDecimals(visual / sum), RoundToFourDecimals(performance / sum)))
  }

  // ---- How far the weights are from the exact shares -------------------------------------------

  /** The share of the visual score before rounding. */
  function VisualShare(input: Option<WeightsInput>): real
    requires ResolveWeights(input).Ok?
  {
    if input.None? || (input.value.visual.None? && input.value.performance.None?) then 0.6
    else
      var (visual, performance) := Completed(input.value);
      visual / (visual + performance)
  }

  lemma SharesComplement(visual: real, performance: real)
    requires visual >= 0.0 && performance >= 0.0 && visual + performance > 0.0
    ensures performance / (visual + performance) == 1.0 - visual / (visual + performance)
    ensures 0.0 <= visual / (visual + performance) <= 1.0
  {
    var sum := visual + performance;
    QuotientTimes(visual, sum);
    Distribute(sum, 1.0, -(visual / sum));
    QuotientIs(performance, sum, 1.0 - visual / sum);
    QuotientIsBetween(0.0, visual, 1.0, sum);
  }

  /** Every accepted configuration resolves to a share in 0..1 and its complement, both rounded. */
  lemma WeightsAreRoundedShares(input: Option<WeightsInput>)
    requires ResolveWeights(input).Ok?
    ensures 0.0 <= VisualShare(input) <= 1.0
    ensures ResolveWeights(input).value
         == Weights(RoundToFourDecimals(VisualShare(input)), RoundToFourDecimals(1.0 - VisualShare(input)))
  {
    if input.Some? && (input.value.visual.Some? || input.value.performance.Some?) {
      var (visual, performance) := Completed(input.value);
      SharesComplement(visual, performance);
    } else {
      assert (0.6 * 10000.0 + 0.5).Floor == 6000 && (0.4 * 10000.0 + 0.5).Floor == 4000;
    }
  }

  /** A configuration is refused exactly when a weight is outside 0..1 or both are given as zero. */
  lemma RefusedExactly(input: Option<WeightsInput>)
    ensures ResolveWeights(input).Err? <==>
              input.Some? && (!InUnit(input.value.visual) || !InUnit(input.value.performance)
                              || input.value == WeightsInput(Some(0.0), Some(0.0)))
  {
  }

  /** The visual share is the visual weight over both; a missing weight complements the other, and without
      any the share is three fifths. */
  lemma SharesOfConfiguration(visual: Option<real>, performance: Option<real>)
    requires ResolveWeights(Some(WeightsInput(visual, performance))).Ok?
    ensures var share := VisualShare(Some(WeightsInput(visual, performance)));
            && (visual.None? && performance.None? ==> share == 0.6)
            && (visual.Some? && performance.None? ==> share == visual.value)
            && (visual.None? && performance.Some? ==> share == 1.0 - performance.value)
            && (visual.Some? && performance.Some? ==> share * (visual.value + performance.value) == visual.value)
    ensures ResolveWeights(None) == Ok(Weights(0.6, 0.4))
  {
    if visual.Some? && performance.Some? {
      QuotientTimes(visual.value, visual.value + performance.value);
    } else if visual.Some? {
      QuotientIs(visual.value, 1.0, visual.value);
    } else if performance.Some? {
      QuotientIs(1.0 - performance.value, 1.0, 1.0 - performance.value);
    }
  }

  predicate IsTie(share: real) {
    (share * 10000.0 + 0.5).Floor as real == share * 10000.0 + 0.5
  }

  lemma RoundComplement(y: real)
    ensures Round(y) + Round(10000.0 - y) == if (y + 0.5).Floor as real == y + 0.5 then 10001 else 10000
  {
    var k := (y + 0.5).Floor;
    if k as real == y + 0.5 {
      assert (10000.0 - y + 0.5).Floor == 10001 - k;
    } else {
      assert (10000.0 - y + 0.5).Floor == 10000 - k;
    }
  }

  lemma FourDecimalBounds(x: real)
    ensures Abs(RoundToFourDecimals(x) - x) <= 0.00005
    ensures 0.0 <= x ==> 0.0 <= RoundToFourDecimals(x)
  {
    assert x * 10000.0 - 0.5 <= Round(x * 10000.0) as real <= x * 10000.0 + 0.5;
  }

  /** The weights sum to 1, or to 1.0001 exactly when rounding met a tie, and each is within half a
      ten-thousandth of its exact share. */
  lemma WeightsSumToAboutOne(input: Option<WeightsInput>)
    requires ResolveWeights(input).Ok?
    ensures var w, share := ResolveWeights(input).value, VisualShare(input);
            && Abs(w.visual - share) <= 0.00005 && Abs(w.performance - (1.0 - share)) <= 0.00005
            && w.visual >= 0.0 && w.performance >= 0.0
            && w.visual + w.performance == if IsTie(share) then 1.0001 else 1.0
  {
    WeightsAreRoundedShares(input);
    var share := VisualShare(input);
    FourDecimalBounds(share);
    FourDecimalBounds(1.0 - share);
    RoundComplement(share * 10000.0);
    assert (1.0 - share) * 10000.0 == 10000.0 - share * 10000.0;
  }

  /** A tie does occur: the weights 0.00005 and 0.99995 resolve to 0.0001 and 1. */
  lemma TiesOccur()
    ensures ResolveWeights(Some(WeightsInput(Some(0.00005), None))) == Ok(Weights(0.0001, 1.0))
  {
    QuotientIs(0.00005, 0.00005 + (1.0 - 0.00005), 0.00005);
    QuotientIs(1.0 - 0.00005, 0.00005 + (1.0 - 0.00005), 0.99995);
    assert (0.00005 * 10000.0 + 0.5).Floor == 1;
    assert (0.99995 * 10000.0 + 0.5).Floor == 10000;
  }

  // ---- The blended score -----------------------------------------------------------------------

  datatype Dimension = Visual | Performance

  datatype Composite = Composite(score: Option<real>, included: seq<Dimension>)

  predicate InRange(score: Option<real>) {
    score.Some? ==> 0.0 <= score.value <= 100.0
  }

  function Blend(w: Weights, visual: real, performance: real): real {
    w.visual * visual + w.performance * performance
  }

  /** computeCompositeQualityScore. */
  function CompositeScore(visual: Option<real>, performance: Option<real>, weights: Weights): Result<Composite> {
    if !InRange(visual) || !InRange(performance) then Err("must be within 0..100")
    else if visual.None? && performance.None? then Ok(Composite(None, []))
    else if performance.None? then Ok(Composite(Some(RoundToTwoDecimals(visual.value)), [Visual]))
    else if visual.None? then Ok(Composite(Some(RoundToTwoDecimals(performance.value)), [Performance]))
    else
      Ok(Composite(Some(RoundToTwoDecimals(Blend(weights, visual.value, performance.value))), [Visual, Performance]))
  }

  function Lower(a: real, b: real): real {
    if a <= b then a else b
  }

  function Higher(a: real, b: real): real {
    if a <= b then b else a
  }

  lemma BlendIsAtLeast(w: Weights, x: real, y: real, lo: real)
    requires w.visual >= 0.0 && w.performance >= 0.0 && w.visual + w.performance >= 1.0
    requires 0.0 <= lo <= x && lo <= y
    ensures lo <= Blend(w, x, y)
  {
    assert w.visual * (x - lo) >= 0.0 && w.performance * (y - lo) >= 0.0;
    assert (w.visual + w.performance - 1.0) * lo >= 0.0;
  }

  lemma BlendIsAtMost(w: Weights, x: real, y: real, hi: real, total: real)
    requires w.visual >= 0.0 && w.performance >= 0.0 && w.visual + w.performance == total && x <= hi && y <= hi
    ensures Blend(w, x, y) <= total * hi
  {
    assert total * hi == w.visual * hi + w.performance * hi;
    assert w.visual * (hi - x) >= 0.0 && w.performance * (hi - y) >= 0.0;
  }

  /** The most a composite may exceed the higher score by, as a factor: 1 away from ties. */
  function Excess(input: Option<WeightsInput>): real
    requires ResolveWeights(input).Ok?
  {
    if IsTie(VisualShare(input)) then 1.0001 else 1.0
  }

  /** A blend with resolved weights lies between the lower score and the higher score times the sum of
      the weights. */
  lemma BlendIsBounded(input: Option<WeightsInput>, w: Weights, visual: real, performance: real)
    requires ResolveWeights(input) == Ok(w) && 0.0 <= visual && 0.0 <= performance
    ensures Lower(visual, performance) <= Blend(w, visual, performance) <= Excess(input) * Higher(visual, performance)
  {
    WeightsSumToAboutOne(input);
    BlendIsAtLeast(w, visual, performance, Lower(visual, performance));
    BlendIsAtMost(w, visual, performance, Higher(visual, performance), Excess(input));
  }

  /** With both scores present, the composite lies between the rounded lower and the rounded higher
      score; only at a tie may it exceed the latter, by a factor of 1.0001. */
  lemma CompositeIsBounded(input: Option<WeightsInput>, w: Weights, visual: real, performance: real)
    requires ResolveWeights(input) == Ok(w) && 0.0 <= visual <= 100.0 && 0.0 <= performance <= 100.0
    ensures exists composite ::
              && CompositeScore(Some(visual), Some(performance), w) == Ok(Composite(Some(composite), [Visual, Performance]))
              && RoundToTwoDecimals(Lower(visual, performance)) <= composite
              && composite <= RoundToTwoDecimals(Excess(input) * Higher(visual, performance))
  {
    var raw := Blend(w, visual, performance);
    BlendIsBounded(input, w, visual, performance);
    RoundingIsMonotone(Lower(visual, performance), raw);
    RoundingIsMonotone(raw, Excess(input) * Higher(visual, performance));
    assert CompositeScore(Some(visual), Some(performance), w) == Ok(Composite(Some(RoundToTwoDecimals(raw)), [Visual, Performance]));
  }

  lemma ErrorIsAtMost(error: real, score: real)
    requires error <= 0.00005 && 0.0 <= score <= 100.0
    ensures error * score <= 0.005
  {
    ProductIsNonNegative(0.00005 - error, score);
    assert (0.00005 - error) * score == 0.00005 * score - error * score;
  }

  lemma SmallErrorTimesScore(error: real, score: real)
    requires -0.00005 <= error <= 0.00005 && 0.0 <= score <= 100.0
    ensures -0.005 <= error * score <= 0.005
  {
    ErrorIsAtMost(error, score);
    ErrorIsAtMost(-error, score);
    assert (-error) * score == -(error * score);
  }

  lemma BlendError(w: Weights, exact: Weights, x: real, y: real)
    requires Abs(w.visual - exact.visual) <= 0.00005 && Abs(w.performance - exact.performance) <= 0.00005
    requires 0.0 <= x <= 100.0 && 0.0 <= y <= 100.0
    ensures Abs(Blend(w, x, y) - Blend(exact, x, y)) <= 0.01
  {
    SmallErrorTimesScore(w.visual - exact.visual, x);
    SmallErrorTimesScore(w.performance - exact.performance, y);
    assert Blend(w, x, y) - Blend(exact, x, y) == (w.visual - exact.visual) * x + (w.performance - exact.performance) * y;
  }

  /** The exact blend: the visual share of the visual score and the rest of the performance score. */
  function ExactBlend(share: real, visual: real, performance: real): real {
    share * visual + (1.0 - share) * performance
  }

  lemma ExactBlendIsBlend(share: real, visual: real, performance: real)
    ensures ExactBlend(share, visual, performance) == Blend(Weights(share, 1.0 - share), visual, performance)
  {
  }

  /** The composite is within 0.015 of the visual share of the visual score plus the rest of the
      performance score, shares and result unrounded. */
  lemma CompositeIsAccurate(input: Option<WeightsInput>, w: Weights, visual: real, performance: real)
    requires ResolveWeights(input) == Ok(w) && 0.0 <= visual <= 100.0 && 0.0 <= performance <= 100.0
    ensures exists composite ::
              && CompositeScore(Some(visual), Some(performance), w) == Ok(Composite(Some(composite), [Visual, Performance]))
              && Abs(composite - ExactBlend(VisualShare(input), visual, performance)) <= 0.015
  {
    var raw := Blend(w, visual, performance);
    WeightsSumToAboutOne(input);
    var exact := Weights(VisualShare(input), 1.0 - VisualShare(input));
    BlendError(w, exact, visual, performance);
    ExactBlendIsBlend(VisualShare(input), visual, performance);
    RoundingBounds(raw);
    assert CompositeScore(Some(visual), Some(performance), w) == Ok(Composite(Some(RoundToTwoDecimals(raw)), [Visual, Performance]));
  }

  lemma SelfBlend(w: Weights, score: real, total: real)
    requires w.visual + w.performance == total
    ensures Blend(w, score, score) == total * score
  {
    assert total * score == w.visual * score + w.performance * score;
  }

  lemma SelfBlendBounds(w: Weights, score: real, total: real)
    requires w.visual + w.performance == total && (total == 1.0 || total == 1.0001) && 0.0 <= score <= 100.0
    ensures score <= Blend(w, score, score) <= score + 0.01
    ensures total == 1.0 ==> Blend(w, score, score) == score
  {
    SelfBlend(w, score, total);
  }

  lemma RoundingStaysClose(x: real, y: real)
    requires x <= y <= x + 0.01
    ensures RoundToTwoDecimals(x) <= RoundToTwoDecimals(y) <= RoundToTwoDecimals(x) + 0.02
  {
    RoundingIsMonotone(x, y);
    RoundingBounds(x);
    RoundingBounds(y);
  }

  /** A missing dimension counts as if it had scored the same as the present one: exactly so away from
      ties, and within 0.02 below it at a tie. */
  lemma MissingDimensionCountsAlike(input: Option<WeightsInput>, w: Weights, score: real)
    requires ResolveWeights(input) == Ok(w) && 0.0 <= score <= 100.0
    ensures exists alone, both ::
              && CompositeScore(Some(score), None, w) == Ok(Composite(Some(alone), [Visual]))
              && CompositeScore(None, Some(score), w) == Ok(Composite(Some(alone), [Performance]))
              && CompositeScore(Some(score), Some(score), w) == Ok(Composite(Some(both), [Visual, Performance]))
              && alone <= both <= alone + 0.02
              && (!IsTie(VisualShare(input)) ==> alone == both)
  {
    var alone, raw := RoundToTwoDecimals(score), Blend(w, score, score);
    WeightsSumToAboutOne(input);
    SelfBlendBounds(w, score, Excess(input));
    RoundingStaysClose(score, raw);
    assert CompositeScore(Some(score), None, w) == Ok(Composite(Some(alone), [Visual]));
    assert CompositeScore(Some(score), Some(score), w) == Ok(Composite(Some(RoundToTwoDecimals(raw)), [Visual, Performance]));
  }
}
