/** The two weighted means of the score keeper: over screens, and over the viewports of one screen. */
module Aggregate {
  import opened Basics
  import opened RealFacts
  import opened Sums

  datatype Weighted = Weighted(score: real, weight: Option<real>) {
    /** An undeclared weight counts as one. */
    function Share(): real {
      weight.GetOr(1.0)
    }
  }

  // ---- Sums ------------------------------------------------------------------------------------

  function Points(s: Weighted): real {
    s.score * s.Share()
  }

  function ShareOf(s: Weighted): real {
    s.Share()
  }

  function TotalScore(screens: seq<Weighted>): real {
    SumOf(Points, screens)
  }

  function TotalWeight(screens: seq<Weighted>): real {
    SumOf(ShareOf, screens)
  }

  // ---- The mean over screens -------------------------------------------------------------------

  predicate Declares(screens: seq<Weighted>) {
    exists s :: s in screens && s.weight.Some?
  }

  predicate PositiveShares(screens: seq<Weighted>) {
    forall s :: s in screens ==> s.Share() > 0.0
  }

  lemma {:induction false} PositiveTotal(screens: seq<Weighted>)
    requires PositiveShares(screens) && screens != []
    ensures TotalWeight(screens) > 0.0
  {
    var init, last := screens[..|screens| - 1], screens[|screens| - 1];
    assert last in screens && forall s :: s in init ==> s in screens;
    assert ShareOf(last) > 0.0;
    if init == [] {
      assert SumOf(ShareOf, init) == 0.0;
    } else {
      PositiveTotal(init);
    }
  }

  /** The exact weighted mean. */
  function Mean(screens: seq<Weighted>): real
    requires screens != [] && PositiveShares(screens)
  {
    PositiveTotal(screens);
    TotalScore(screens) / TotalWeight(screens)
  }

  /** How far a score pulls away from m, by its weight, or by one when it declares none. */
  function Pull(m: real): Weighted -> real {
    (s: Weighted) => (if s.weight.Some? then s.weight.value else 1.0) * (s.score - m)
  }

  lemma OnePull(m: real, s: Weighted)
    ensures Pull(m)(s) == Points(s) - m * ShareOf(s)
  {
    assert s.Share() * (s.score - m) == s.score * s.Share() - m * s.Share();
  }

  lemma PullStep(m: real, pulls: real, points: real, shares: real, s: Weighted)
    requires pulls == points - m * shares
    ensures pulls + Pull(m)(s) == points + Points(s) - m * (shares + ShareOf(s))
  {
    OnePull(m, s);
    assert m * (shares + ShareOf(s)) == m * shares + m * ShareOf(s);
  }

  lemma {:induction false} PullsAddUp(m: real, screens: seq<Weighted>)
    ensures SumOf(Pull(m), screens) == SumOf(Points, screens) - m * SumOf(ShareOf, screens)
  {
    if screens != [] {
      var init, last := screens[..|screens| - 1], screens[|screens| - 1];
      PullsAddUp(m, init);
      PullStep(m, SumOf(Pull(m), init), SumOf(Points, init), SumOf(ShareOf, init), last);
    }
  }

  /** The mean is where the weighted scores balance. */
  lemma MeanBalances(screens: seq<Weighted>)
    requires screens != [] && PositiveShares(screens)
    ensures SumOf(Pull(Mean(screens)), screens) == 0.0
  {
    PositiveTotal(screens);
    PullsAddUp(Mean(screens), screens);
    QuotientTimes(TotalScore(screens), TotalWeight(screens));
  }

  /** The mean rounded to two decimals, or an error for no screens or a non-positive weight. */
  function AggregateScore(screens: seq<Weighted>): Result<real> {
    if screens == [] then Err("requires at least one screen")
    else if !PositiveShares(screens) then Err("weights must be positive finite numbers")
    else Ok(RoundToTwoDecimals(Mean(screens)))
  }

  lemma {:induction false} UndeclaredTotals(screens: seq<Weighted>)
    requires !Declares(screens)
    ensures TotalWeight(screens) == |screens| as real && PositiveShares(screens)
  {
    if screens != [] {
      var init := screens[..|screens| - 1];
      assert screens[|screens| - 1] in screens && forall s :: s in init ==> s in screens;
      UndeclaredTotals(init);
      assert screens == init + [screens[|screens| - 1]];
    }
  }

  /** The branch for screens that declare no weight: the plain mean is the weighted mean. */
  method PlainMean(screens: seq<Weighted>) returns (mean: real)
    requires screens != [] && !Declares(screens)
    ensures PositiveShares(screens) && mean == Mean(screens)
  {
    UndeclaredTotals(screens);
    var total := 0.0;
    for i := 0 to |screens|
      invariant total == TotalScore(screens[..i])
    {
      assert screens[..i + 1] == screens[..i] + [screens[i]];
      SumOfSnoc(Points, screens[..i], screens[i]);
      SumOfSnoc(ShareOf, screens[..i], screens[i]);
      assert screens[i] in screens;
      total := total + screens[i].score;
    }
    assert screens[..|screens|] == screens;
    mean := total / |screens| as real;
  }

  /** computeVisualBenchmarkAggregateScore. */
  method ComputeAggregateScore(screens: seq<Weighted>) returns (aggregate: Result<real>)
    ensures aggregate == AggregateScore(screens)
  {
    if screens == [] {
      return Err("requires at least one screen");
    }
    if !exists s :: s in screens && s.weight.Some? {
      var mean := PlainMean(screens);
      return Ok(RoundToTwoDecimals(mean));
    }
    var weightedScoreTotal, weightTotal := 0.0, 0.0;
    for i := 0 to |screens|
      invariant PositiveShares(screens[..i])
      invariant weightedScoreTotal == TotalScore(screens[..i]) && weightTotal == TotalWeight(screens[..i])
    {
      assert screens[..i + 1] == screens[..i] + [screens[i]];
      SumOfSnoc(Points, screens[..i], screens[i]);
      SumOfSnoc(ShareOf, screens[..i], screens[i]);
      var weight := screens[i].Share();
      if weight <= 0.0 {
        assert screens[i] in screens;
        return Err("weights must be positive finite numbers");
      }
      weightedScoreTotal := weightedScoreTotal + screens[i].score * weight;
      weightTotal := weightTotal + weight;
    }
    assert screens[..|screens|] == screens;
    PositiveTotal(screens);
    return Ok(RoundToTwoDecimals(weightedScoreTotal / weightTotal));
  }

  // ---- Normalised viewport weights -------------------------------------------------------------

  predicate AllDeclared(weights: seq<Option<real>>) {
    forall w :: w in weights ==> w.Some?
  }

  predicate NoneDeclared(weights: seq<Option<real>>) {
    forall w :: w in weights ==> w.None?
  }

  predicate AllPositive(weights: seq<Option<real>>) {
    forall w :: w in weights ==> w.GetOr(1.0) > 0.0
  }

  function WeightSum(weights: seq<Option<real>>): real {
    if weights == [] then 0.0 else WeightSum(weights[..|weights| - 1]) + weights[|weights| - 1].GetOr(1.0)
  }

  lemma {:induction false} WeightSumIsPositive(weights: seq<Option<real>>)
    requires AllPositive(weights) && weights != []
    ensures WeightSum(weights) > 0.0
  {
    var init, last := weights[..|weights| - 1], weights[|weights| - 1];
    assert last in weights && forall w :: w in init ==> w in weights;
    if init != [] {
      WeightSumIsPositive(init);
    }
  }

  function Divided(weights: seq<Option<real>>, total: real): (shares: seq<real>)
    requires total > 0.0
    ensures |shares| == |weights|
  {
    if weights == [] then []
    else Divided(weights[..|weights| - 1], total) + [weights[|weights| - 1].GetOr(1.0) / total]
  }

  /** Every weight over their sum; mixed declarations and non-positive weights are errors. */
  function NormalizedWeights(weights: seq<Option<real>>): Result<seq<real>> {
    if weights == [] then Err("requires at least one viewport")
    else if !AllDeclared(weights) && !NoneDeclared(weights) then Err("all viewports or none")
    else if !AllPositive(weights) then Err("weights must be positive finite numbers")
    else
      WeightSumIsPositive(weights);
      Ok(Divided(weights, WeightSum(weights)))
  }

  lemma {:induction false} UndeclaredSum(weights: seq<Option<real>>)
    requires NoneDeclared(weights)
    ensures WeightSum(weights) == |weights| as real && AllPositive(weights)
  {
    if weights != [] {
      var init := weights[..|weights| - 1];
      assert weights[|weights| - 1] in weights && forall w :: w in init ==> w in weights;
      UndeclaredSum(init);
      assert weights == init + [weights[|weights| - 1]];
    }
  }

  lemma {:induction false} EqualShares(weights: seq<Option<real>>, total: real)
    requires NoneDeclared(weights) && total > 0.0
    ensures Divided(weights, total) == seq(|weights|, i => 1.0 / total)
  {
    if weights != [] {
      var init := weights[..|weights| - 1];
      assert weights[|weights| - 1] in weights && forall w :: w in init ==> w in weights;
      EqualShares(init, total);
    }
  }

  /** normalizeVisualQualityViewportWeights. */
  method NormalizeWeights(weights: seq<Option<real>>) returns (shares: Result<seq<real>>)
    ensures shares == NormalizedWeights(weights)
  {
    if weights == [] {
      return Err("requires at least one viewport");
    }
    if (exists w :: w in weights && w.Some?) && exists w :: w in weights && w.None? {
      return Err("all viewports or none");
    }
    if !exists w :: w in weights && w.Some? {
      UndeclaredSum(weights);
      EqualShares(weights, |weights| as real);
      assert AllDeclared(weights) || NoneDeclared(weights);
      return Ok(seq(|weights|, i => 1.0 / |weights| as real));
    }
    var total := 0.0;
    for i := 0 to |weights|
      invariant total == WeightSum(weights[..i]) && AllPositive(weights[..i])
    {
      assert weights[..i + 1][..i] == weights[..i];
      assert weights[..i + 1] == weights[..i] + [weights[i]];
      assert weights[i] in weights;
      if weights[i].GetOr(0.0) <= 0.0 {
        return Err("weights must be positive finite numbers");
      }
      total := total + weights[i].GetOr(0.0);
    }
    assert weights[..|weights|] == weights;
    WeightSumIsPositive(weights);
    return Ok(Divided(weights, total));
  }

  lemma {:induction false} DividedSum(weights: seq<Option<real>>, total: real)
    requires total > 0.0
    ensures SumOf(Itself, Divided(weights, total)) == WeightSum(weights) / total
  {
    if weights != [] {
      var init, last := weights[..|weights| - 1], weights[|weights| - 1];
      DividedSum(init, total);
      SumOfSnoc(Itself, Divided(init, total), last.GetOr(1.0) / total);
    }
  }

  lemma {:induction false} DividedAt(weights: seq<Option<real>>, total: real, i: nat)
    requires total > 0.0 && i < |weights|
    ensures Divided(weights, total)[i] == weights[i].GetOr(1.0) / total
  {
    if i < |weights| - 1 {
      DividedAt(weights[..|weights| - 1], total, i);
    }
  }

  /** Normalised weights sum to one. */
  lemma NormalizedWeightsSumToOne(weights: seq<Option<real>>)
    requires NormalizedWeights(weights).Ok?
    ensures SumOf(Itself, NormalizedWeights(weights).value) == 1.0
  {
    WeightSumIsPositive(weights);
    DividedSum(weights, WeightSum(weights));
    QuotientIs(WeightSum(weights), WeightSum(weights), 1.0);
  }

  /** A share of the total: positive, and the declared weight when multiplied back. */
  predicate IsShareOf(share: real, weight: real, total: real) {
    share > 0.0 && share * total == weight
  }

  lemma SharesKeepProportions(weights: seq<Option<real>>, total: real, i: nat)
    requires total > 0.0 && i < |weights| && weights[i].GetOr(1.0) > 0.0
    ensures IsShareOf(Divided(weights, total)[i], weights[i].GetOr(1.0), total)
  {
    DividedAt(weights, total, i);
    QuotientFacts(weights[i].GetOr(1.0), total);
  }

  /** Normalised weights are positive and keep the declared proportions. */
  lemma NormalizedWeightsKeepProportions(weights: seq<Option<real>>)
    requires NormalizedWeights(weights).Ok?
    ensures var shares := NormalizedWeights(weights).value;
            && |shares| == |weights|
            && forall i :: 0 <= i < |weights| ==> IsShareOf(shares[i], weights[i].GetOr(1.0), WeightSum(weights))
  {
    var total := WeightSum(weights);
    WeightSumIsPositive(weights);
    forall i | 0 <= i < |weights|
      ensures IsShareOf(Divided(weights, total)[i], weights[i].GetOr(1.0), total)
    {
      assert weights[i] in weights;
      SharesKeepProportions(weights, total, i);
    }
  }

  lemma QuotientFacts(a: real, b: real)
    requires b > 0.0
    ensures a / b * b == a
    ensures a > 0.0 ==> a / b > 0.0
  {
  }

  // ---- The mean over viewports -----------------------------------------------------------------

  /** Scores with weights, pairwise. */
  function Paired(scores: seq<real>, weights: seq<Option<real>>): (pairs: seq<Weighted>)
    requires |scores| <= |weights|
    ensures |pairs| == |scores|
  {
    if scores == [] then []
    else
      var n := |scores| - 1;
      Paired(scores[..n], weights) + [Weighted(scores[n], weights[n])]
  }

  function Declared(shares: seq<real>): (weights: seq<Option<real>>)
    ensures |weights| == |shares|
    ensures forall i :: 0 <= i < |shares| ==> weights[i] == Some(shares[i])
  {
    seq(|shares|, i requires 0 <= i < |shares| => Some(shares[i]))
  }

  /** The aggregate of one screen's viewports; a single one is passed through unrounded. */
  function ViewportAggregate(weights: seq<Option<real>>, scores: seq<real>): Result<real> {
    if scores == [] then Err("requires at least one viewport result")
    else if |scores| == 1 then Ok(scores[0])
    else
      var shares :- NormalizedWeights(weights);
      if |shares| < |scores| then Err("does not align")
      else Ok(RoundToTwoDecimals(TotalScore(Paired(scores, Declared(shares)))))
  }

  lemma {:induction false} PairedAt(scores: seq<real>, weights: seq<Option<real>>, i: nat)
    requires i < |scores| <= |weights|
    ensures Paired(scores, weights)[i] == Weighted(scores[i], weights[i])
  {
    if i < |scores| - 1 {
      PairedAt(scores[..|scores| - 1], weights, i);
    }
  }

  /** computeAggregateFromViewportArtifacts. */
  method ComputeViewportAggregate(weights: seq<Option<real>>, scores: seq<real>) returns (aggregate: Result<real>)
    ensures aggregate == ViewportAggregate(weights, scores)
  {
    if |scores| == 0 {
      return Err("requires at least one viewport result");
    }
    if |scores| == 1 {
      return Ok(scores[0]);
    }
    var shares :- NormalizeWeights(weights);
    var weightedScore := 0.0;
    for i := 0 to |scores|
      invariant i <= |shares| && weightedScore == TotalScore(Paired(scores[..i], Declared(shares)))
    {
      if i >= |shares| {
        return Err("does not align");
      }
      assert scores[..i + 1][..i] == scores[..i];
      SumOfSnoc(Points, Paired(scores[..i], Declared(shares)), Weighted(scores[i], Some(shares[i])));
      weightedScore := weightedScore + scores[i] * shares[i];
    }
    assert scores[..|scores|] == scores;
    return Ok(RoundToTwoDecimals(weightedScore));
  }

  // ---- Scaling ---------------------------------------------------------------------------------

  predicate IsScaled(c: real, a: Weighted, b: Weighted) {
    b.score == a.score && b.Share() == c * a.Share()
  }

  /** The same scores in the same order, every weight (declared or not) multiplied by c. */
  predicate IsScaling(c: real, screens: seq<Weighted>, scaled: seq<Weighted>) {
    |scaled| == |screens| && forall i :: 0 <= i < |screens| ==> IsScaled(c, screens[i], scaled[i])
  }

  lemma {:induction false} ScaledTotals(c: real, screens: seq<Weighted>, scaled: seq<Weighted>)
    requires IsScaling(c, screens, scaled)
    ensures TotalScore(scaled) == c * TotalScore(screens)
    ensures TotalWeight(scaled) == c * TotalWeight(screens)
  {
    if screens != [] {
      var n := |screens| - 1;
      ScaledTotals(c, screens[..n], scaled[..n]);
      assert IsScaled(c, screens[n], scaled[n]);
      PointsScale(c, screens[n], scaled[n]);
      Distribute(c, TotalScore(screens[..n]), Points(screens[n]));
      Distribute(c, TotalWeight(screens[..n]), ShareOf(screens[n]));
    }
  }

  lemma PointsScale(c: real, a: Weighted, b: Weighted)
    requires IsScaled(c, a, b)
    ensures Points(b) == c * Points(a) && ShareOf(b) == c * ShareOf(a)
  {
    Reassociate(a.score, c, a.Share());
  }

  lemma Reassociate(x: real, c: real, w: real)
    ensures x * (c * w) == c * (x * w)
  {
  }

  lemma {:induction false} ScaledShares(c: real, screens: seq<Weighted>, scaled: seq<Weighted>)
    requires c > 0.0 && IsScaling(c, screens, scaled)
    ensures PositiveShares(scaled) <==> PositiveShares(screens)
  {
    if screens != [] {
      var n := |screens| - 1;
      ScaledShares(c, screens[..n], scaled[..n]);
      assert IsScaled(c, screens[n], scaled[n]);
      SignIsKept(c, screens[n].Share());
      SharesSnoc(screens[..n], screens[n]);
      SharesSnoc(scaled[..n], scaled[n]);
      assert screens == screens[..n] + [screens[n]] && scaled == scaled[..n] + [scaled[n]];
    }
  }

  lemma SharesSnoc(screens: seq<Weighted>, x: Weighted)
    ensures PositiveShares(screens + [x]) <==> PositiveShares(screens) && x.Share() > 0.0
  {
    assert x in screens + [x] && forall s :: s in screens ==> s in screens + [x];
  }

  lemma SignIsKept(c: real, x: real)
    requires c > 0.0
    ensures c * x > 0.0 <==> x > 0.0
  {
  }

  /** Only the proportions of the weights matter. */
  lemma ScalingIsIrrelevant(c: real, screens: seq<Weighted>, scaled: seq<Weighted>)
    requires c > 0.0 && IsScaling(c, screens, scaled)
    ensures AggregateScore(scaled) == AggregateScore(screens)
  {
    ScaledTotals(c, screens, scaled);
    ScaledShares(c, screens, scaled);
    if screens != [] && PositiveShares(screens) {
      PositiveTotal(screens);
      CommonFactorCancels(c, TotalScore(screens), TotalWeight(screens));
      assert Mean(scaled) == Mean(screens);
    }
  }

  lemma CommonFactorCancels(c: real, a: real, b: real)
    requires c > 0.0 && b > 0.0
    ensures c * b > 0.0 && (c * a) / (c * b) == a / b
  {
    var q := a / b;
    QuotientFacts(a, b);
    assert c * a == q * (c * b);
    var d := c * b;
    assert d > 0.0;
    assert q * d / d == q;
  }

  // ---- Agreement -------------------------------------------------------------------------------

  lemma {:induction false} PairedShares(scores: seq<real>, weights: seq<Option<real>>)
    requires |scores| == |weights|
    ensures TotalWeight(Paired(scores, weights)) == WeightSum(weights)
    ensures PositiveShares(Paired(scores, weights)) <==> AllPositive(weights)
  {
    if scores != [] {
      var n := |scores| - 1;
      PairedIgnoresTheRest(scores[..n], weights[..n], weights);
      var pairs, last := Paired(scores[..n], weights), Weighted(scores[n], weights[n]);
      PairedShares(scores[..n], weights[..n]);
      SumOfSnoc(ShareOf, pairs, last);
      SharesSnoc(pairs, last);
      assert weights == weights[..n] + [weights[n]];
    }
  }

  lemma {:induction false} PairedIgnoresTheRest(scores: seq<real>, few: seq<Option<real>>, many: seq<Option<real>>)
    requires |scores| <= |few| && few <= many
    ensures Paired(scores, few) == Paired(scores, many)
  {
    if scores != [] {
      PairedIgnoresTheRest(scores[..|scores| - 1], few, many);
    }
  }

  predicate AreInverse(c: real, total: real) {
    c > 0.0 && total > 0.0 && c * total == 1.0
  }

  lemma InverseOf(total: real) returns (c: real)
    requires total > 0.0
    ensures AreInverse(c, total)
  {
    c := 1.0 / total;
  }

  lemma DividingIsMultiplying(a: real, c: real, total: real)
    requires AreInverse(c, total)
    ensures a / total == c * a
  {
    assert c * a * total == a * (c * total);
  }

  lemma ShareIsScaled(score: real, weight: Option<real>, c: real, total: real)
    requires AreInverse(c, total)
    ensures IsScaled(c, Weighted(score, weight), Weighted(score, Some(weight.GetOr(1.0) / total)))
  {
    DividingIsMultiplying(weight.GetOr(1.0), c, total);
  }

  lemma DividingIsScaling(scores: seq<real>, weights: seq<Option<real>>, c: real, total: real)
    requires |scores| == |weights| && AreInverse(c, total)
    ensures IsScaling(c, Paired(scores, weights), Paired(scores, Declared(Divided(weights, total))))
  {
    forall i | 0 <= i < |scores|
      ensures IsScaled(c, Paired(scores, weights)[i], Paired(scores, Declared(Divided(weights, total)))[i])
    {
      PairedAt(scores, weights, i);
      PairedAt(scores, Declared(Divided(weights, total)), i);
      DividedAt(weights, total, i);
      ShareIsScaled(scores[i], weights[i], c, total);
    }
  }

  /** When the scaled weights sum to one, the weighted sum is already the mean. */
  lemma UnitScaling(c: real, pairs: seq<Weighted>, shared: seq<Weighted>)
    requires pairs != [] && PositiveShares(pairs)
    requires AreInverse(c, TotalWeight(pairs)) && IsScaling(c, pairs, shared)
    ensures AggregateScore(pairs) == Ok(RoundToTwoDecimals(TotalScore(shared)))
  {
    ScalingIsIrrelevant(c, pairs, shared);
    ScaledShares(c, pairs, shared);
    ScaledTotals(c, pairs, shared);
    QuotientIs(TotalScore(shared), TotalWeight(shared), TotalScore(shared));
  }

  /** With two or more viewports, weighted all or not at all, both means give the same result, errors
      included. */
  lemma PathsAgree(scores: seq<real>, weights: seq<Option<real>>)
    requires |scores| == |weights| >= 2
    requires AllDeclared(weights) || NoneDeclared(weights)
    ensures ViewportAggregate(weights, scores) == AggregateScore(Paired(scores, weights))
  {
    PairedShares(scores, weights);
    if AllPositive(weights) {
      var total := WeightSum(weights);
      WeightSumIsPositive(weights);
      var c := InverseOf(total);
      DividingIsScaling(scores, weights, c, total);
      UnitScaling(c, Paired(scores, weights), Paired(scores, Declared(Divided(weights, total))));
    }
  }

  /** A single viewport is not rounded: it agrees with the mean exactly on two-decimal scores, and its
      weight is never even checked. */
  lemma SingleViewportAgreesExactly(score: real, weight: Option<real>)
    requires weight.GetOr(1.0) > 0.0
    ensures ViewportAggregate([weight], [score]) == AggregateScore([Weighted(score, weight)]) <==> OnGrid(score)
  {
    var screens := [Weighted(score, weight)];
    var w := weight.GetOr(1.0);
    assert TotalScore([]) == 0.0 && TotalWeight([]) == 0.0;
    SumOfSnoc(Points, [], screens[0]);
    SumOfSnoc(ShareOf, [], screens[0]);
    assert [] + screens == screens;
    assert TotalScore(screens) == score * w && TotalWeight(screens) == w;
    QuotientIs(score * w, w, score);
    assert Mean(screens) == score;
    GridIsFixed(score);
  }

  // ---- What the mean means ---------------------------------------------------------------------

  lemma {:induction false} TotalIsAtLeast(screens: seq<Weighted>, lo: real)
    requires PositiveShares(screens)
    requires forall s :: s in screens ==> lo <= s.score
    ensures lo * TotalWeight(screens) <= TotalScore(screens)
  {
    if screens != [] {
      var init, last := screens[..|screens| - 1], screens[|screens| - 1];
      assert last in screens && forall s :: s in init ==> s in screens;
      TotalIsAtLeast(init, lo);
      ProductIsMonotone(last.Share(), lo, last.score);
      assert lo * ShareOf(last) <= Points(last);
      Distribute(lo, TotalWeight(init), ShareOf(last));
    }
  }

  lemma {:induction false} TotalIsAtMost(screens: seq<Weighted>, hi: real)
    requires PositiveShares(screens)
    requires forall s :: s in screens ==> s.score <= hi
    ensures TotalScore(screens) <= hi * TotalWeight(screens)
  {
    if screens != [] {
      var init, last := screens[..|screens| - 1], screens[|screens| - 1];
      assert last in screens && forall s :: s in init ==> s in screens;
      TotalIsAtMost(init, hi);
      ProductIsMonotone(last.Share(), last.score, hi);
      assert Points(last) <= hi * ShareOf(last);
      Distribute(hi, TotalWeight(init), ShareOf(last));
    }
  }

  /** The aggregate lies between the rounded extremes, and within half a hundredth of the exact mean. */
  lemma AggregateIsBounded(screens: seq<Weighted>, lo: real, hi: real)
    requires screens != [] && PositiveShares(screens)
    requires forall s :: s in screens ==> lo <= s.score <= hi
    ensures var aggregate := AggregateScore(screens).value;
            && RoundToTwoDecimals(lo) <= aggregate <= RoundToTwoDecimals(hi)
            && Abs(aggregate - Mean(screens)) <= 0.005
  {
    TotalIsAtLeast(screens, lo);
    TotalIsAtMost(screens, hi);
    PositiveTotal(screens);
    QuotientIsBetween(lo, TotalScore(screens), hi, TotalWeight(screens));
    RoundingIsMonotone(lo, Mean(screens));
    RoundingIsMonotone(Mean(screens), hi);
    RoundingBounds(Mean(screens));
  }

  /** Neither the value nor the error depends on the order of the screens. */
  lemma OrderIsIrrelevant(a: seq<Weighted>, b: seq<Weighted>)
    requires multiset(a) == multiset(b)
    ensures AggregateScore(a) == AggregateScore(b)
  {
    SumOfIgnoresOrder(Points, a, b);
    SumOfIgnoresOrder(ShareOf, a, b);
    assert forall s :: s in multiset(a) <==> s in a;
    assert forall s :: s in multiset(b) <==> s in b;
    assert |a| == |multiset(a)| == |multiset(b)| == |b|;
  }
}
