/** computeVisualBenchmarkDeltas: the current scores against a baseline, entry by entry and overall. */
module Deltas {
  import opened Basics
  import opened Sums
  import opened StableSort
  import opened Ids
  import opened ScoreKeys
  import opened ScoreMerge
  import opened Canonical
  import opened BaselineDiff

  // ---- Entries ---------------------------------------------------------------------------------

  datatype Trend = Up | Down | Level | Unavailable

  function TrendOf(delta: Option<real>, tolerance: real): Trend {
    match delta
    case None => Unavailable
    case Some(d) => if Abs(d) <= tolerance then Level else if d > 0.0 then Up else Down
  }

  datatype Delta = Delta(entry: ScoreEntry, baseline: Option<real>, delta: Option<real>, trend: Trend)

  /** An entry against the last baseline entry of the same key. */
  function DeltaOf(baseline: seq<ScoreEntry>, tolerance: real, e: ScoreEntry): Delta {
    var score := LastAt(baseline, KeyOf(e));
    var delta := if score.None? then None else Some(RoundToTwoDecimals(e.score - score.value));
    Delta(Canon(e), score, delta, TrendOf(delta, tolerance))
  }

  function DeltasOf(baseline: seq<ScoreEntry>, tolerance: real, current: seq<ScoreEntry>): (r: seq<Delta>)
    ensures |r| == |current|
    ensures forall i :: 0 <= i < |current| ==> r[i] == DeltaOf(baseline, tolerance, current[i])
  {
    seq(|current|, i requires 0 <= i < |current| => DeltaOf(baseline, tolerance, current[i]))
  }

  // ---- Screens ---------------------------------------------------------------------------------

  /** getScreenAggregateKey of a canonical entry. */
  function ScreenKey(e: ScoreEntry): Result<string> {
    var f :- FixtureId(e.fixtureId);
    var s :- ScreenId(NonBlank(e.screenId).GetOr(f));
    Ok(f + "::" + s)
  }

  /** Scores whose fixture and screen ids are all allowed; the others make the comparison throw. */
  predicate Readable(scores: seq<ScoreEntry>) {
    forall e :: e in scores ==> ScreenKey(e).Ok?
  }

  function ScreenOf(e: ScoreEntry): string {
    match ScreenKey(e) case Ok(key) => key case Err(_) => ""
  }

  /** The screens of a list of scores, in order of first appearance. */
  function Screens(scores: seq<ScoreEntry>): seq<string> {
    if scores == [] then []
    else
      var seen, key := Screens(scores[..|scores| - 1]), ScreenOf(scores[|scores| - 1]);
      if key in seen then seen else seen + [key]
  }

  lemma {:induction false} ScreensAreThoseOfEntries(scores: seq<ScoreEntry>)
    ensures forall key :: key in Screens(scores) <==> exists e :: e in scores && ScreenOf(e) == key
    ensures Distinct(Screens(scores))
  {
    if scores != [] {
      var init, last := scores[..|scores| - 1], scores[|scores| - 1];
      ScreensAreThoseOfEntries(init);
      assert scores == init + [last];
      forall key
        ensures key in Screens(scores) <==> exists e :: e in scores && ScreenOf(e) == key
      {
        assert last in scores && forall e :: e in init ==> e in scores;
      }
    }
  }

  function ScoreIn(key: string): ScoreEntry -> real {
    e => if ScreenOf(e) == key then e.score else 0.0
  }

  function OneIn(key: string): ScoreEntry -> real {
    e => if ScreenOf(e) == key then 1.0 else 0.0
  }

  /** The rounded mean score of one screen over its viewports. */
  function Average(scores: seq<ScoreEntry>, key: string): real {
    if SumOf(OneIn(key), scores) == 0.0 then 0.0
    else RoundToTwoDecimals(SumOf(ScoreIn(key), scores) / SumOf(OneIn(key), scores))
  }

  function AverageOf(scores: seq<ScoreEntry>): string -> real {
    key => Average(scores, key)
  }

  /** The rounded mean of the screen averages; None when there is no screen to average. */
  function Overall(scores: seq<ScoreEntry>, keys: seq<string>): Option<real> {
    if keys == [] then None else Some(RoundToTwoDecimals(SumOf(AverageOf(scores), keys) / |keys| as real))
  }

  function ScreenIn(scores: seq<ScoreEntry>): string -> bool {
    var keys := Screens(scores);
    key => key in keys
  }

  // ---- The comparison --------------------------------------------------------------------------

  datatype Comparison = Comparison(
    deltas: seq<Delta>, overallBaseline: Option<real>, overallCurrent: Option<real>, overallDelta: Option<real>)

  function Difference(a: Option<real>, b: Option<real>): Option<real> {
    if a.Some? && b.Some? then Some(RoundToTwoDecimals(a.value - b.value)) else None
  }

  /** Overall values compare only the screens both sides have. */
  function Compared(current: seq<ScoreEntry>, baseline: seq<ScoreEntry>, tolerance: real): Result<Comparison> {
    if current == [] then Err("empty")
    else if tolerance < 0.0 then Err("neutralTolerance")
    else if !Readable(current) || !Readable(baseline) then Err("ids")
    else
      var matched := Filter(ScreenIn(baseline), Screens(current));
      Ok(Comparison(DeltasOf(baseline, tolerance, current), Overall(baseline, matched), Overall(current, Screens(current)),
                    Difference(Overall(current, matched), Overall(baseline, matched))))
  }

  // ---- The loops -------------------------------------------------------------------------------

  /** The screens grouped so far: insertion order, and the scores collected for each. */
  ghost predicate GroupsOf(scores: seq<ScoreEntry>, order: seq<string>, totals: map<string, seq<real>>) {
    && order == Screens(scores)
    && (forall key :: key in totals <==> key in order)
    && forall key :: key in totals ==>
         |totals[key]| >= 1 && |totals[key]| as real == SumOf(OneIn(key), scores) && SumOf(Itself, totals[key]) == SumOf(ScoreIn(key), scores)
  }

  lemma NewScreenHasNoSums(scores: seq<ScoreEntry>, key: string)
    requires key !in Screens(scores)
    ensures SumOf(OneIn(key), scores) == 0.0 && SumOf(ScoreIn(key), scores) == 0.0
  {
    ScreensAreThoseOfEntries(scores);
    forall i | 0 <= i < |scores|
      ensures OneIn(key)(scores[i]) == 0.0 && ScoreIn(key)(scores[i]) == 0.0
    {
      assert scores[i] in scores;
    }
    SumOfZeroes(OneIn(key), scores);
    SumOfZeroes(ScoreIn(key), scores);
  }

  lemma AppendKeepsGroups(
      scores: seq<ScoreEntry>, e: ScoreEntry, order: seq<string>, totals: map<string, seq<real>>,
      order': seq<string>, totals': map<string, seq<real>>)
    requires GroupsOf(scores, order, totals)
    requires var key := ScreenOf(e);
             if key in totals then order' == order && totals' == totals[key := totals[key] + [e.score]]
             else order' == order + [key] && totals' == totals[key := [e.score]]
    ensures GroupsOf(scores + [e], order', totals')
  {
    assert (scores + [e])[..|scores|] == scores;
    forall key | key in totals'
      ensures |totals'[key]| >= 1
      ensures |totals'[key]| as real == SumOf(OneIn(key), scores + [e])
      ensures SumOf(Itself, totals'[key]) == SumOf(ScoreIn(key), scores + [e])
    {
      SumOfSnoc(OneIn(key), scores, e);
      SumOfSnoc(ScoreIn(key), scores, e);
      if key == ScreenOf(e) {
        if key in totals {
          SumOfSnoc(Itself, totals[key], e.score);
        } else {
          NewScreenHasNoSums(scores, key);
          SumOfSnoc(Itself, [], e.score);
          assert [] + [e.score] == [e.score];
        }
      }
    }
  }

  /** buildScreenAggregateMapFromScores: the screens in insertion order and their averages. */
  method BuildScreenAggregates(scores: seq<ScoreEntry>) returns (order: seq<string>, averages: map<string, real>)
    ensures order == Screens(scores)
    ensures forall key :: key in averages <==> key in order
    ensures forall key :: key in averages ==> averages[key] == Average(scores, key)
  {
    order := [];
    var totals: map<string, seq<real>> := map[];
    for i := 0 to |scores|
      invariant GroupsOf(scores[..i], order, totals)
    {
      var entry := scores[i];
      var key := ScreenOf(entry);
      ghost var order0, totals0 := order, totals;
      if key in totals {
        totals := totals[key := totals[key] + [entry.score]];
      } else {
        order, totals := order + [key], totals[key := [entry.score]];
      }
      assert scores[..i + 1] == scores[..i] + [entry];
      AppendKeepsGroups(scores[..i], entry, order0, totals0, order, totals);
    }
    assert scores[..|scores|] == scores;
    ScreensAreThoseOfEntries(scores);
    averages := map[];
    for i := 0 to |order|
      invariant forall key :: key in averages <==> key in order[..i]
      invariant forall key :: key in averages ==> averages[key] == Average(scores, key)
    {
      var key := order[i];
      assert key in totals;
      var total := Accumulate(totals[key]);
      averages := averages[key := RoundToTwoDecimals(total / |totals[key]| as real)];
    }
  }

  method Accumulate(xs: seq<real>) returns (total: real)
    ensures total == SumOf(Itself, xs)
  {
    total := 0.0;
    for i := 0 to |xs|
      invariant total == SumOf(Itself, xs[..i])
    {
      assert xs[..i + 1] == xs[..i] + [xs[i]];
      SumOfSnoc(Itself, xs[..i], xs[i]);
      total := total + xs[i];
    }
    assert xs[..|xs|] == xs;
  }

  lemma OverallFromValues(scores: seq<ScoreEntry>, keys: seq<string>, values: seq<real>)
    requires |values| == |keys| && forall i :: 0 <= i < |keys| ==> values[i] == Average(scores, keys[i])
    ensures SumOf(Itself, values) == SumOf(AverageOf(scores), keys)
    decreases |keys|
  {
    if keys != [] {
      var n := |keys| - 1;
      OverallFromValues(scores, keys[..n], values[..n]);
    }
  }

  method ComputeMean(values: seq<real>) returns (mean: Option<real>)
    ensures mean == if values == [] then None else Some(RoundToTwoDecimals(SumOf(Itself, values) / |values| as real))
  {
    if |values| == 0 {
      return None;
    }
    var total := Accumulate(values);
    return Some(RoundToTwoDecimals(total / |values| as real));
  }

  /** The averages of the given screens, and those of the screens the other side has too. */
  method MatchScreens(order: seq<string>, current: map<string, real>, baseline: map<string, real>, ghost matches: string -> bool)
    returns (all: seq<real>, matchedCurrent: seq<real>, matchedBaseline: seq<real>)
    requires forall key :: key in order ==> key in current
    requires forall key :: key in baseline <==> matches(key)
    ensures |all| == |order| && forall j :: 0 <= j < |all| ==> all[j] == current[order[j]]
    ensures var matched := Filter(matches, order);
            && |matchedCurrent| == |matchedBaseline| == |matched|
            && (forall j :: 0 <= j < |matched| ==> matched[j] in current && matchedCurrent[j] == current[matched[j]])
            && forall j :: 0 <= j < |matched| ==> matched[j] in baseline && matchedBaseline[j] == baseline[matched[j]]
  {
    all, matchedCurrent, matchedBaseline := [], [], [];
    ghost var matched := [];
    for i := 0 to |order|
      invariant matched == Filter(matches, order[..i])
      invariant |all| == i && forall j :: 0 <= j < i ==> all[j] == current[order[j]]
      invariant |matchedCurrent| == |matchedBaseline| == |matched|
      invariant forall j :: 0 <= j < |matched| ==> matched[j] in current && matchedCurrent[j] == current[matched[j]]
      invariant forall j :: 0 <= j < |matched| ==> matched[j] in baseline && matchedBaseline[j] == baseline[matched[j]]
    {
      var key := order[i];
      assert order[..i + 1] == order[..i] + [key];
      FilterSnoc(matches, order[..i], key);
      all := all + [current[key]];
      if key in baseline {
        matched := matched + [key];
        matchedCurrent := matchedCurrent + [current[key]];
        matchedBaseline := matchedBaseline + [baseline[key]];
      }
    }
    assert order[..|order|] == order;
  }

  /** The overall values, baseline first: over all current screens, and over the screens both sides have. */
  method ComputeOverall(current: seq<ScoreEntry>, baseline: seq<ScoreEntry>)
    returns (overallBaseline: Option<real>, overallCurrent: Option<real>, comparable: Option<real>)
    ensures var matched := Filter(ScreenIn(baseline), Screens(current));
            && overallBaseline == Overall(baseline, matched)
            && overallCurrent == Overall(current, Screens(current))
            && comparable == Overall(current, matched)
  {
    var order, currentAverages := BuildScreenAggregates(current);
    var _, baselineAverages := BuildScreenAggregates(baseline);
    var all, matchedCurrent, matchedBaseline := MatchScreens(order, currentAverages, baselineAverages, ScreenIn(baseline));
    ghost var matched := Filter(ScreenIn(baseline), order);
    OverallFromValues(current, order, all);
    OverallFromValues(current, matched, matchedCurrent);
    OverallFromValues(baseline, matched, matchedBaseline);
    overallCurrent := ComputeMean(all);
    comparable := ComputeMean(matchedCurrent);
    overallBaseline := ComputeMean(matchedBaseline);
  }

  /** computeVisualBenchmarkDeltas; an absent baseline is the empty one. */
  method ComputeDeltas(current: seq<ScoreEntry>, baseline: seq<ScoreEntry>, tolerance: real) returns (result: Result<Comparison>)
    ensures result == Compared(current, baseline, tolerance)
  {
    if current == [] {
      return Err("empty");
    }
    if tolerance < 0.0 {
      return Err("neutralTolerance");
    }
    if !Readable(current) || !Readable(baseline) {
      return Err("ids");
    }
    var overallBaseline, overallCurrent, comparable := ComputeOverall(current, baseline);
    return Ok(Comparison(DeltasOf(baseline, tolerance, current), overallBaseline, overallCurrent,
                         Difference(comparable, overallBaseline)));
  }

  // ---- What the deltas say ---------------------------------------------------------------------

  /** The entry's own score against the last baseline score of its key. */
  ghost predicate Tells(baseline: seq<ScoreEntry>, tolerance: real, e: ScoreEntry, d: Delta) {
    && IsLastScore(KeyOf, baseline, KeyOf(e), d.baseline)
    && d.entry.score == e.score && KeyOf(d.entry) == KeyOf(e)
    && TellsScores(tolerance, e.score, d.baseline, d.delta, d.trend)
  }

  /** Without a baseline score there is no delta, and the trend is unavailable. */
  predicate TellsScores(tolerance: real, current: real, baseline: Option<real>, delta: Option<real>, trend: Trend) {
    && (trend.Unavailable? <==> baseline.None?) && (delta.Some? <==> baseline.Some?)
    && (delta.Some? ==> TellsChange(tolerance, current, baseline.value, delta.value, trend))
  }

  /** Current minus baseline, rounded; up, down or level as that leaves the tolerance. */
  predicate TellsChange(tolerance: real, current: real, baseline: real, delta: real, trend: Trend) {
    && IsRounded(delta, current - baseline) && (OnGrid(current) && OnGrid(baseline) ==> delta == current - baseline)
    && (trend.Up? <==> delta > tolerance) && (trend.Down? <==> delta < -tolerance)
  }

  lemma TrendTellsChange(tolerance: real, current: real, baseline: real)
    requires tolerance >= 0.0
    ensures var delta := RoundToTwoDecimals(current - baseline);
            TellsChange(tolerance, current, baseline, delta, TrendOf(Some(delta), tolerance))
  {
    DifferenceIsRounded(current, baseline);
  }

  lemma DeltaTellsScores(baseline: seq<ScoreEntry>, tolerance: real, e: ScoreEntry)
    requires tolerance >= 0.0
    ensures var d := DeltaOf(baseline, tolerance, e);
            d.baseline == LastAt(baseline, KeyOf(e)) && d.entry == Canon(e) && TellsScores(tolerance, e.score, d.baseline, d.delta, d.trend)
  {
    var score := LastAt(baseline, KeyOf(e));
    if score.Some? {
      TrendTellsChange(tolerance, e.score, score.value);
    }
  }

  lemma DeltaTells(baseline: seq<ScoreEntry>, tolerance: real, e: ScoreEntry, d: Delta)
    requires tolerance >= 0.0 && FixtureId(e.fixtureId).Ok? && d == DeltaOf(baseline, tolerance, e)
    ensures Tells(baseline, tolerance, e, d)
  {
    DeltaTellsScores(baseline, tolerance, e);
    LastAtIsLast(baseline, KeyOf(e));
    CanonFacts(e);
  }

  lemma ReadableIsAllowed(scores: seq<ScoreEntry>)
    requires Readable(scores)
    ensures FixturesAllowed(scores)
  {
  }

  /** A comparison tells about every current entry, in order. */
  lemma DeltasTell(current: seq<ScoreEntry>, baseline: seq<ScoreEntry>, tolerance: real)
    requires Compared(current, baseline, tolerance).Ok?
    ensures var deltas := Compared(current, baseline, tolerance).value.deltas;
            |deltas| == |current| && forall i :: 0 <= i < |current| ==> Tells(baseline, tolerance, current[i], deltas[i])
  {
    ReadableIsAllowed(current);
    forall i | 0 <= i < |current|
      ensures Tells(baseline, tolerance, current[i], DeltasOf(baseline, tolerance, current)[i])
    {
      assert current[i] in current;
      DeltaTells(baseline, tolerance, current[i], DeltasOf(baseline, tolerance, current)[i]);
    }
  }

  /** Its overall delta is the current mean minus the baseline mean over the screens both sides have, and
      there is one exactly when they have some in common. */
  lemma OverallDeltaTells(current: seq<ScoreEntry>, baseline: seq<ScoreEntry>, tolerance: real)
    requires Compared(current, baseline, tolerance).Ok?
    ensures var r, matched := Compared(current, baseline, tolerance).value, Filter(ScreenIn(baseline), Screens(current));
            && (r.overallDelta.Some? <==> matched != []) && (r.overallBaseline.Some? <==> matched != [])
            && (matched != [] ==> r.overallDelta.value == Overall(current, matched).value - r.overallBaseline.value)
  {
    var matched := Filter(ScreenIn(baseline), Screens(current));
    OverallOnGrid(current, matched);
    OverallOnGrid(baseline, matched);
    GridDifference(Overall(current, matched), Overall(baseline, matched));
  }

  lemma GridDifference(x: Option<real>, y: Option<real>)
    requires (x.Some? ==> OnGrid(x.value)) && (y.Some? ==> OnGrid(y.value))
    ensures Difference(x, y).Some? <==> x.Some? && y.Some?
    ensures Difference(x, y).Some? ==> Difference(x, y).value == x.value - y.value
  {
    if x.Some? && y.Some? {
      DifferenceIsRounded(x.value, y.value);
    }
  }

  lemma OverallOnGrid(scores: seq<ScoreEntry>, keys: seq<string>)
    ensures Overall(scores, keys).Some? <==> keys != []
    ensures keys != [] ==> OnGrid(Overall(scores, keys).value)
  {
    if keys != [] {
      RoundedIs(SumOf(AverageOf(scores), keys) / |keys| as real);
    }
  }

  /** A screen's value is the mean of its scores, to two decimals. */
  lemma AverageIsMean(scores: seq<ScoreEntry>, key: string)
    requires SumOf(OneIn(key), scores) > 0.0
    ensures IsRounded(Average(scores, key), SumOf(ScoreIn(key), scores) / SumOf(OneIn(key), scores))
  {
    RoundedIs(SumOf(ScoreIn(key), scores) / SumOf(OneIn(key), scores));
  }

  /** An overall value is the mean of the screens' means, to two decimals. */
  lemma OverallIsMean(scores: seq<ScoreEntry>, keys: seq<string>)
    requires keys != []
    ensures Overall(scores, keys).Some? && IsRounded(Overall(scores, keys).value, SumOf(AverageOf(scores), keys) / |keys| as real)
  {
    RoundedIs(SumOf(AverageOf(scores), keys) / |keys| as real);
  }

  // ---- A run against itself --------------------------------------------------------------------

  /** Entries of the same key hold the same score, as uniquely keyed scores do. */
  ghost predicate KeysDecide(scores: seq<ScoreEntry>) {
    forall a, b :: a in scores && b in scores && KeyOf(a) == KeyOf(b) ==> a.score == b.score
  }

  lemma {:induction false} LastAtOfDecided(scores: seq<ScoreEntry>, e: ScoreEntry)
    requires e in scores && forall x :: x in scores && KeyOf(x) == KeyOf(e) ==> x.score == e.score
    ensures LastAt(scores, KeyOf(e)) == Some(e.score)
  {
    var init, last := scores[..|scores| - 1], scores[|scores| - 1];
    assert scores == init + [last] && last in scores;
    if KeyOf(last) != KeyOf(e) {
      assert e in init && forall x :: x in init ==> x in scores;
      LastAtOfDecided(init, e);
    }
  }

  lemma CanonKeepsScreen(e: ScoreEntry)
    requires ScreenKey(e).Ok?
    ensures ScreenKey(Canon(e)) == ScreenKey(e)
  {
    FixtureIdIsIdempotent(e.fixtureId);
    var f := FixtureId(e.fixtureId).value;
    NonBlankFacts(e.screenId);
    TrimFacts(f);
  }

  /** The stored form of a list of scores has the same elements up to canonicalisation. */
  lemma StoredElements(c: Collation, scores: seq<ScoreEntry>)
    requires Readable(scores)
    ensures FixturesAllowed(scores)
    ensures multiset(SortScores(c, CanonAll(scores))) == multiset(CanonAll(scores))
  {
    EntryOrderIsTotal(c);
    SortFacts(EntryOrder(c), CanonAll(scores));
  }

  lemma StoredSums(c: Collation, scores: seq<ScoreEntry>, key: string)
    requires Readable(scores)
    ensures var stored := SortScores(c, CanonAll(scores)); Average(stored, key) == Average(scores, key)
  {
    StoredElements(c, scores);
    var canon := CanonAll(scores);
    forall i | 0 <= i < |scores|
      ensures OneIn(key)(canon[i]) == OneIn(key)(scores[i]) && ScoreIn(key)(canon[i]) == ScoreIn(key)(scores[i])
    {
      assert scores[i] in scores;
      CanonKeepsScreen(scores[i]);
    }
    SumOfCongruence(OneIn(key), canon, scores);
    SumOfCongruence(ScoreIn(key), canon, scores);
    SumOfIgnoresOrder(OneIn(key), SortScores(c, canon), canon);
    SumOfIgnoresOrder(ScoreIn(key), SortScores(c, canon), canon);
  }

  /** A list in stored form: every element of it is the canonical form of one of the scores, and back. */
  lemma StoredCorresponds(c: Collation, scores: seq<ScoreEntry>)
    requires Readable(scores)
    ensures var stored := SortScores(c, CanonAll(scores));
            && (forall e :: e in scores ==> Canon(e) in stored)
            && forall x :: x in stored ==> exists e :: e in scores && x == Canon(e)
  {
    StoredElements(c, scores);
    var canon, stored := CanonAll(scores), SortScores(c, CanonAll(scores));
    forall e | e in scores
      ensures Canon(e) in stored
    {
      var i :| 0 <= i < |scores| && scores[i] == e;
      assert canon[i] in multiset(canon);
      assert canon[i] in multiset(stored);
    }
    forall x | x in stored
      ensures exists e :: e in scores && x == Canon(e)
    {
      assert x in multiset(stored);
      assert x in multiset(canon);
      var i :| 0 <= i < |canon| && canon[i] == x;
      assert scores[i] in scores;
    }
  }

  lemma StoredFacts(c: Collation, scores: seq<ScoreEntry>)
    requires Readable(scores)
    ensures var stored := SortScores(c, CanonAll(scores));
            && Readable(stored)
            && (forall key :: key in Screens(scores) <==> key in Screens(stored))
  {
    var stored := SortScores(c, CanonAll(scores));
    StoredCorresponds(c, scores);
    ScreensAreThoseOfEntries(scores);
    ScreensAreThoseOfEntries(stored);
    forall x | x in stored
      ensures ScreenKey(x).Ok? && ScreenOf(x) in Screens(scores)
    {
      var e :| e in scores && x == Canon(e);
      CanonKeepsScreen(e);
    }
    forall e | e in scores
      ensures ScreenOf(e) in Screens(stored)
    {
      CanonKeepsScreen(e);
      assert Canon(e) in stored;
    }
  }

  lemma StoredLookup(c: Collation, scores: seq<ScoreEntry>, e: ScoreEntry)
    requires Readable(scores) && KeysDecide(scores) && e in scores
    ensures LastAt(SortScores(c, CanonAll(scores)), KeyOf(e)) == Some(e.score)
  {
    var stored := SortScores(c, CanonAll(scores));
    StoredCorresponds(c, scores);
    CanonFacts(e);
    forall x | x in stored && KeyOf(x) == KeyOf(Canon(e))
      ensures x.score == Canon(e).score
    {
      var y :| y in scores && x == Canon(y);
      CanonFacts(y);
    }
    LastAtOfDecided(stored, Canon(e));
  }

  lemma OverallOfStored(c: Collation, scores: seq<ScoreEntry>, keys: seq<string>)
    requires Readable(scores)
    ensures Overall(SortScores(c, CanonAll(scores)), keys) == Overall(scores, keys)
  {
    var stored := SortScores(c, CanonAll(scores));
    forall i | 0 <= i < |keys|
      ensures AverageOf(stored)(keys[i]) == AverageOf(scores)(keys[i])
    {
      StoredSums(c, scores, keys[i]);
    }
    SumOfSameTerms(AverageOf(stored), AverageOf(scores), keys);
  }

  /** Scores saved as the baseline and compared with it: every entry is level with delta 0. */
  lemma SelfDeltasAreLevel(c: Collation, scores: seq<ScoreEntry>, tolerance: real)
    requires tolerance >= 0.0 && Readable(scores) && KeysDecide(scores)
    ensures forall d :: d in DeltasOf(SortScores(c, CanonAll(scores)), tolerance, scores) ==>
              d.delta == Some(0.0) && d.trend == Level && d.baseline == Some(d.entry.score)
  {
    var stored := SortScores(c, CanonAll(scores));
    forall i | 0 <= i < |scores|
      ensures LastAt(stored, KeyOf(scores[i])) == Some(scores[i].score)
    {
      assert scores[i] in scores;
      StoredLookup(c, scores, scores[i]);
    }
    assert RoundToTwoDecimals(0.0) == 0.0;
  }

  /** Their overall values coincide with the baseline's. */
  lemma SelfOverallIsLevel(c: Collation, scores: seq<ScoreEntry>)
    requires scores != [] && Readable(scores)
    ensures var stored := SortScores(c, CanonAll(scores));
            && Filter(ScreenIn(stored), Screens(scores)) == Screens(scores) != []
            && Overall(stored, Screens(scores)) == Overall(scores, Screens(scores)) != None
  {
    var stored := SortScores(c, CanonAll(scores));
    StoredFacts(c, scores);
    FilterAll(ScreenIn(stored), Screens(scores));
    OverallOfStored(c, scores, Screens(scores));
    ScreensAreThoseOfEntries(scores);
    assert scores[0] in scores && ScreenOf(scores[0]) in Screens(scores);
  }

  /** So the whole comparison of a run with the baseline saved from it shows no change anywhere. */
  lemma SelfComparisonIsLevel(c: Collation, scores: seq<ScoreEntry>, tolerance: real)
    requires scores != [] && tolerance >= 0.0 && Readable(scores) && KeysDecide(scores)
    ensures SortCanonical(c, scores).Ok? && Compared(scores, SortCanonical(c, scores).value, tolerance).Ok?
    ensures var r := Compared(scores, SortCanonical(c, scores).value, tolerance).value;
            && (forall d :: d in r.deltas ==> d.delta == Some(0.0) && d.trend == Level && d.baseline == Some(d.entry.score))
            && r.overallBaseline == r.overallCurrent != None && r.overallDelta == Some(0.0)
  {
    StoredElements(c, scores);
    StoredFacts(c, scores);
    SelfDeltasAreLevel(c, scores, tolerance);
    SelfOverallIsLevel(c, scores);
    assert RoundToTwoDecimals(0.0) == 0.0;
  }

  // ---- Screens only the baseline has -----------------------------------------------------------

  function ScreenAmong(keys: seq<string>): ScoreEntry -> bool {
    e => ScreenOf(e) in keys
  }

  lemma AverageIgnoresOthers(baseline: seq<ScoreEntry>, keys: seq<string>, key: string)
    requires key in keys
    ensures Average(Filter(ScreenAmong(keys), baseline), key) == Average(baseline, key)
  {
    SumOfFilter(OneIn(key), ScreenAmong(keys), baseline);
    SumOfFilter(ScoreIn(key), ScreenAmong(keys), baseline);
  }

  lemma ScreensOfFilter(baseline: seq<ScoreEntry>, keys: seq<string>, key: string)
    requires key in keys
    ensures key in Screens(Filter(ScreenAmong(keys), baseline)) <==> key in Screens(baseline)
  {
    FilterMembers(ScreenAmong(keys), baseline);
    ScreensAreThoseOfEntries(baseline);
    ScreensAreThoseOfEntries(Filter(ScreenAmong(keys), baseline));
  }

  lemma {:induction false} FiltersAgree(p: string -> bool, q: string -> bool, keys: seq<string>)
    requires forall key :: key in keys ==> p(key) == q(key)
    ensures Filter(p, keys) == Filter(q, keys)
  {
    if keys != [] {
      var init := keys[..|keys| - 1];
      assert keys[|keys| - 1] in keys && forall key :: key in init ==> key in keys;
      FiltersAgree(p, q, init);
    }
  }

  lemma ReadableFilter(p: ScoreEntry -> bool, scores: seq<ScoreEntry>)
    requires Readable(scores)
    ensures Readable(Filter(p, scores))
  {
    FilterMembers(p, scores);
  }

  /** Baseline screens the current run lacks, wherever they stand, never change an overall value. */
  lemma ExtraBaselineScreensAreIgnored(current: seq<ScoreEntry>, baseline: seq<ScoreEntry>, tolerance: real)
    requires current != [] && tolerance >= 0.0 && Readable(current) && Readable(baseline)
    ensures var own := Filter(ScreenAmong(Screens(current)), baseline);
            && Compared(current, own, tolerance).Ok? && Compared(current, baseline, tolerance).Ok?
            && var r, s := Compared(current, own, tolerance).value, Compared(current, baseline, tolerance).value;
               r.overallBaseline == s.overallBaseline && r.overallCurrent == s.overallCurrent && r.overallDelta == s.overallDelta
  {
    var keys := Screens(current);
    var own := Filter(ScreenAmong(keys), baseline);
    ReadableFilter(ScreenAmong(keys), baseline);
    forall key | key in keys
      ensures ScreenIn(own)(key) == ScreenIn(baseline)(key)
      ensures AverageOf(own)(key) == AverageOf(baseline)(key)
    {
      ScreensOfFilter(baseline, keys, key);
      AverageIgnoresOthers(baseline, keys, key);
    }
    FiltersAgree(ScreenIn(own), ScreenIn(baseline), keys);
    var matched := Filter(ScreenIn(baseline), keys);
    FilterMembers(ScreenIn(baseline), keys);
    assert forall i :: 0 <= i < |matched| ==> matched[i] in matched;
    SumOfSameTerms(AverageOf(own), AverageOf(baseline), matched);
  }
}
