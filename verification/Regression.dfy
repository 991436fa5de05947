/** detectVisualBenchmarkRegression: which score drops raise an alert. */
module Regression {
  import opened Basics
  import opened RealFacts
  import opened StableSort
  import opened Ids
  import opened ScoreMerge
  import opened Canonical
  import opened Deltas

  datatype Config = Config(maxScoreDropPercent: real, neutralTolerance: real) {
    predicate Valid() {
      0.0 <= maxScoreDropPercent <= 100.0 && 0.0 <= neutralTolerance <= 100.0
    }
  }

  const DEFAULT_CONFIG := Config(5.0, 1.0)

  datatype Candidate = Candidate(fixtureId: string, screenId: Option<string>, current: real, baseline: Option<real>)

  datatype Summary = Summary(candidate: Candidate, delta: Option<real>, direction: Trend, withinTolerance: bool, dropPercent: Option<real>)

  datatype Alert = Alert(fixtureId: string, value: real, threshold: real)

  function RawDrop(current: real, baseline: real): real
    requires baseline > 0.0
  {
    (baseline - current) / baseline * 100.0
  }

  /** The change, rounded as it is reported. */
  function Change(c: Candidate): Option<real> {
    if c.baseline.None? then None else Some(RoundToTwoDecimals(c.current - c.baseline.value))
  }

  function DropPercent(c: Candidate): Option<real> {
    if c.baseline.Some? && c.baseline.value > 0.0 then Some(RoundToTwoDecimals(RawDrop(c.current, c.baseline.value))) else None
  }

  /** The unavailable direction counts as within tolerance. */
  function Summarized(config: Config, c: Candidate): Summary {
    var direction := TrendOf(Change(c), config.neutralTolerance);
    Summary(c, Change(c), direction, direction == Level || direction == Unavailable, DropPercent(c))
  }

  /** A drop beyond both the neutral tolerance and, unrounded, the percentage limit. */
  predicate Alerting(config: Config, c: Candidate) {
    && Summarized(config, c).direction == Down
    && c.baseline.value > 0.0
    && RawDrop(c.current, c.baseline.value) > config.maxScoreDropPercent
  }

  function AlertOf(config: Config, c: Candidate): Alert
    requires Alerting(config, c)
  {
    Alert(c.fixtureId, DropPercent(c).value, config.maxScoreDropPercent)
  }

  function Summaries(config: Config, scores: seq<Candidate>): seq<Summary> {
    if scores == [] then [] else Summaries(config, scores[..|scores| - 1]) + [Summarized(config, scores[|scores| - 1])]
  }

  function Alerts(config: Config, scores: seq<Candidate>): seq<Alert> {
    if scores == [] then []
    else
      var last := scores[|scores| - 1];
      Alerts(config, scores[..|scores| - 1]) + (if Alerting(config, last) then [AlertOf(config, last)] else [])
  }

  /** detectVisualBenchmarkRegression. */
  method Detect(scores: seq<Candidate>, config: Config) returns (result: Result<(seq<Summary>, seq<Alert>)>)
    ensures result == if config.Valid() then Ok((Summaries(config, scores), Alerts(config, scores))) else Err("config")
  {
    if config.maxScoreDropPercent < 0.0 || config.maxScoreDropPercent > 100.0
       || config.neutralTolerance < 0.0 || config.neutralTolerance > 100.0 {
      return Err("config");
    }
    var summaries, alerts := [], [];
    for i := 0 to |scores|
      invariant summaries == Summaries(config, scores[..i]) && alerts == Alerts(config, scores[..i])
    {
      assert scores[..i + 1][..i] == scores[..i];
      var entry := scores[i];
      if entry.baseline.None? {
        summaries := summaries + [Summary(entry, None, Unavailable, true, None)];
      } else {
        var baseline := entry.baseline.value;
        var delta := RoundToTwoDecimals(entry.current - baseline);
        var withinTolerance := Abs(delta) <= config.neutralTolerance;
        var direction := if withinTolerance then Level else if delta > 0.0 then Up else Down;
        var dropPercent := None;
        var beyondLimit := false;
        if baseline > 0.0 {
          var rawDropPercent := (baseline - entry.current) / baseline * 100.0;
          dropPercent := Some(RoundToTwoDecimals(rawDropPercent));
          beyondLimit := rawDropPercent > config.maxScoreDropPercent;
        }
        summaries := summaries + [Summary(entry, Some(delta), direction, withinTolerance, dropPercent)];
        if direction == Down && beyondLimit {
          alerts := alerts + [Alert(entry.fixtureId, dropPercent.value, config.maxScoreDropPercent)];
        }
      }
    }
    assert scores[..|scores|] == scores;
    return Ok((summaries, alerts));
  }

  // ---- What is reported ------------------------------------------------------------------------

  /** The change from baseline to current, and how many percent of a positive baseline were lost. */
  predicate Reports(config: Config, c: Candidate, s: Summary) {
    && s.candidate == c && (s.delta.Some? <==> c.baseline.Some?)
    && (s.direction.Unavailable? <==> c.baseline.None?) && (s.withinTolerance <==> s.direction.Level? || s.direction.Unavailable?)
    && (c.baseline.Some? ==> TellsChange(config.neutralTolerance, c.current, c.baseline.value, s.delta.value, s.direction))
    && (s.dropPercent.Some? <==> c.baseline.Some? && c.baseline.value > 0.0)
    && (s.dropPercent.Some? ==> IsRounded(s.dropPercent.value, (c.baseline.value - c.current) / c.baseline.value * 100.0))
  }

  lemma SummaryReports(config: Config, c: Candidate)
    requires config.Valid()
    ensures Reports(config, c, Summarized(config, c))
  {
    if c.baseline.Some? {
      TrendTellsChange(config.neutralTolerance, c.current, c.baseline.value);
      if c.baseline.value > 0.0 {
        RoundedIs(RawDrop(c.current, c.baseline.value));
      }
    }
  }

  /** Every candidate has its summary, in order. */
  lemma {:induction false} SummariesReport(config: Config, scores: seq<Candidate>)
    requires config.Valid()
    ensures |Summaries(config, scores)| == |scores|
    ensures forall i :: 0 <= i < |scores| ==> Reports(config, scores[i], Summaries(config, scores)[i])
  {
    if scores != [] {
      SummariesReport(config, scores[..|scores| - 1]);
      SummaryReports(config, scores[|scores| - 1]);
    }
  }

  /** The alert is about a drop of its value in percent, rounded, and names the limit the drop exceeds. */
  predicate Warns(config: Config, c: Candidate, a: Alert) {
    && c.baseline.Some? && c.baseline.value > 0.0 && a.fixtureId == c.fixtureId && a.threshold == config.maxScoreDropPercent
    && IsRounded(a.value, (c.baseline.value - c.current) / c.baseline.value * 100.0)
    && (c.baseline.value - c.current) / c.baseline.value * 100.0 > a.threshold
  }

  lemma AlertWarns(config: Config, c: Candidate)
    requires Alerting(config, c)
    ensures Warns(config, c, AlertOf(config, c))
  {
    RoundedIs(RawDrop(c.current, c.baseline.value));
  }

  /** Every alert warns of one of the candidates. */
  lemma {:induction false} AlertsWarn(config: Config, scores: seq<Candidate>)
    ensures forall a :: a in Alerts(config, scores) ==> exists c :: c in scores && Alerting(config, c) && Warns(config, c, a)
  {
    if scores != [] {
      var init, last := scores[..|scores| - 1], scores[|scores| - 1];
      AlertsWarn(config, init);
      assert last in scores && forall c :: c in init ==> c in scores;
      if Alerting(config, last) {
        AlertWarns(config, last);
      }
    }
  }

  // ---- Alerts never come from better scores ----------------------------------------------------

  lemma DropIsMonotone(lower: real, higher: real, baseline: real)
    requires lower <= higher && baseline > 0.0
    ensures RawDrop(higher, baseline) <= RawDrop(lower, baseline)
  {
    QuotientIsMonotone(baseline - higher, baseline - lower, baseline);
  }

  /** b is the same comparison with a score at least as high. */
  predicate RaisedTo(a: Candidate, b: Candidate) {
    a.current <= b.current && b == a.(current := b.current)
  }

  lemma RaisingKeepsQuiet(config: Config, a: Candidate, b: Candidate)
    requires config.Valid() && RaisedTo(a, b) && Alerting(config, b)
    ensures Alerting(config, a)
  {
    var baseline := a.baseline.value;
    RoundingIsMonotone(a.current - baseline, b.current - baseline);
    DropIsMonotone(a.current, b.current, baseline);
  }

  /** Raising current scores never creates an alert: every alerting position was alerting before, and
      there are no more alerts than before. */
  lemma {:induction false} RaisingScoresNeverAlerts(config: Config, before: seq<Candidate>, after: seq<Candidate>)
    requires config.Valid() && |before| == |after|
    requires forall i :: 0 <= i < |before| ==> RaisedTo(before[i], after[i])
    ensures forall i :: 0 <= i < |after| && Alerting(config, after[i]) ==> Alerting(config, before[i])
    ensures |Alerts(config, after)| <= |Alerts(config, before)|
  {
    if before != [] {
      var n := |before| - 1;
      RaisingScoresNeverAlerts(config, before[..n], after[..n]);
      assert RaisedTo(before[n], after[n]);
      if Alerting(config, after[n]) {
        RaisingKeepsQuiet(config, before[n], after[n]);
      }
      forall i | 0 <= i < |after| && Alerting(config, after[i])
        ensures Alerting(config, before[i])
      {
        assert i < n ==> before[..n][i] == before[i] && after[..n][i] == after[i];
      }
    }
  }

  /** On two-decimal scores the alert condition needs no rounding: the drop exceeds the tolerance in
      points and the limit in percent of a positive baseline. */
  lemma AlertsOnTheGrid(config: Config, c: Candidate)
    requires config.Valid() && c.baseline.Some? && OnGrid(c.current) && OnGrid(c.baseline.value)
    ensures Alerting(config, c)
        <==> c.baseline.value > 0.0
             && c.baseline.value - c.current > config.neutralTolerance
             && RawDrop(c.current, c.baseline.value) > config.maxScoreDropPercent
  {
    GridIsClosed(c.current, c.baseline.value);
    GridIsFixed(c.current - c.baseline.value);
  }

  // ---- The run's own alerts --------------------------------------------------------------------

  /** The candidates a run hands over: one per delta. */
  function CandidatesOf(deltas: seq<Delta>): seq<Candidate> {
    if deltas == [] then []
    else
      var d := deltas[|deltas| - 1];
      CandidatesOf(deltas[..|deltas| - 1]) + [Candidate(d.entry.fixtureId, d.entry.screenId, d.entry.score, d.baseline)]
  }

  lemma {:induction false} LevelDeltasAreQuiet(config: Config, deltas: seq<Delta>)
    requires config.Valid()
    requires forall d :: d in deltas ==> d.baseline == Some(d.entry.score)
    ensures Alerts(config, CandidatesOf(deltas)) == []
  {
    if deltas != [] {
      var init, d := deltas[..|deltas| - 1], deltas[|deltas| - 1];
      assert d in deltas && forall x :: x in init ==> x in deltas;
      LevelDeltasAreQuiet(config, init);
      var candidate := Candidate(d.entry.fixtureId, d.entry.screenId, d.entry.score, d.baseline);
      assert (CandidatesOf(init) + [candidate])[..|CandidatesOf(init)|] == CandidatesOf(init);
      assert RoundToTwoDecimals(0.0) == 0.0;
      assert !Alerting(config, candidate);
    }
  }

  /** A run compared with the baseline saved from it raises no alert, whatever the configuration. */
  lemma FreshBaselineRaisesNoAlert(c: Collation, scores: seq<ScoreEntry>, tolerance: real, config: Config)
    requires scores != [] && tolerance >= 0.0 && Readable(scores) && KeysDecide(scores) && config.Valid()
    ensures SortCanonical(c, scores).Ok? && Compared(scores, SortCanonical(c, scores).value, tolerance).Ok?
    ensures Alerts(config, CandidatesOf(Compared(scores, SortCanonical(c, scores).value, tolerance).value.deltas)) == []
  {
    SelfComparisonIsLevel(c, scores, tolerance);
    LevelDeltasAreQuiet(config, Compared(scores, SortCanonical(c, scores).value, tolerance).value.deltas);
  }
}
