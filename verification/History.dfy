/** The bounded histories of scores: appending keeps a sliding window over everything ever appended,
    and files hold the normal form of their entries. */
module History {
  import opened Basics
  import opened StableSort
  import opened Ids
  import opened ScoreKeys
  import opened ScoreMerge
  import opened Canonical

  const MAX_HISTORY_SIZE := 1000

  datatype HistoryEntry = HistoryEntry(runAt: string, scores: seq<ScoreEntry>)

  // ---- The sliding window ----------------------------------------------------------------------

  /** combined.length > max ? combined.slice(-max) : combined. */
  function Window<T>(existing: seq<T>, entry: T, max: nat): seq<T> {
    var combined := existing + [entry];
    if |combined| > max then combined[|combined| - max..] else combined
  }

  datatype Step<T> = Step(entry: T, max: nat)

  /** A run of appends, each with its own limit. */
  function Run<T>(start: seq<T>, steps: seq<Step<T>>): seq<T> {
    if steps == [] then start
    else Window(Run(start, steps[..|steps| - 1]), steps[|steps| - 1].entry, steps[|steps| - 1].max)
  }

  function Appended<T>(steps: seq<Step<T>>): (r: seq<T>)
    ensures |r| == |steps|
    ensures forall i :: 0 <= i < |r| ==> r[i] == steps[i].entry
  {
    seq(|steps|, i requires 0 <= i < |steps| => steps[i].entry)
  }

  /** How many entries remain: every limit m caps the entries up to its step, later steps add one each. */
  function Remaining(start: nat, limits: seq<nat>): nat {
    if limits == [] then start
    else Min(Remaining(start, limits[..|limits| - 1]) + 1, limits[|limits| - 1])
  }

  function Limits<T>(steps: seq<Step<T>>): (r: seq<nat>)
    ensures |r| == |steps|
    ensures forall i :: 0 <= i < |r| ==> r[i] == steps[i].max
  {
    seq(|steps|, i requires 0 <= i < |steps| => steps[i].max)
  }

  predicate IsSuffix<T(==)>(s: seq<T>, all: seq<T>) {
    |s| <= |all| && s == all[|all| - |s|..]
  }

  lemma WindowIsSuffix<T>(existing: seq<T>, all: seq<T>, entry: T, max: nat)
    requires IsSuffix(existing, all)
    ensures IsSuffix(Window(existing, entry, max), all + [entry])
    ensures |Window(existing, entry, max)| == Min(|existing| + 1, max)
  {
    var k := |all| - |existing|;
    assert (all + [entry])[k..] == existing + [entry];
    var drop := if |existing| + 1 > max then |existing| + 1 - max else 0;
    assert Window(existing, entry, max) == (existing + [entry])[drop..] == (all + [entry])[k + drop..];
  }

  /** The stored entries are exactly the latest of everything ever appended, in order. */
  lemma {:induction false} RunKeepsSuffix<T>(start: seq<T>, steps: seq<Step<T>>)
    ensures IsSuffix(Run(start, steps), start + Appended(steps))
    ensures |Run(start, steps)| == Remaining(|start|, Limits(steps))
  {
    if steps == [] {
      assert start + Appended(steps) == start;
    } else {
      var init, last := steps[..|steps| - 1], steps[|steps| - 1];
      RunKeepsSuffix(start, init);
      WindowIsSuffix(Run(start, init), start + Appended(init), last.entry, last.max);
      assert Limits(steps)[..|init|] == Limits(init);
      assert Appended(steps) == Appended(init) + [last.entry];
      assert start + Appended(steps) == start + Appended(init) + [last.entry];
    }
  }

  /** In closed form: some limit, or the start, decides the length, and none is exceeded. */
  lemma {:induction false} RemainingClosedForm(start: nat, limits: seq<nat>)
    ensures Remaining(start, limits) <= start + |limits|
    ensures forall i :: 0 <= i < |limits| ==> Remaining(start, limits) <= limits[i] + (|limits| - 1 - i)
    ensures Remaining(start, limits) == start + |limits|
         || exists i :: 0 <= i < |limits| && Remaining(start, limits) == limits[i] + (|limits| - 1 - i)
  {
    if limits != [] {
      var n := |limits| - 1;
      RemainingClosedForm(start, limits[..n]);
      if Remaining(start, limits) == limits[n] {
        assert Remaining(start, limits) == limits[n] + (|limits| - 1 - n);
      } else if Remaining(start, limits[..n]) != start + n {
        var i :| 0 <= i < n && Remaining(start, limits[..n]) == limits[..n][i] + (n - 1 - i);
        assert Remaining(start, limits) == limits[i] + (|limits| - 1 - i);
      }
    }
  }

  // ---- The visual benchmark history ------------------------------------------------------------

  /** normalizeHistoryScoreEntry throws for these ids. */
  predicate Normalizable(e: ScoreEntry) {
    FixtureId(e.fixtureId).Ok? && (NonBlank(e.viewportId).Some? ==> ViewportId(NonBlank(e.viewportId).value).Ok?)
  }

  /** normalizeHistoryScores. */
  function NormalizedScores(c: Collation, scores: seq<ScoreEntry>): Result<seq<ScoreEntry>> {
    if forall e :: e in scores ==> Normalizable(e) then Ok(SortScores(c, CanonAll(scores))) else Err("history id")
  }

  function Normalized(c: Collation, entries: seq<HistoryEntry>): Result<seq<HistoryEntry>> {
    if entries == [] then Ok([])
    else
      var init :- Normalized(c, entries[..|entries| - 1]);
      var scores :- NormalizedScores(c, entries[|entries| - 1].scores);
      Ok(init + [HistoryEntry(entries[|entries| - 1].runAt, scores)])
  }

  /** appendVisualBenchmarkHistoryEntry. */
  function AppendVisual(c: Collation, history: Option<seq<HistoryEntry>>, entry: HistoryEntry, maxEntries: int)
    : Result<seq<HistoryEntry>>
  {
    if maxEntries <= 0 then Err("maxEntries must be a positive integer.")
    else if maxEntries > MAX_HISTORY_SIZE then Err("maxEntries too large")
    else if Trim(entry.runAt) == [] then Err("runAt")
    else
      var scores :- NormalizedScores(c, entry.scores);
      Ok(Window(history.GetOr([]), HistoryEntry(entry.runAt, scores), maxEntries))
  }

  /** saveVisualBenchmarkHistory writes the normal form, and a version-2 load normalises again. */
  function SaveThenLoad(c: Collation, history: seq<HistoryEntry>): Result<seq<HistoryEntry>> {
    var file :- Normalized(c, history);
    Normalized(c, file)
  }

  lemma NormalizedScoresAreStable(c: Collation, scores: seq<ScoreEntry>)
    requires NormalizedScores(c, scores).Ok?
    ensures NormalizedScores(c, NormalizedScores(c, scores).value) == NormalizedScores(c, scores)
  {
    CanonicalFilesAreStable(c, scores);
    EntryOrderIsTotal(c);
    SortFacts(EntryOrder(c), CanonAll(scores));
    var stored := NormalizedScores(c, scores).value;
    forall e | e in stored ensures Normalizable(e) {
      var i :| 0 <= i < |scores| && Canon(scores[i]) == e by {
        assert e in CanonAll(scores);
      }
      assert scores[i] in scores;
      CanonFacts(scores[i]);
      NonBlankFacts(scores[i].viewportId);
    }
  }

  /** A save followed by a load is one normalisation, and normalising is idempotent. */
  lemma {:induction false} SaveThenLoadIsNormalisation(c: Collation, history: seq<HistoryEntry>)
    ensures SaveThenLoad(c, history) == Normalized(c, history)
    ensures Normalized(c, history).Ok? ==> Normalized(c, Normalized(c, history).value) == Normalized(c, history)
    ensures Normalized(c, history).Ok? ==> |Normalized(c, history).value| == |history|
  {
    if history != [] {
      var init, last := history[..|history| - 1], history[|history| - 1];
      SaveThenLoadIsNormalisation(c, init);
      if Normalized(c, init).Ok? && NormalizedScores(c, last.scores).Ok? {
        NormalizedScoresAreStable(c, last.scores);
        var file := Normalized(c, history).value;
        assert file[..|file| - 1] == Normalized(c, init).value;
      }
    }
  }

  // ---- The composite quality history -----------------------------------------------------------

  datatype CompositeEntry = CompositeEntry(
    runAt: string, visualWeight: real, performanceWeight: real,
    visualScore: Option<real>, performanceScore: Option<real>, compositeScore: Option<real>)

  /** appendCompositeQualityHistoryEntry: entries are stored as given. */
  function AppendComposite(history: Option<seq<CompositeEntry>>, entry: CompositeEntry, maxEntries: int)
    : Result<seq<CompositeEntry>>
  {
    if maxEntries <= 0 then Err("maxEntries must be a positive integer.")
    else if maxEntries > MAX_HISTORY_SIZE then Err("maxEntries too large")
    else if Trim(entry.runAt) == [] then Err("runAt")
    else Ok(Window(history.GetOr([]), entry, maxEntries))
  }

  /** Both histories are the same window: over any run of accepted appends to the visual history, the
      file holds the run of its normalised entries. */
  function VisualRun(c: Collation, history: Option<seq<HistoryEntry>>, steps: seq<Step<HistoryEntry>>)
    : Result<seq<HistoryEntry>>
  {
    if steps == [] then Ok(history.GetOr([]))
    else
      var before :- VisualRun(c, history, steps[..|steps| - 1]);
      AppendVisual(c, Some(before), steps[|steps| - 1].entry, steps[|steps| - 1].max)
  }

  function NormalizedSteps(c: Collation, steps: seq<Step<HistoryEntry>>): seq<Step<HistoryEntry>> {
    if steps == [] then []
    else
      var last := steps[|steps| - 1];
      NormalizedSteps(c, steps[..|steps| - 1])
      + [Step(HistoryEntry(last.entry.runAt, match NormalizedScores(c, last.entry.scores) case Ok(s) => s case Err(_) => []), last.max)]
  }

  lemma {:induction false} VisualRunIsWindow(c: Collation, history: Option<seq<HistoryEntry>>, steps: seq<Step<HistoryEntry>>)
    requires VisualRun(c, history, steps).Ok?
    ensures VisualRun(c, history, steps).value == Run(history.GetOr([]), NormalizedSteps(c, steps))
  {
    if steps != [] {
      VisualRunIsWindow(c, history, steps[..|steps| - 1]);
      var n := NormalizedSteps(c, steps);
      assert n[..|n| - 1] == NormalizedSteps(c, steps[..|steps| - 1]);
    }
  }

  /** However the limits vary, an accepted append leaves at least one entry and at most the hard cap. */
  lemma VisualRunIsBounded(c: Collation, history: Option<seq<HistoryEntry>>, steps: seq<Step<HistoryEntry>>)
    requires VisualRun(c, history, steps).Ok? && steps != []
    ensures 1 <= |VisualRun(c, history, steps).value| <= 1000
  {
    var before := VisualRun(c, history, steps[..|steps| - 1]).value;
    assert AppendVisual(c, Some(before), steps[|steps| - 1].entry, steps[|steps| - 1].max) == VisualRun(c, history, steps);
  }

  function CompositeRun(history: Option<seq<CompositeEntry>>, steps: seq<Step<CompositeEntry>>): Result<seq<CompositeEntry>> {
    if steps == [] then Ok(history.GetOr([]))
    else
      var before :- CompositeRun(history, steps[..|steps| - 1]);
      AppendComposite(Some(before), steps[|steps| - 1].entry, steps[|steps| - 1].max)
  }

  lemma {:induction false} CompositeRunIsWindow(history: Option<seq<CompositeEntry>>, steps: seq<Step<CompositeEntry>>)
    requires CompositeRun(history, steps).Ok?
    ensures CompositeRun(history, steps).value == Run(history.GetOr([]), steps)
    ensures steps != [] ==> 1 <= |CompositeRun(history, steps).value| <= 1000
  {
    if steps != [] {
      CompositeRunIsWindow(history, steps[..|steps| - 1]);
    }
  }
}
