/** What the rows of a diff say: which entry each is about, which baseline score it is compared with, and
    what its delta and indicator mean. */
module DiffMeaning {
  import opened Basics
  import opened Indexing
  import opened Ids
  import opened ScoreKeys
  import opened ScoreMerge
  import opened ArtifactTree
  import opened BaselineStore
  import opened BaselineDiff
  import opened Baseline

  // ---- The score looked up ---------------------------------------------------------------------

  /** The last baseline score at the exact key, or, when no entry has that key, at the fixture's legacy key. */
  ghost predicate LooksUp(baseline: seq<ScoreEntry>, f: string, screenId: Option<string>, viewportId: Option<string>, score: Option<real>) {
    if exists b :: b in baseline && KeyOf(b) == ScoreKey(f, screenId, viewportId)
    then IsLastScore(KeyOf, baseline, ScoreKey(f, screenId, viewportId), score)
    else IsLastScore(KeyOf, baseline, ScoreKey(f, None, None), score)
  }

  lemma LastScoreExists(scores: seq<ScoreEntry>, key: Result<string>, score: Option<real>)
    requires IsLastScore(KeyOf, scores, key, score)
    ensures score.Some? <==> exists b :: b in scores && KeyOf(b) == key
  {
  }

  lemma LookupFinds(baseline: seq<ScoreEntry>, f: string, screenId: Option<string>, viewportId: Option<string>)
    ensures LooksUp(baseline, f, screenId, viewportId, BaselineScore(baseline, f, screenId, viewportId))
  {
    var exact, legacy := ScoreKey(f, screenId, viewportId), ScoreKey(f, None, None);
    LastAtIsLast(baseline, exact);
    LastAtIsLast(baseline, legacy);
    LastScoreExists(baseline, exact, LastAt(baseline, exact));
  }

  /** No baseline entry has the exact key or the fixture's legacy key. */
  ghost predicate Unknown(baseline: seq<ScoreEntry>, f: string, screenId: Option<string>, viewportId: Option<string>) {
    forall b :: b in baseline ==> KeyOf(b) != ScoreKey(f, screenId, viewportId) && KeyOf(b) != ScoreKey(f, None, None)
  }

  lemma NothingFoundExactly(baseline: seq<ScoreEntry>, f: string, screenId: Option<string>, viewportId: Option<string>, score: Option<real>)
    requires LooksUp(baseline, f, screenId, viewportId, score)
    ensures score.None? <==> Unknown(baseline, f, screenId, viewportId)
  {
    if exists b :: b in baseline && KeyOf(b) == ScoreKey(f, screenId, viewportId) {
      LastScoreExists(baseline, ScoreKey(f, screenId, viewportId), score);
    } else {
      LastScoreExists(baseline, ScoreKey(f, None, None), score);
    }
  }

  // ---- The grade of a row ----------------------------------------------------------------------

  /** The delta is the current score minus the baseline score, rounded; the indicator says whether it is
      above the tolerance, below its negative or within, and new means there was nothing to compare. */
  predicate Grades(tolerance: real, row: Row) {
    && (row.indicator.New? <==> row.baseline.None?) && (row.delta.Some? <==> row.baseline.Some?)
    && (row.delta.Some? ==>
          && IsRounded(row.delta.value, row.current - row.baseline.value)
          && (row.indicator.Improved? <==> row.delta.value > tolerance)
          && (row.indicator.Degraded? <==> row.delta.value < -tolerance))
  }

  /** On two-decimal scores nothing is lost to rounding. */
  predicate GradesExactly(tolerance: real, row: Row) {
    row.baseline.Some? && OnGrid(row.current) && OnGrid(row.baseline.value) ==>
      && row.delta == Some(row.current - row.baseline.value)
      && (row.indicator.Improved? <==> row.current - row.baseline.value > tolerance)
      && (row.indicator.Degraded? <==> row.baseline.value - row.current > tolerance)
  }

  lemma ScoreRowGrades(catalog: Catalog, baseline: seq<ScoreEntry>, tolerance: real, entry: ScoreEntry, artifact: Option<Artifact>)
    requires entry.fixtureId in catalog && tolerance >= 0.0
    ensures Grades(tolerance, ScoreRow(catalog, baseline, tolerance, entry, artifact))
    ensures GradesExactly(tolerance, ScoreRow(catalog, baseline, tolerance, entry, artifact))
  {
    var row := ScoreRow(catalog, baseline, tolerance, entry, artifact);
    if row.baseline.Some? {
      DifferenceIsRounded(row.current, row.baseline.value);
    }
  }

  // ---- The screen and the artifact of a row ----------------------------------------------------

  /** Legacy entries, which name no screen or the fixture itself, mean the only screen of a single-screen
      fixture; every other entry means the screen it names. */
  predicate MeansScreen(m: Metadata, entry: ScoreEntry, screenId: string) {
    var screens, named := EnumerateScreens(m), NonBlank(entry.screenId);
    if |screens| == 1 && (named.None? || named.value == entry.fixtureId) then screenId == screens[0].screenId
    else if named.Some? then screenId == named.value
    else screenId == m.sourceNodeId
  }

  /** The first artifact of the viewport; none when there is none of that viewport. */
  predicate IsFirstOf(artifacts: seq<Artifact>, viewportId: Option<string>, found: Option<Artifact>) {
    match found
    case None => forall a :: a in artifacts ==> !SameViewport(a, viewportId)
    case Some(first) =>
      exists k :: 0 <= k < |artifacts| && artifacts[k] == first && SameViewport(first, viewportId)
                  && forall j :: 0 <= j < k ==> !SameViewport(artifacts[j], viewportId)
  }

  /** A missing viewport id is the same as "default". */
  predicate SameViewport(a: Artifact, viewportId: Option<string>) {
    NonBlank(a.manifest.viewportId).GetOr("default") == NonBlank(viewportId).GetOr("default")
  }

  lemma {:induction false} FindFindsFirst(artifacts: seq<Artifact>, viewportId: Option<string>)
    ensures IsFirstOf(artifacts, viewportId, FindArtifact(artifacts, viewportId))
  {
    if artifacts != [] {
      var head, tail := artifacts[0], artifacts[1..];
      assert artifacts == [head] + tail;
      if SameViewport(head, viewportId) {
        assert artifacts[0] == head;
      } else {
        FindFindsFirst(tail, viewportId);
        if FindArtifact(tail, viewportId).Some? {
          var k :| 0 <= k < |tail| && tail[k] == FindArtifact(tail, viewportId).value
                   && forall j :: 0 <= j < k ==> !SameViewport(tail[j], viewportId);
          assert artifacts[k + 1] == tail[k] && forall j :: 1 <= j < k + 1 ==> artifacts[j] == tail[j - 1];
        }
      }
    }
  }

  // ---- A whole diff ----------------------------------------------------------------------------

  /** The row tells about the entry: its own score against the baseline score of the screen it means. */
  ghost predicate TellsAbout(e: Setting, tree: Tree, baseline: seq<ScoreEntry>, entry: ScoreEntry, row: Row) {
    && entry.fixtureId in e.catalog
    && row.fixtureId == entry.fixtureId && row.viewportId == entry.viewportId && row.current == entry.score
    && MeansScreen(e.catalog[entry.fixtureId], entry, row.screenId)
    && LooksUp(baseline, row.fixtureId, Some(row.screenId), row.viewportId, row.baseline)
    && (row.indicator.New? <==> Unknown(baseline, row.fixtureId, Some(row.screenId), row.viewportId))
    && Grades(e.tolerance, row) && GradesExactly(e.tolerance, row)
    && var artifacts := ArtifactsForScreen(e.c, e.listing, tree, row.fixtureId, row.screenId, |EnumerateScreens(e.catalog[row.fixtureId])|);
       artifacts.Ok? && IsFirstOf(artifacts.value, row.viewportId, row.artifact)
  }

  lemma RowTellsAbout(e: Setting, tree: Tree, baseline: seq<ScoreEntry>, entry: ScoreEntry)
    requires DiffRow(e, tree, baseline, entry).Ok? && e.tolerance >= 0.0
    ensures TellsAbout(e, tree, baseline, entry, DiffRow(e, tree, baseline, entry).value)
  {
    var row := DiffRow(e, tree, baseline, entry).value;
    LookupFinds(baseline, entry.fixtureId, Some(row.screenId), entry.viewportId);
    NothingFoundExactly(baseline, entry.fixtureId, Some(row.screenId), entry.viewportId, row.baseline);
    ScoreRowGrades(e.catalog, baseline, e.tolerance, entry, row.artifact);
    FindFindsFirst(EntryArtifacts(e, tree, entry).value, entry.viewportId);
  }

  /** The entry belongs to the target of a diff. */
  predicate Targeted(fixtureId: Option<string>, screenId: Option<string>, entry: ScoreEntry) {
    (fixtureId.Some? ==> entry.fixtureId == fixtureId.value) && (screenId.Some? ==> entry.screenId == screenId)
  }

  /** One row for each entry, in order. */
  ghost predicate RowPerEntry(e: Setting, tree: Tree, baseline: seq<ScoreEntry>, entries: seq<ScoreEntry>, rows: seq<Row>) {
    |rows| == |entries| && forall i :: 0 <= i < |rows| ==> TellsAbout(e, tree, baseline, entries[i], rows[i])
  }

  lemma {:induction false} RowsTellAbout(e: Setting, tree: Tree, baseline: seq<ScoreEntry>, entries: seq<ScoreEntry>)
    requires DiffRows(e, tree, baseline, entries).Ok? && e.tolerance >= 0.0
    ensures RowPerEntry(e, tree, baseline, entries, DiffRows(e, tree, baseline, entries).value)
    decreases |entries|
  {
    if entries != [] {
      var init, last := entries[..|entries| - 1], entries[|entries| - 1];
      assert entries == init + [last];
      RowsSnoc(e, tree, baseline, init, last);
      RowsTellAbout(e, tree, baseline, init);
      RowTellsAbout(e, tree, baseline, last);
      OneMoreRow(e, tree, baseline, init, last, DiffRows(e, tree, baseline, init).value, DiffRow(e, tree, baseline, last).value);
    }
  }

  lemma OneMoreRow(e: Setting, tree: Tree, baseline: seq<ScoreEntry>, init: seq<ScoreEntry>, last: ScoreEntry, rows: seq<Row>, row: Row)
    requires RowPerEntry(e, tree, baseline, init, rows) && TellsAbout(e, tree, baseline, last, row)
    ensures RowPerEntry(e, tree, baseline, init + [last], rows + [row])
  {
  }

  /** A diff tells about the stored entries of its target, in their order and one row each, and is pending
      exactly when some row is improved, degraded or new. */
  lemma DiffTells(e: Setting, s: Stores, tree: Tree, fixtureId: Option<string>, screenId: Option<string>)
    requires Diffed(e, s, tree, fixtureId, screenId).Ok? && e.tolerance >= 0.0
    ensures var rows, lastRun, baseline := Diffed(e, s, tree, fixtureId, screenId).value, LoadedLastRun(e.c, s.lastRun),
              LoadedBaseline(e.c, e.catalog, s.baseline);
            && lastRun.Ok? && baseline.Ok?
            && RowPerEntry(e, tree, baseline.value, Filter((x: ScoreEntry) => Targeted(fixtureId, screenId, x), lastRun.value), rows)
            && (Pending(rows) <==> exists row :: row in rows && (row.indicator.Improved? || row.indicator.Degraded? || row.indicator.New?))
  {
    var l := LoadedLastRun(e.c, s.lastRun).value;
    SameFilter(Selected(fixtureId, screenId), (x: ScoreEntry) => Targeted(fixtureId, screenId, x), l);
    RowsTellAbout(e, tree, LoadedBaseline(e.c, e.catalog, s.baseline).value, Filter(Selected(fixtureId, screenId), l));
  }
}
