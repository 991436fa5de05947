/** Comparing the last run with the baseline. */
module BaselineDiff {
  import opened Basics
  import opened Indexing
  import opened StableSort
  import opened Ids
  import opened ScoreKeys
  import opened ScoreMerge
  import opened Canonical
  import opened ArtifactTree
  import opened BaselineStore

  datatype Indicator = Improved | Degraded | Neutral | New

  /** getDiffIndicator. */
  function DiffIndicator(baseline: Option<real>, current: real, tolerance: real): Indicator {
    match baseline
    case None => New
    case Some(b) =>
      var delta := RoundToTwoDecimals(current - b);
      if Abs(delta) <= tolerance then Neutral else if delta > 0.0 then Improved else Degraded
  }

  /** The score a map filled entry by entry ends up holding for a key: the last one. */
  function LastAt(scores: seq<ScoreEntry>, key: Result<string>): Option<real> {
    if scores == [] then None
    else if KeyOf(scores[|scores| - 1]) == key then Some(scores[|scores| - 1].score)
    else LastAt(scores[..|scores| - 1], key)
  }

  lemma {:induction false} LastAtIsLastFiltered(scores: seq<ScoreEntry>, key: Result<string>)
    ensures var f := Filter(KeyIs(key), scores);
            LastAt(scores, key) == if f == [] then None else Some(f[|f| - 1].score)
  {
    if scores != [] && KeyOf(scores[|scores| - 1]) != key {
      LastAtIsLastFiltered(scores[..|scores| - 1], key);
      assert Filter(KeyIs(key), scores[..|scores| - 1]) + [] == Filter(KeyIs(key), scores[..|scores| - 1]);
    }
  }

  lemma {:induction false} LastAtIsLast(scores: seq<ScoreEntry>, key: Result<string>)
    ensures IsLastScore(KeyOf, scores, key, LastAt(scores, key))
  {
    if scores == [] {
      assert IsLast(KeyOf, scores, key, None);
    } else {
      var init, last := scores[..|scores| - 1], scores[|scores| - 1];
      assert scores == init + [last];
      if KeyOf(last) == key {
        assert IsLast(KeyOf, scores, key, Some(last));
      } else {
        LastAtIsLast(init, key);
        var x :| IsLast(KeyOf, init, key, x) && LastAt(init, key) == (if x.None? then None else Some(x.value.score));
        LastSurvives(init, last, key, x);
      }
    }
  }

  lemma LastSurvives(init: seq<ScoreEntry>, last: ScoreEntry, key: Result<string>, x: Option<ScoreEntry>)
    requires IsLast(KeyOf, init, key, x) && KeyOf(last) != key
    ensures IsLast(KeyOf, init + [last], key, x)
  {
    var scores := init + [last];
    if x.Some? {
      var k :| 0 <= k < |init| && init[k] == x.value && KeyOf(init[k]) == key && forall j :: k < j < |init| ==> KeyOf(init[j]) != key;
      assert scores[k] == init[k] && forall j :: k < j < |init| ==> scores[j] == init[j];
    }
  }

  /** getBaselineMapScore: the exact key, else the fixture's legacy key. */
  function BaselineScore(scores: seq<ScoreEntry>, f: string, screenId: Option<string>, viewportId: Option<string>): Option<real> {
    var exact := LastAt(scores, ScoreKey(f, screenId, viewportId));
    if exact.Some? then exact else LastAt(scores, ScoreKey(f, None, None))
  }

  /** resolveCanonicalScreenId. */
  function ResolveCanonicalScreenId(f: string, screenId: Option<string>, screens: seq<Screen>): Option<string> {
    match NonBlank(screenId)
    case None => if |screens| == 1 then Some(screens[0].screenId) else None
    case Some(s) => if s == f && |screens| == 1 then Some(screens[0].screenId) else Some(s)
  }

  function ResolvedScreenId(f: string, screenId: Option<string>, m: Metadata): string {
    ResolveCanonicalScreenId(f, screenId, EnumerateScreens(m)).GetOr(m.sourceNodeId)
  }

  // ---- The artifacts beside an entry -----------------------------------------------------------

  /** loadArtifactsForScreen: the screen's own artifacts, or for a single-screen fixture whatever the
      fixture has. */
  function ArtifactsForScreen(c: Collation, listing: Listing, tree: Tree, f: string, screenId: string, screens: nat): Result<seq<Artifact>> {
    var own :- LoadedScreen(c, listing, tree, f, screenId);
    if own != [] then Ok(own) else if screens == 1 then Loaded(c, listing, tree, f) else Ok([])
  }

  function ViewportToken(viewportId: Option<string>): string {
    NonBlank(viewportId).GetOr("default")
  }

  /** findArtifactForViewport: the first artifact of the viewport. */
  function FindArtifact(artifacts: seq<Artifact>, viewportId: Option<string>): Option<Artifact> {
    if artifacts == [] then None
    else if ViewportToken(artifacts[0].manifest.viewportId) == ViewportToken(viewportId) then Some(artifacts[0])
    else FindArtifact(artifacts[1..], viewportId)
  }

  /** The artifacts a diff loads for an entry. */
  function EntryArtifacts(e: Setting, tree: Tree, entry: ScoreEntry): Result<seq<Artifact>>
    requires entry.fixtureId in e.catalog
  {
    var m := e.catalog[entry.fixtureId];
    ArtifactsForScreen(e.c, e.listing, tree, entry.fixtureId, ResolvedScreenId(entry.fixtureId, entry.screenId, m), |EnumerateScreens(m)|)
  }

  // ---- Rows ------------------------------------------------------------------------------------

  /** A row; its paths and run time are those of the artifact, when there is one. */
  datatype Row = Row(
    fixtureId: string, screenId: string, viewportId: Option<string>,
    baseline: Option<real>, current: real, delta: Option<real>, indicator: Indicator, artifact: Option<Artifact>)

  function ScoreRow(catalog: Catalog, baseline: seq<ScoreEntry>, tolerance: real, entry: ScoreEntry, artifact: Option<Artifact>): Row
    requires entry.fixtureId in catalog
  {
    var screenId := ResolvedScreenId(entry.fixtureId, entry.screenId, catalog[entry.fixtureId]);
    var score := BaselineScore(baseline, entry.fixtureId, Some(screenId), entry.viewportId);
    Row(entry.fixtureId, screenId, entry.viewportId, score, entry.score,
        if score.Some? then Some(RoundToTwoDecimals(entry.score - score.value)) else None,
        DiffIndicator(score, entry.score, tolerance), artifact)
  }

  /** One entry of the diff; it throws for a fixture without metadata, and when loading the screen's
      artifacts does. */
  function DiffRow(e: Setting, tree: Tree, baseline: seq<ScoreEntry>, entry: ScoreEntry): Result<Row> {
    if entry.fixtureId !in e.catalog then Err("metadata")
    else
      var artifacts :- EntryArtifacts(e, tree, entry);
      Ok(ScoreRow(e.catalog, baseline, e.tolerance, entry, FindArtifact(artifacts, entry.viewportId)))
  }

  function DiffRows(e: Setting, tree: Tree, baseline: seq<ScoreEntry>, scores: seq<ScoreEntry>): Result<seq<Row>> {
    if scores == [] then Ok([])
    else
      var rows :- DiffRows(e, tree, baseline, scores[..|scores| - 1]);
      var row :- DiffRow(e, tree, baseline, scores[|scores| - 1]);
      Ok(rows + [row])
  }

  /** The entry has metadata and its artifacts load. */
  predicate Diffable(e: Setting, tree: Tree, entry: ScoreEntry) {
    entry.fixtureId in e.catalog && EntryArtifacts(e, tree, entry).Ok?
  }

  lemma RowExistsExactly(e: Setting, tree: Tree, baseline: seq<ScoreEntry>, entry: ScoreEntry)
    ensures DiffRow(e, tree, baseline, entry).Ok? <==> Diffable(e, tree, entry)
  {
  }

  /** The rows exist exactly when every entry has metadata and loadable artifacts. */
  lemma {:induction false} RowsExistExactly(e: Setting, tree: Tree, baseline: seq<ScoreEntry>, scores: seq<ScoreEntry>)
    ensures DiffRows(e, tree, baseline, scores).Ok? <==> forall entry :: entry in scores ==> Diffable(e, tree, entry)
    ensures DiffRows(e, tree, baseline, scores).Ok? ==> |DiffRows(e, tree, baseline, scores).value| == |scores|
  {
    if scores != [] {
      var init, last := scores[..|scores| - 1], scores[|scores| - 1];
      RowsExistExactly(e, tree, baseline, init);
      RowExistsExactly(e, tree, baseline, last);
      assert scores == init + [last] && last in scores && forall entry :: entry in init ==> entry in scores;
    }
  }

  lemma RowsSnoc(e: Setting, tree: Tree, baseline: seq<ScoreEntry>, init: seq<ScoreEntry>, last: ScoreEntry)
    requires DiffRows(e, tree, baseline, init + [last]).Ok?
    ensures DiffRows(e, tree, baseline, init).Ok? && DiffRow(e, tree, baseline, last).Ok?
    ensures DiffRows(e, tree, baseline, init + [last]).value
         == DiffRows(e, tree, baseline, init).value + [DiffRow(e, tree, baseline, last).value]
  {
    assert (init + [last])[..|init|] == init;
  }

  predicate Pending(rows: seq<Row>) {
    exists row :: row in rows && row.indicator != Neutral
  }

  // ---- Written entries are neutral -------------------------------------------------------------

  /** An entry a command writes: its screen is one the fixture's metadata enumerates. */
  ghost predicate FromCatalog(catalog: Catalog, w: ScoreEntry) {
    && w.fixtureId in catalog
    && exists s :: s in EnumerateScreens(catalog[w.fixtureId]) && NonBlank(w.screenId) == NonBlank(Some(s.screenId)) != None
  }

  lemma FromCatalogIsComplete(catalog: Catalog, w: ScoreEntry)
    requires ValidCatalog(catalog) && FromCatalog(catalog, w)
    ensures Complete(w) && FixtureId(w.fixtureId) == Ok(w.fixtureId)
  {
  }

  lemma ZeroIsNeutral(score: real, tolerance: real)
    requires tolerance >= 0.0
    ensures DiffIndicator(Some(score), score, tolerance) == Neutral && RoundToTwoDecimals(score - score) == 0.0
  {
    assert Round(0.0) == 0;
  }

  lemma ResolvedScreenIsNamed(f: string, screenId: Option<string>, screens: seq<Screen>, s: Screen)
    requires s in screens && NonBlank(screenId) == NonBlank(Some(s.screenId)) != None
    ensures NonBlank(ResolveCanonicalScreenId(f, screenId, screens)) == NonBlank(screenId)
  {
    NonBlankFacts(screenId);
    if NonBlank(screenId).value == f && |screens| == 1 {
      assert s == screens[0];
    }
  }

  lemma KeyReadsNonBlank(f: string, s: Option<string>, t: Option<string>, v: Option<string>)
    requires NonBlank(s) == NonBlank(t)
    ensures ScoreKey(f, s, v) == ScoreKey(f, t, v)
  {
  }

  /** The screen the diff looks up is the screen the entry names. */
  lemma ResolutionKeepsKey(catalog: Catalog, e: ScoreEntry)
    requires FromCatalog(catalog, e)
    ensures ScoreKey(e.fixtureId, Some(ResolvedScreenId(e.fixtureId, e.screenId, catalog[e.fixtureId])), e.viewportId) == KeyOf(e)
  {
    var screens := EnumerateScreens(catalog[e.fixtureId]);
    var s :| s in screens && NonBlank(e.screenId) == NonBlank(Some(s.screenId)) != None;
    ResolvedScreenIsNamed(e.fixtureId, e.screenId, screens, s);
    KeyReadsNonBlank(e.fixtureId, Some(ResolvedScreenId(e.fixtureId, e.screenId, catalog[e.fixtureId])), e.screenId, e.viewportId);
  }

  lemma StoredIsFromCatalog(catalog: Catalog, w: ScoreEntry)
    requires ValidCatalog(catalog) && FromCatalog(catalog, w)
    ensures FromCatalog(catalog, Stored(catalog, w)) && Stored(catalog, w).fixtureId == w.fixtureId
    ensures KeyOf(Stored(catalog, w)) == KeyOf(w)
  {
    FromCatalogIsComplete(catalog, w);
    StoredKeepsKey(catalog, w);
    NonBlankFacts(w.screenId);
  }

  lemma LastOfSingleton(scores: seq<ScoreEntry>, key: Result<string>, e: ScoreEntry)
    requires Filter(KeyIs(key), scores) == [e]
    ensures LastAt(scores, key) == Some(e.score)
  {
    LastAtIsLastFiltered(scores, key);
  }

  /** The entry's row shows a baseline equal to its score. */
  predicate IsNeutralAt(catalog: Catalog, baseline: seq<ScoreEntry>, tolerance: real, entry: ScoreEntry) {
    entry.fixtureId in catalog
    && var row := ScoreRow(catalog, baseline, tolerance, entry, None);
       row.baseline == Some(entry.score) && row.delta == Some(0.0) && row.indicator == Neutral
  }

  lemma RowOfMatch(catalog: Catalog, baseline: seq<ScoreEntry>, tolerance: real, e: ScoreEntry)
    requires FromCatalog(catalog, e) && tolerance >= 0.0
    requires LastAt(baseline, KeyOf(e)) == Some(e.score)
    ensures IsNeutralAt(catalog, baseline, tolerance, e)
  {
    ResolutionKeepsKey(catalog, e);
    ZeroIsNeutral(e.score, tolerance);
  }

  /** When the baseline holds exactly the written entry at its key, the diff of that entry is neutral. */
  lemma WrittenRowIsNeutral(catalog: Catalog, baseline: seq<ScoreEntry>, tolerance: real, w: ScoreEntry)
    requires ValidCatalog(catalog) && FromCatalog(catalog, w) && tolerance >= 0.0
    requires Filter(KeyIs(KeyOf(w)), baseline) == [Stored(catalog, w)]
    ensures IsNeutralAt(catalog, baseline, tolerance, Stored(catalog, w)) && Stored(catalog, w).score == w.score
  {
    FromCatalogIsComplete(catalog, w);
    StoredKeepsKey(catalog, w);
    StoredIsFromCatalog(catalog, w);
    LastOfSingleton(baseline, KeyOf(w), Stored(catalog, w));
    RowOfMatch(catalog, baseline, tolerance, Stored(catalog, w));
  }

  // ---- After a commit --------------------------------------------------------------------------

  ghost predicate AllFromCatalog(catalog: Catalog, written: seq<ScoreEntry>) {
    forall w :: w in written ==> FromCatalog(catalog, w)
  }

  /** After committing uniquely keyed scores, a store in which nothing kept shares the entry's key holds
      it exactly once, and a diff against that store shows it neutral with delta 0. */
  lemma CommittedEntryIsNeutral(
      c: Collation, catalog: Catalog, tolerance: real, stored: seq<ScoreEntry>, written: seq<ScoreEntry>, scope: Scope, w: ScoreEntry)
    requires ValidCatalog(catalog) && tolerance >= 0.0 && AllComplete(stored)
    requires AllFromCatalog(catalog, written) && UniqueKeys(written) && w in written
    requires Committed(c, catalog, stored, written, scope).Ok? && KeyIsFree(Kept(stored, written, scope), KeyOf(w))
    ensures Filter(KeyIs(KeyOf(w)), Committed(c, catalog, stored, written, scope).value) == [Stored(catalog, w)]
    ensures IsNeutralAt(catalog, Committed(c, catalog, stored, written, scope).value, tolerance, Stored(catalog, w))
  {
    forall e | e in written
      ensures Complete(e)
    {
      FromCatalogIsComplete(catalog, e);
    }
    WrittenOnceExactly(c, catalog, stored, written, scope, w);
    WrittenRowIsNeutral(catalog, Committed(c, catalog, stored, written, scope).value, tolerance, w);
  }

  /** Rows that all match the baseline leave nothing pending. */
  lemma {:induction false} NeutralRows(e: Setting, tree: Tree, baseline: seq<ScoreEntry>, scores: seq<ScoreEntry>)
    requires forall entry :: entry in scores ==> IsNeutralAt(e.catalog, baseline, e.tolerance, entry)
    requires DiffRows(e, tree, baseline, scores).Ok?
    ensures !Pending(DiffRows(e, tree, baseline, scores).value)
  {
    if scores != [] {
      var init := scores[..|scores| - 1];
      assert scores[|scores| - 1] in scores && forall entry :: entry in init ==> entry in scores;
      NeutralRows(e, tree, baseline, init);
    }
  }

  lemma {:induction false} StoredMembers(catalog: Catalog, scores: seq<ScoreEntry>)
    ensures forall e :: e in StoredAll(catalog, scores) <==> exists w :: w in scores && e == Stored(catalog, w)
  {
    if scores != [] {
      var init, last := scores[..|scores| - 1], scores[|scores| - 1];
      StoredMembers(catalog, init);
      assert scores == init + [last];
      forall e
        ensures e in StoredAll(catalog, scores) <==> exists w :: w in scores && e == Stored(catalog, w)
      {
        assert e in StoredAll(catalog, scores) <==> e in StoredAll(catalog, init) || e == Stored(catalog, last);
        assert last in scores && forall w :: w in init ==> w in scores;
      }
    }
  }

  /** After an untargeted commit both stores hold the written entries in stored form, each of them
      neutral against the store. */
  lemma UntargetedCommitIsNeutral(
      c: Collation, catalog: Catalog, tolerance: real, storedBaseline: seq<ScoreEntry>, storedLastRun: seq<ScoreEntry>,
      written: seq<ScoreEntry>)
    requires ValidCatalog(catalog) && tolerance >= 0.0
    requires AllFromCatalog(catalog, written) && UniqueKeys(written)
    ensures Committed(c, catalog, storedBaseline, written, Everything)
         == Committed(c, catalog, storedLastRun, written, Everything)
    ensures Committed(c, catalog, storedLastRun, written, Everything).Ok?
    ensures var stored := Committed(c, catalog, storedLastRun, written, Everything).value;
            && |stored| == |written|
            && (forall e :: e in stored ==> IsNeutralAt(catalog, stored, tolerance, e))
            && (forall e :: e in stored <==> exists w :: w in written && e == Stored(catalog, w))
  {
    forall e | e in written
      ensures Complete(e)
    {
      FromCatalogIsComplete(catalog, e);
    }
    UntargetedMembers(c, catalog, written);
    var stored := Committed(c, catalog, [], written, Everything).value;
    forall e | e in stored
      ensures IsNeutralAt(catalog, stored, tolerance, e)
    {
      var w :| w in written && e == Stored(catalog, w);
      CommittedEntryIsNeutral(c, catalog, tolerance, [], written, Everything, w);
    }
  }

  lemma UntargetedMembers(c: Collation, catalog: Catalog, written: seq<ScoreEntry>)
    requires AllComplete(written)
    ensures Committed(c, catalog, [], written, Everything).Ok?
    ensures var stored := Committed(c, catalog, [], written, Everything).value;
            |stored| == |written| && forall e :: e in stored <==> exists w :: w in written && e == Stored(catalog, w)
  {
    EntryOrderIsTotal(c);
    var sorted := SortScores(c, written);
    SortFacts(EntryOrder(c), written);
    SavedIsStored(c, catalog, sorted);
    SortFacts(EntryOrder(c), StoredAll(catalog, sorted));
    StoredAllLength(catalog, sorted);
    StoredMembers(catalog, sorted);
  }
}
