/** The first update of a repository with one fixture: it succeeds whatever the fixture's node is called,
    but the diff that follows does not. */
module FirstUpdate {
  import opened Basics
  import opened Ids
  import opened ScoreKeys
  import opened ScoreMerge
  import opened Canonical
  import opened ArtifactTree
  import opened ArtifactReading
  import opened History
  import opened BaselineStore
  import opened BaselineDiff
  import opened BaselinePlan
  import opened Baseline
  import opened BaselineRuns
  import opened UpdateArtifacts
  import opened CommandDiffs

  const FIXTURE := "a"
  const RESULT := ViewportResult(None, None, 90.0, 0, None, None)
  const EMPTY := Stores(None, None, None)

  /** Version-1 metadata, whose node id need only not be blank. */
  function SingleScreen(id: string): Metadata {
    Metadata(id, "n", [])
  }

  function WriteOf(id: string): Write {
    Write(FIXTURE, Screen(id, "n"), false, RESULT)
  }

  /** An executor that reports one result for the fixture. */
  function Execute(f: string): Result<Execution> {
    Ok(Legacy(RESULT))
  }

  /** The repository holds the one fixture, and its screenshot is a valid PNG. */
  predicate OneFixture(e: Setting, id: string) {
    e.catalog == map[FIXTURE := SingleScreen(id)] && e.fixtureIds == [FIXTURE] && e.historySize == 20 && e.isPng(RESULT.actual)
  }

  lemma FixtureIsAllowed()
    ensures FixtureId(FIXTURE) == Ok(FIXTURE)
  {
    assert ToForwardSlashes("a") == "a";
    NoSpaceIsTrimmed("a");
  }

  lemma CatalogIsValid(e: Setting, id: string)
    requires OneFixture(e, id) && Trim(id) != []
    ensures ValidCatalog(e.catalog)
  {
    FixtureIsAllowed();
    assert EnumerateScreens(SingleScreen(id)) == [Screen(id, "n")];
  }

  lemma PlanIsOneWrite(catalog: Catalog, id: string)
    requires catalog == map[FIXTURE := SingleScreen(id)]
    ensures PlanFixture(catalog, FIXTURE, None, Execute) == Ok([WriteOf(id)])
  {
    var m, screen := SingleScreen(id), Screen(id, "n");
    assert EnumerateScreens(m) == [screen];
    assert ScreenOutcome(m, 1, Legacy(RESULT), screen) == Ok(ScreenResult(id, false, [], RESULT));
    assert RESULT.(viewportId := None, viewportLabel := None) == RESULT;
    assert [RESULT][..0] == [] && [screen][..0] == [];
    assert WritesOf(FIXTURE, screen, false, [RESULT]) == [WriteOf(id)];
    assert FixtureWrites(FIXTURE, m, Legacy(RESULT), 1, []) == Ok([]);
    assert FixtureWrites(FIXTURE, m, Legacy(RESULT), 1, [screen]) == Ok([] + [WriteOf(id)]);
  }

  lemma RunSucceeds(e: Setting, id: string, tree: Tree)
    requires OneFixture(e, id)
    ensures UpdateRun(e, tree, None, None, Execute, "t").1 == Ok([WriteOf(id)])
  {
    var w := WriteOf(id);
    FixtureIsAllowed();
    PlanIsOneWrite(e.catalog, id);
    assert Saved(tree, InputOf(w, "t")).Ok?;
    assert [FIXTURE][..0] == [] && [w][..0] == [] && [] + [w] == [w];
    assert SaveWrites(e.isPng, tree, [], "t") == (tree, true);
    assert SaveWrites(e.isPng, tree, [w], "t").1;
    assert RunFixtures(e, tree, [], None, Execute, "t") == (tree, Ok([]));
  }

  lemma ScoresAreOne(w: Write)
    ensures ScoresOf([w]) == [ScoreOf(w)]
  {
    assert [w][..0] == [] && [] + [ScoreOf(w)] == [ScoreOf(w)];
    assert ScoresOf([]) == [];
  }

  lemma HistoryAccepts(c: Collation, id: string)
    ensures HistoryAfter(c, None, "t", [ScoreOf(WriteOf(id))], 20).Ok?
  {
    FixtureIsAllowed();
    NoSpaceIsTrimmed("t");
    assert Normalizable(ScoreOf(WriteOf(id)));
    HistoryAcceptsExactly(c, None, "t", [ScoreOf(WriteOf(id))], 20);
  }

  /** The update succeeds for every node id that is not blank, whatever the artifact tree holds. */
  lemma FirstUpdateSucceeds(e: Setting, id: string, tree: Tree)
    requires OneFixture(e, id) && Trim(id) != []
    ensures Updated(e, EMPTY, tree, None, None, Execute, "t").scores == Ok([ScoreOf(WriteOf(id))])
  {
    CatalogIsValid(e, id);
    RunSucceeds(e, id, tree);
    ScoresAreOne(WriteOf(id));
    HistoryAccepts(e.c, id);
    UpdateSucceedsExactly(e, EMPTY, tree, None, None, Execute, "t");
    UpdateCommits(e, EMPTY, tree, None, None, Execute, "t");
  }

  lemma OneIsReadable(tree: Tree, id: string)
    ensures AllReadable(tree, [ScoreOf(WriteOf(id))]) <==> ScreenReadable(tree, FIXTURE, id)
    ensures AllScreensAllowed([ScoreOf(WriteOf(id))]) <==> ScreenId(id).Ok?
    ensures UniqueKeys([ScoreOf(WriteOf(id))])
  {
    var w := ScoreOf(WriteOf(id));
    assert w in [w] && w.screenId == Some(id) && w.fixtureId == FIXTURE;
  }

  /** The diff that follows can be computed exactly when the screen named after the node can be read;
      then nothing is pending. */
  lemma FirstDiffExactly(e: Setting, id: string, tree: Tree, outcome: Outcome)
    requires OneFixture(e, id) && Trim(id) != [] && e.tolerance >= 0.0
    requires outcome == Updated(e, EMPTY, tree, None, None, Execute, "t")
    ensures var diff := Diffed(e, outcome.stores, outcome.tree, None, None);
            && (diff.Ok? <==> ScreenReadable(outcome.tree, FIXTURE, id))
            && (diff.Ok? ==> |diff.value| == 1 && !Pending(diff.value))
  {
    CatalogIsValid(e, id);
    FirstUpdateSucceeds(e, id, tree);
    OneIsReadable(outcome.tree, id);
    UpdateThenDiff(e, EMPTY, tree, Execute, "t", outcome);
  }

  /** In a tree that only saves have written, that is exactly when the node id is an allowed screen id. */
  lemma FirstDiffOnTidyTrees(e: Setting, id: string, tree: Tree, outcome: Outcome)
    requires OneFixture(e, id) && Trim(id) != [] && e.tolerance >= 0.0 && Tidy(tree)
    requires outcome == Updated(e, EMPTY, tree, None, None, Execute, "t")
    ensures Diffed(e, outcome.stores, outcome.tree, None, None).Ok? <==> ScreenId(id).Ok?
  {
    CatalogIsValid(e, id);
    FirstUpdateSucceeds(e, id, tree);
    OneIsReadable(outcome.tree, id);
    UpdateThenDiffOnTidyTrees(e, EMPTY, tree, Execute, "t", outcome);
  }

  const INSTANCE_NODE := "I1:2;3:4"

  lemma InstanceNodeIsNoScreen()
    ensures Trim(INSTANCE_NODE) == INSTANCE_NODE && ScreenId(INSTANCE_NODE).Err?
  {
    NoSpaceIsTrimmed(INSTANCE_NODE);
    ScreenIdAccepts(INSTANCE_NODE);
    assert INSTANCE_NODE[4] == ';' && INSTANCE_NODE[4] in INSTANCE_NODE;
  }

  /** The id of a node inside an instance is not: the update succeeds and the diff throws, whatever the
      tree holds. */
  lemma InstanceNodesBreakTheDiff(e: Setting, tree: Tree, outcome: Outcome)
    requires OneFixture(e, INSTANCE_NODE) && e.tolerance >= 0.0
    requires outcome == Updated(e, EMPTY, tree, None, None, Execute, "t")
    ensures outcome.scores.Ok? && Diffed(e, outcome.stores, outcome.tree, None, None).Err?
  {
    InstanceNodeIsNoScreen();
    FirstUpdateSucceeds(e, INSTANCE_NODE, tree);
    FirstDiffExactly(e, INSTANCE_NODE, tree, outcome);
  }
}
