/** Which scores an update writes, in terms of what the benchmarks reported: nothing for a skipped screen,
    one score per viewport for a screen with viewports, the screen's own score otherwise. */
module UpdateScores {
  import opened Basics
  import opened Indexing
  import opened Ids
  import opened ScoreMerge
  import opened ArtifactTree
  import opened BaselineStore
  import opened BaselinePlan
  import opened Baseline
  import opened BaselineRuns

  // ---- Statement -------------------------------------------------------------------------------

  /** The screens a fixture declares; without any, the node it was made from. */
  function Declared(m: Metadata): seq<Screen> {
    if |m.screens| > 0 then m.screens else [Screen(m.sourceNodeId, m.sourceNodeName)]
  }

  /** All declared screens, or the first one with the id asked for. */
  ghost predicate AreTargets(m: Metadata, screenId: Option<string>, screens: seq<Screen>) {
    match screenId
    case None => screens == Declared(m)
    case Some(s) =>
      exists k :: 0 <= k < |Declared(m)| && screens == [Declared(m)[k]] && Declared(m)[k].screenId == Trim(s)
                  && forall j :: 0 <= j < k ==> Declared(m)[j].screenId != Trim(s)
  }

  function IdOf(r: ScreenResult): string {
    r.screenId
  }

  /** What the executor reported for a screen: the last report with its id, or the one result of a legacy
      executor. */
  ghost predicate Reported(execution: Execution, screen: Screen, r: ScreenResult) {
    match execution
    case PerScreen(results) => IsLast(IdOf, results, screen.screenId, Some(r))
    case Legacy(own) => r.own == own && !r.skipped && r.viewports == []
  }

  /** The entry tells the score of a screen, under a viewport or under none. */
  predicate TellsScore(e: ScoreEntry, f: string, screen: Screen, viewportId: Option<string>, viewportLabel: Option<string>, score: real) {
    && e.fixtureId == f && e.screenId == Some(screen.screenId) && e.screenName == NonBlank(Some(screen.screenName))
    && e.viewportId == NonBlank(viewportId) && e.viewportLabel == NonBlank(viewportLabel) && e.score == score
  }

  /** What one screen's report contributes. */
  predicate Contributes(f: string, screen: Screen, r: ScreenResult, entries: seq<ScoreEntry>) {
    && (r.skipped ==> entries == [])
    && (!r.skipped && r.viewports != [] ==>
          && |entries| == |r.viewports|
          && forall i :: 0 <= i < |entries| ==>
               TellsScore(entries[i], f, screen, r.viewports[i].viewportId, r.viewports[i].viewportLabel, r.viewports[i].score))
    && (!r.skipped && r.viewports == [] ==> |entries| == 1 && TellsScore(entries[0], f, screen, None, None, r.own.score))
  }

  ghost predicate ScreenContributes(f: string, execution: Execution, screen: Screen, entries: seq<ScoreEntry>) {
    exists r :: Reported(execution, screen, r) && Contributes(f, screen, r, entries)
  }

  /** One block of entries per screen, in the order of the screens. */
  ghost predicate ScreensContribute(f: string, execution: Execution, screens: seq<Screen>, blocks: seq<seq<ScoreEntry>>) {
    |blocks| == |screens| && forall i :: 0 <= i < |screens| ==> ScreenContributes(f, execution, screens[i], blocks[i])
  }

  /** A fixture contributes the blocks of its target screens and nothing else. */
  ghost predicate FixtureContributes(catalog: Catalog, f: string, screenId: Option<string>, execution: Execution, entries: seq<ScoreEntry>) {
    && f in catalog
    && exists screens, blocks ::
         AreTargets(catalog[f], screenId, screens) && ScreensContribute(f, execution, screens, blocks) && entries == Flatten(blocks)
  }

  /** One block per target fixture, in the order of the fixtures. */
  ghost predicate FixturesContribute(
      catalog: Catalog, fixtures: seq<string>, screenId: Option<string>, execute: string -> Result<Execution>, blocks: seq<seq<ScoreEntry>>)
  {
    |blocks| == |fixtures|
    && forall i :: 0 <= i < |fixtures| ==>
         execute(fixtures[i]).Ok? && FixtureContributes(catalog, fixtures[i], screenId, execute(fixtures[i]).value, blocks[i])
  }

  // ---- One screen ------------------------------------------------------------------------------

  lemma {:induction false} WritesTellScores(f: string, screen: Screen, multi: bool, results: seq<ViewportResult>)
    ensures var entries := ScoresOf(WritesOf(f, screen, multi, results));
            |entries| == |results|
            && forall i :: 0 <= i < |results| ==>
                 TellsScore(entries[i], f, screen, results[i].viewportId, results[i].viewportLabel, results[i].score)
  {
    if results != [] {
      var init, last := results[..|results| - 1], results[|results| - 1];
      WritesTellScores(f, screen, multi, init);
      ScoresOfSnoc(WritesOf(f, screen, multi, init), Write(f, screen, multi, last));
    }
  }

  lemma {:induction false} ResultIsLast(results: seq<ScreenResult>, screenId: string)
    ensures IsLast(IdOf, results, screenId, ResultFor(results, screenId))
  {
    if results != [] {
      var init, last := results[..|results| - 1], results[|results| - 1];
      assert results == init + [last];
      if last.screenId == screenId {
        assert results[|results| - 1] == last;
      } else {
        ResultIsLast(init, screenId);
        if ResultFor(init, screenId).Some? {
          var k :| 0 <= k < |init| && init[k] == ResultFor(init, screenId).value && IdOf(init[k]) == screenId
                   && forall j :: k < j < |init| ==> IdOf(init[j]) != screenId;
          assert results[k] == init[k] && forall j :: k < j < |init| ==> results[j] == init[j];
        }
      }
    }
  }

  lemma OutcomeIsReported(m: Metadata, targets: nat, execution: Execution, screen: Screen)
    requires ScreenOutcome(m, targets, execution, screen).Ok?
    ensures Reported(execution, screen, ScreenOutcome(m, targets, execution, screen).value)
  {
    if execution.PerScreen? {
      ResultIsLast(execution.screens, screen.screenId);
    }
  }

  /** The results a report is made of. */
  function ResultsOf(r: ScreenResult): seq<ViewportResult> {
    if r.skipped then [] else if r.viewports != [] then r.viewports else [r.own.(viewportId := None, viewportLabel := None)]
  }

  lemma ReportContributes(f: string, screen: Screen, multi: bool, r: ScreenResult)
    ensures Contributes(f, screen, r, ScoresOf(WritesOf(f, screen, multi, ResultsOf(r))))
  {
    WritesTellScores(f, screen, multi, ResultsOf(r));
  }

  // ---- One fixture -----------------------------------------------------------------------------

  lemma ScreenStep(f: string, m: Metadata, execution: Execution, targets: nat, init: seq<Screen>, screen: Screen)
    requires FixtureWrites(f, m, execution, targets, init + [screen]).Ok?
    ensures FixtureWrites(f, m, execution, targets, init).Ok? && ScreenOutcome(m, targets, execution, screen).Ok?
    ensures FixtureWrites(f, m, execution, targets, init + [screen]).value
         == FixtureWrites(f, m, execution, targets, init).value
            + WritesOf(f, screen, |EnumerateScreens(m)| > 1, ResultsOf(ScreenOutcome(m, targets, execution, screen).value))
  {
    assert (init + [screen])[..|init|] == init;
  }

  lemma BlockSnoc(f: string, execution: Execution, screens: seq<Screen>, blocks: seq<seq<ScoreEntry>>, screen: Screen, block: seq<ScoreEntry>)
    requires ScreensContribute(f, execution, screens, blocks) && ScreenContributes(f, execution, screen, block)
    ensures ScreensContribute(f, execution, screens + [screen], blocks + [block])
    ensures Flatten(blocks + [block]) == Flatten(blocks) + block
  {
    FlattenSnoc(blocks, block);
    forall i | 0 <= i < |screens + [screen]|
      ensures ScreenContributes(f, execution, (screens + [screen])[i], (blocks + [block])[i])
    {
      if i < |screens| {
        assert ScreenContributes(f, execution, screens[i], blocks[i]);
      }
    }
  }

  lemma {:induction false} FixtureWritesContribute(f: string, m: Metadata, execution: Execution, targets: nat, screens: seq<Screen>)
    returns (blocks: seq<seq<ScoreEntry>>)
    requires FixtureWrites(f, m, execution, targets, screens).Ok?
    ensures ScreensContribute(f, execution, screens, blocks)
    ensures ScoresOf(FixtureWrites(f, m, execution, targets, screens).value) == Flatten(blocks)
    decreases |screens|
  {
    if screens == [] {
      blocks := [];
    } else {
      var init, screen := screens[..|screens| - 1], screens[|screens| - 1];
      assert screens == init + [screen];
      ScreenStep(f, m, execution, targets, init, screen);
      var before := FixtureWritesContribute(f, m, execution, targets, init);
      var r := ScreenOutcome(m, targets, execution, screen).value;
      var writes := WritesOf(f, screen, |EnumerateScreens(m)| > 1, ResultsOf(r));
      OutcomeIsReported(m, targets, execution, screen);
      ReportContributes(f, screen, |EnumerateScreens(m)| > 1, r);
      ScoresOfConcat(FixtureWrites(f, m, execution, targets, init).value, writes);
      BlockSnoc(f, execution, init, before, screen, ScoresOf(writes));
      blocks := before + [ScoresOf(writes)];
    }
  }

  lemma {:induction false} FoundIsFirst(screens: seq<Screen>, id: string)
    requires FindScreen(screens, id).Some?
    ensures exists k :: 0 <= k < |screens| && screens[k] == FindScreen(screens, id).value && screens[k].screenId == id
                        && forall j :: 0 <= j < k ==> screens[j].screenId != id
  {
    if screens[0].screenId != id {
      FoundIsFirst(screens[1..], id);
      var k :| 0 <= k < |screens[1..]| && screens[1..][k] == FindScreen(screens[1..], id).value && screens[1..][k].screenId == id
               && forall j :: 0 <= j < k ==> screens[1..][j].screenId != id;
      assert screens[k + 1] == screens[1..][k] && forall j :: 1 <= j < k + 1 ==> screens[j] == screens[1..][j - 1];
    }
  }

  lemma TargetsAreDeclared(m: Metadata, screenId: Option<string>)
    requires TargetScreens(m, screenId).Ok?
    ensures AreTargets(m, screenId, TargetScreens(m, screenId).value)
  {
    assert EnumerateScreens(m) == Declared(m);
    if screenId.Some? {
      ScreenIdAccepts(screenId.value);
      FoundIsFirst(Declared(m), Trim(screenId.value));
      var found := FindScreen(Declared(m), Trim(screenId.value)).value;
      assert TargetScreens(m, screenId).value == [found];
    }
  }

  lemma PlanContributes(catalog: Catalog, f: string, screenId: Option<string>, execute: string -> Result<Execution>)
    requires PlanFixture(catalog, f, screenId, execute).Ok?
    ensures execute(f).Ok? && FixtureContributes(catalog, f, screenId, execute(f).value, ScoresOf(PlanFixture(catalog, f, screenId, execute).value))
  {
    var screens := TargetScreens(catalog[f], screenId).value;
    TargetsAreDeclared(catalog[f], screenId);
    var blocks := FixtureWritesContribute(f, catalog[f], execute(f).value, |screens|, screens);
  }

  // ---- A whole update --------------------------------------------------------------------------

  lemma PlanStep(catalog: Catalog, init: seq<string>, f: string, screenId: Option<string>, execute: string -> Result<Execution>)
    requires Plan(catalog, init + [f], screenId, execute).Ok?
    ensures Plan(catalog, init, screenId, execute).Ok? && PlanFixture(catalog, f, screenId, execute).Ok?
    ensures Plan(catalog, init + [f], screenId, execute).value
         == Plan(catalog, init, screenId, execute).value + PlanFixture(catalog, f, screenId, execute).value
  {
    assert (init + [f])[..|init|] == init;
  }

  lemma {:induction false} PlansContribute(catalog: Catalog, fixtures: seq<string>, screenId: Option<string>, execute: string -> Result<Execution>)
    returns (blocks: seq<seq<ScoreEntry>>)
    requires Plan(catalog, fixtures, screenId, execute).Ok?
    ensures FixturesContribute(catalog, fixtures, screenId, execute, blocks)
    ensures ScoresOf(Plan(catalog, fixtures, screenId, execute).value) == Flatten(blocks)
    decreases |fixtures|
  {
    if fixtures == [] {
      blocks := [];
    } else {
      var init, f := fixtures[..|fixtures| - 1], fixtures[|fixtures| - 1];
      assert fixtures == init + [f];
      PlanStep(catalog, init, f, screenId, execute);
      var before := PlansContribute(catalog, init, screenId, execute);
      PlanContributes(catalog, f, screenId, execute);
      var block := ScoresOf(PlanFixture(catalog, f, screenId, execute).value);
      ScoresOfConcat(Plan(catalog, init, screenId, execute).value, PlanFixture(catalog, f, screenId, execute).value);
      FlattenSnoc(before, block);
      blocks := before + [block];
    }
  }

  /** The scores an update returns are, fixture by fixture and screen by screen, what the benchmarks
      reported for the target screens, and nothing else. */
  lemma UpdateWritesReports(e: Setting, s: Stores, tree: Tree, fixtureId: Option<string>, screenId: Option<string>,
                            execute: string -> Result<Execution>, runAt: string)
    requires Updated(e, s, tree, fixtureId, screenId, execute, runAt).scores.Ok?
    ensures exists blocks ::
              && FixturesContribute(e.catalog, if fixtureId.Some? then [fixtureId.value] else e.fixtureIds, screenId, execute, blocks)
              && Updated(e, s, tree, fixtureId, screenId, execute, runAt).scores.value == Flatten(blocks)
  {
    RunFollowsPlan(e, tree, Targets(e, fixtureId), screenId, execute, runAt);
    var blocks := PlansContribute(e.catalog, Targets(e, fixtureId), screenId, execute);
  }

  // ---- When the benchmarks run -----------------------------------------------------------------

  /** Every target screen was reported; a legacy executor can only speak for a single-screen fixture. */
  predicate AllReported(m: Metadata, execution: Execution, screens: seq<Screen>) {
    match execution
    case PerScreen(results) => forall screen :: screen in screens ==> exists r :: r in results && r.screenId == screen.screenId
    case Legacy(_) => |Declared(m)| == 1
  }

  lemma {:induction false} ReportFound(results: seq<ScreenResult>, screenId: string)
    ensures ResultFor(results, screenId).Some? <==> exists r :: r in results && r.screenId == screenId
  {
    if results != [] {
      ReportFound(results[..|results| - 1], screenId);
      assert results == results[..|results| - 1] + [results[|results| - 1]];
    }
  }

  predicate OutcomesExist(m: Metadata, execution: Execution, targets: nat, screens: seq<Screen>) {
    forall screen :: screen in screens ==> ScreenOutcome(m, targets, execution, screen).Ok?
  }

  lemma {:induction false} FixtureWritesExactly(f: string, m: Metadata, execution: Execution, targets: nat, screens: seq<Screen>)
    ensures FixtureWrites(f, m, execution, targets, screens).Ok? <==> OutcomesExist(m, execution, targets, screens)
  {
    if screens != [] {
      FixtureWritesExactly(f, m, execution, targets, screens[..|screens| - 1]);
      assert screens == screens[..|screens| - 1] + [screens[|screens| - 1]];
    }
  }

  lemma OutcomesExistExactly(m: Metadata, execution: Execution, screenId: Option<string>)
    requires TargetScreens(m, screenId).Ok?
    ensures var screens := TargetScreens(m, screenId).value;
            OutcomesExist(m, execution, |screens|, screens) <==> AllReported(m, execution, screens)
  {
    var screens := TargetScreens(m, screenId).value;
    assert EnumerateScreens(m) == Declared(m);
    if execution.PerScreen? {
      forall screen | screen in screens
        ensures ScreenOutcome(m, |screens|, execution, screen).Ok? <==> exists r :: r in execution.screens && r.screenId == screen.screenId
      {
        ReportFound(execution.screens, screen.screenId);
      }
    } else {
      assert screens[0] in screens;
    }
  }

  /** A fixture's benchmark can be planned exactly when the fixture is known, its target screens are
      declared, the executor returns, and every target screen was reported. */
  lemma PlanExistsExactly(catalog: Catalog, f: string, screenId: Option<string>, execute: string -> Result<Execution>)
    ensures PlanFixture(catalog, f, screenId, execute).Ok? <==>
              (f in catalog && TargetScreens(catalog[f], screenId).Ok? && execute(f).Ok?
               && AllReported(catalog[f], execute(f).value, TargetScreens(catalog[f], screenId).value))
  {
    if f in catalog && TargetScreens(catalog[f], screenId).Ok? && execute(f).Ok? {
      var screens := TargetScreens(catalog[f], screenId).value;
      FixtureWritesExactly(f, catalog[f], execute(f).value, |screens|, screens);
      OutcomesExistExactly(catalog[f], execute(f).value, screenId);
    }
  }

  // ---- What is saved ---------------------------------------------------------------------------

  /** The result is one of a report's: of a viewport, or the screen's own under no viewport. */
  predicate ResultOf(r: ScreenResult, result: ViewportResult) {
    && !r.skipped
    && (if r.viewports != [] then result in r.viewports
        else result.viewportId == None && result.viewportLabel == None && result.score == r.own.score
             && result.actual == r.own.actual && result.diff == r.own.diff && result.report == r.own.report)
  }

  /** The write saves a result that was reported for its screen. */
  ghost predicate SavesReported(execution: Execution, w: Write) {
    exists r :: Reported(execution, w.screen, r) && ResultOf(r, w.result)
  }

  lemma {:induction false} WritesOfResults(f: string, screen: Screen, multi: bool, results: seq<ViewportResult>)
    ensures forall w :: w in WritesOf(f, screen, multi, results) ==> w.screen == screen && w.fixtureId == f && w.result in results
  {
    if results != [] {
      WritesOfResults(f, screen, multi, results[..|results| - 1]);
      assert results == results[..|results| - 1] + [results[|results| - 1]];
    }
  }

  /** Every write is for the fixture and saves a reported result. */
  ghost predicate AllReportedFor(f: string, execution: Execution, writes: seq<Write>) {
    forall w :: w in writes ==> w.fixtureId == f && SavesReported(execution, w)
  }

  lemma ScreenWritesAreReported(f: string, m: Metadata, execution: Execution, targets: nat, screen: Screen)
    requires ScreenOutcome(m, targets, execution, screen).Ok?
    ensures AllReportedFor(f, execution,
                           WritesOf(f, screen, |EnumerateScreens(m)| > 1, ResultsOf(ScreenOutcome(m, targets, execution, screen).value)))
  {
    var r := ScreenOutcome(m, targets, execution, screen).value;
    OutcomeIsReported(m, targets, execution, screen);
    WritesOfResults(f, screen, |EnumerateScreens(m)| > 1, ResultsOf(r));
  }

  lemma ReportedConcat(f: string, execution: Execution, a: seq<Write>, b: seq<Write>)
    requires AllReportedFor(f, execution, a) && AllReportedFor(f, execution, b)
    ensures AllReportedFor(f, execution, a + b)
  {
  }

  lemma {:induction false} FixtureWritesAreReported(f: string, m: Metadata, execution: Execution, targets: nat, screens: seq<Screen>)
    requires FixtureWrites(f, m, execution, targets, screens).Ok?
    ensures AllReportedFor(f, execution, FixtureWrites(f, m, execution, targets, screens).value)
    decreases |screens|
  {
    if screens != [] {
      var init, screen := screens[..|screens| - 1], screens[|screens| - 1];
      assert screens == init + [screen];
      ScreenStep(f, m, execution, targets, init, screen);
      FixtureWritesAreReported(f, m, execution, targets, init);
      ScreenWritesAreReported(f, m, execution, targets, screen);
      ReportedConcat(f, execution, FixtureWrites(f, m, execution, targets, init).value,
                     WritesOf(f, screen, |EnumerateScreens(m)| > 1, ResultsOf(ScreenOutcome(m, targets, execution, screen).value)));
    }
  }

  /** Every artifact an update saves is that of a result reported for its screen. */
  lemma {:induction false} PlanSavesReported(catalog: Catalog, fixtures: seq<string>, screenId: Option<string>, execute: string -> Result<Execution>)
    requires Plan(catalog, fixtures, screenId, execute).Ok?
    ensures forall w :: w in Plan(catalog, fixtures, screenId, execute).value ==>
              execute(w.fixtureId).Ok? && SavesReported(execute(w.fixtureId).value, w)
    decreases |fixtures|
  {
    if fixtures != [] {
      var init, f := fixtures[..|fixtures| - 1], fixtures[|fixtures| - 1];
      assert fixtures == init + [f];
      PlanStep(catalog, init, f, screenId, execute);
      PlanSavesReported(catalog, init, screenId, execute);
      var screens := TargetScreens(catalog[f], screenId).value;
      FixtureWritesAreReported(f, catalog[f], execute(f).value, |screens|, screens);
    }
  }
}
