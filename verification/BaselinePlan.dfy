/** What an update writes: the screens a command targets, the results executing a fixture yields for
    them, and the score entry and artifact each result becomes. */
module BaselinePlan {
  import opened Basics
  import opened Ids
  import opened ScoreKeys
  import opened ScoreMerge
  import opened Canonical
  import opened ArtifactTree
  import opened BaselineStore
  import opened BaselineDiff

  datatype ViewportResult = ViewportResult(
    viewportId: Option<string>, viewportLabel: Option<string>, score: real,
    actual: nat, diff: Option<nat>, report: Option<nat>)

  /** A screen's result; without viewport results its own image and score count, under no viewport id. */
  datatype ScreenResult = ScreenResult(screenId: string, skipped: bool, viewports: seq<ViewportResult>, own: ViewportResult)

  /** Executors report per screen; legacy ones report a single result. */
  datatype Execution = PerScreen(screens: seq<ScreenResult>) | Legacy(own: ViewportResult)

  datatype Write = Write(fixtureId: string, screen: Screen, multiScreen: bool, result: ViewportResult)

  /** resolveTargetScreens. */
  function TargetScreens(m: Metadata, screenId: Option<string>): Result<seq<Screen>> {
    match screenId
    case None => Ok(EnumerateScreens(m))
    case Some(s) =>
      var id :- ScreenId(s);
      match FindScreen(EnumerateScreens(m), id)
      case Some(screen) => Ok([screen])
      case None => Err("screen not declared")
  }

  function ResultFor(results: seq<ScreenResult>, screenId: string): Option<ScreenResult> {
    if results == [] then None
    else if results[|results| - 1].screenId == screenId then Some(results[|results| - 1])
    else ResultFor(results[..|results| - 1], screenId)
  }

  /** normalizeExecutionResult, for one target screen. */
  function ScreenOutcome(m: Metadata, targets: nat, execution: Execution, screen: Screen): Result<ScreenResult> {
    match execution
    case PerScreen(results) =>
      (match ResultFor(results, screen.screenId)
       case Some(r) => Ok(r)
       case None => Err("no artifacts for screen"))
    case Legacy(own) =>
      if |EnumerateScreens(m)| != 1 || targets != 1 then Err("legacy artifacts for a multi-screen update")
      else Ok(ScreenResult(screen.screenId, false, [], own))
  }

  function WritesOf(f: string, screen: Screen, multiScreen: bool, results: seq<ViewportResult>): seq<Write> {
    if results == [] then []
    else WritesOf(f, screen, multiScreen, results[..|results| - 1])
         + [Write(f, screen, multiScreen, results[|results| - 1])]
  }

  /** enumerateScreenViewportArtifacts, over every completed target screen. */
  function FixtureWrites(f: string, m: Metadata, execution: Execution, targets: nat, screens: seq<Screen>): Result<seq<Write>> {
    if screens == [] then Ok([])
    else
      var before :- FixtureWrites(f, m, execution, targets, screens[..|screens| - 1]);
      var screen := screens[|screens| - 1];
      var outcome :- ScreenOutcome(m, targets, execution, screen);
      var results := if outcome.skipped then []
                     else if outcome.viewports != [] then outcome.viewports
                     else [outcome.own.(viewportId := None, viewportLabel := None)];
      Ok(before + WritesOf(f, screen, |EnumerateScreens(m)| > 1, results))
  }

  function PlanFixture(catalog: Catalog, f: string, screenId: Option<string>, execute: string -> Result<Execution>)
    : Result<seq<Write>>
  {
    if f !in catalog then Err("metadata")
    else
      var screens :- TargetScreens(catalog[f], screenId);
      var execution :- execute(f);
      FixtureWrites(f, catalog[f], execution, |screens|, screens)
  }

  /** createScoreEntryForScreen. */
  function ScoreOf(w: Write): ScoreEntry {
    ScoreEntry(w.fixtureId, Some(w.screen.screenId), NonBlank(Some(w.screen.screenName)),
               NonBlank(w.result.viewportId), NonBlank(w.result.viewportLabel), w.result.score)
  }

  /** buildArtifactEntry. */
  function InputOf(w: Write, runAt: string): Input {
    Input(w.fixtureId,
          if w.multiScreen || NonBlank(w.result.viewportId).Some? then Some(w.screen.screenId) else None,
          if Trim(w.screen.screenName) != [] then Some(w.screen.screenName) else None,
          NonBlank(w.result.viewportId), NonBlank(w.result.viewportLabel), w.result.score, runAt,
          w.result.actual, None, w.result.diff, w.result.report)
  }

  function ScoresOf(writes: seq<Write>): seq<ScoreEntry> {
    if writes == [] then [] else ScoresOf(writes[..|writes| - 1]) + [ScoreOf(writes[|writes| - 1])]
  }

  lemma ScoresOfSnoc(writes: seq<Write>, w: Write)
    ensures ScoresOf(writes + [w]) == ScoresOf(writes) + [ScoreOf(w)]
  {
    assert (writes + [w])[..|writes|] == writes;
  }

  lemma {:induction false} ScoresOfConcat(a: seq<Write>, b: seq<Write>)
    ensures ScoresOf(a + b) == ScoresOf(a) + ScoresOf(b)
    decreases |b|
  {
    if b == [] {
      assert a + b == a;
    } else {
      var init, last := b[..|b| - 1], b[|b| - 1];
      ScoresOfConcat(a, init);
      assert a + b == a + init + [last];
      ScoresOfSnoc(a + init, last);
    }
  }

  /** The plan of an update over several fixtures. */
  function Plan(catalog: Catalog, fixtureIds: seq<string>, screenId: Option<string>, execute: string -> Result<Execution>)
    : Result<seq<Write>>
  {
    if fixtureIds == [] then Ok([])
    else
      var before :- Plan(catalog, fixtureIds[..|fixtureIds| - 1], screenId, execute);
      var writes :- PlanFixture(catalog, fixtureIds[|fixtureIds| - 1], screenId, execute);
      Ok(before + writes)
  }

  // ---- Everything a plan writes belongs to the catalogue ---------------------------------------

  /** The write is for a declared screen, and knows whether its fixture has several. */
  ghost predicate Enumerated(catalog: Catalog, w: Write) {
    && w.fixtureId in catalog && w.screen in EnumerateScreens(catalog[w.fixtureId])
    && (w.multiScreen <==> |EnumerateScreens(catalog[w.fixtureId])| > 1)
  }

  lemma {:induction false} FindScreenFinds(screens: seq<Screen>, id: string)
    ensures FindScreen(screens, id).Some? ==> FindScreen(screens, id).value in screens
  {
    if screens != [] && screens[0].screenId != id {
      FindScreenFinds(screens[1..], id);
    }
  }

  lemma {:induction false} WritesOfMembers(f: string, screen: Screen, multi: bool, results: seq<ViewportResult>)
    ensures forall w :: w in WritesOf(f, screen, multi, results) ==> w.fixtureId == f && w.screen == screen && w.multiScreen == multi
  {
    if results != [] {
      WritesOfMembers(f, screen, multi, results[..|results| - 1]);
    }
  }

  lemma {:induction false} FixtureWritesMembers(f: string, m: Metadata, execution: Execution, targets: nat, screens: seq<Screen>)
    requires FixtureWrites(f, m, execution, targets, screens).Ok?
    ensures forall w :: w in FixtureWrites(f, m, execution, targets, screens).value ==>
              w.fixtureId == f && w.screen in screens && w.multiScreen == (|EnumerateScreens(m)| > 1)
  {
    if screens != [] {
      var init, screen := screens[..|screens| - 1], screens[|screens| - 1];
      FixtureWritesMembers(f, m, execution, targets, init);
      var outcome := ScreenOutcome(m, targets, execution, screen).value;
      var results := if outcome.skipped then []
                     else if outcome.viewports != [] then outcome.viewports
                     else [outcome.own.(viewportId := None, viewportLabel := None)];
      WritesOfMembers(f, screen, |EnumerateScreens(m)| > 1, results);
      assert forall s :: s in init ==> s in screens;
      assert screen in screens;
    }
  }

  lemma {:induction false} PlanMembers(catalog: Catalog, fixtureIds: seq<string>, screenId: Option<string>, execute: string -> Result<Execution>)
    requires Plan(catalog, fixtureIds, screenId, execute).Ok?
    ensures forall w :: w in Plan(catalog, fixtureIds, screenId, execute).value ==> Enumerated(catalog, w) && w.fixtureId in fixtureIds
  {
    if fixtureIds != [] {
      var init, f := fixtureIds[..|fixtureIds| - 1], fixtureIds[|fixtureIds| - 1];
      PlanMembers(catalog, init, screenId, execute);
      var screens := TargetScreens(catalog[f], screenId).value;
      FixtureWritesMembers(f, catalog[f], execute(f).value, |screens|, screens);
      if screenId.Some? {
        FindScreenFinds(EnumerateScreens(catalog[f]), ScreenId(screenId.value).value);
      }
      assert forall g :: g in init ==> g in fixtureIds;
      assert f in fixtureIds;
    }
  }

  lemma {:induction false} ScoresAreFromCatalog(catalog: Catalog, writes: seq<Write>)
    requires ValidCatalog(catalog) && forall w :: w in writes ==> Enumerated(catalog, w)
    ensures AllFromCatalog(catalog, ScoresOf(writes))
  {
    if writes != [] {
      var init, last := writes[..|writes| - 1], writes[|writes| - 1];
      assert last in writes && forall w :: w in init ==> w in writes;
      ScoresAreFromCatalog(catalog, init);
      NonBlankFacts(Some(last.screen.screenId));
      assert FromCatalog(catalog, ScoreOf(last));
    }
  }
}
