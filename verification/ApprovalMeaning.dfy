/** What an approval writes and reports: one score per artifact it takes, the score and image that each
    replaces and accepts, and the time of the latest artifact, under which the history records it. */
module ApprovalMeaning {
  import opened Basics
  import opened Ids
  import opened ScoreMerge
  import opened Canonical
  import opened ArtifactTree
  import opened History
  import opened BaselineStore
  import opened BaselineDiff
  import opened BaselinePlan
  import opened Baseline
  import opened BaselineRuns
  import opened UpdateScores
  import opened DiffMeaning
  import opened HistoryRuns

  // ---- Statement -------------------------------------------------------------------------------

  /** An artifact taken for a screen. */
  datatype Take = Take(screen: Screen, artifact: Artifact)

  function TakesFor(screen: Screen, artifacts: seq<Artifact>): seq<Take> {
    Map((a: Artifact) => Take(screen, a), artifacts)
  }

  /** All artifacts of every screen, in the order of the screens; no screen is without. */
  ghost predicate TakesAll(e: Setting, tree: Tree, f: string, screens: seq<Screen>, all: nat, blocks: seq<seq<Artifact>>) {
    |blocks| == |screens|
    && forall i :: 0 <= i < |screens| ==>
         blocks[i] != [] && ArtifactsForScreen(e.c, e.listing, tree, f, screens[i].screenId, all) == Ok(blocks[i])
  }

  function AllTakes(screens: seq<Screen>, blocks: seq<seq<Artifact>>): seq<Take>
    requires |blocks| == |screens|
  {
    if screens == [] then []
    else AllTakes(screens[..|screens| - 1], blocks[..|blocks| - 1]) + TakesFor(screens[|screens| - 1], blocks[|blocks| - 1])
  }

  /** One score and one detail: those of the artifact, with the baseline score it replaces, and an image
      that can be read and is a valid PNG. */
  ghost predicate Approves(e: Setting, tree: Tree, baseline: seq<ScoreEntry>, f: string, t: Take, score: ScoreEntry, detail: Detail) {
    && TellsScore(score, f, t.screen, t.artifact.manifest.viewportId, t.artifact.manifest.viewportLabel, t.artifact.manifest.score)
    && LooksUp(baseline, f, score.screenId, score.viewportId, detail.previousScore)
    && detail.approvedFrom == t.artifact.actualImagePath
    && detail.approvedFrom in tree.blobs && e.isPng(tree.blobs[detail.approvedFrom])
  }

  ghost predicate ApprovesEach(e: Setting, tree: Tree, baseline: seq<ScoreEntry>, f: string, takes: seq<Take>, approval: Approval) {
    && |approval.scores| == |approval.details| == |takes|
    && forall k :: 0 <= k < |takes| ==> Approves(e, tree, baseline, f, takes[k], approval.scores[k], approval.details[k])
  }

  /** The time of some artifact taken, and of none a later one. */
  predicate IsLatest(takes: seq<Take>, latest: Option<string>) {
    match latest
    case None => takes == []
    case Some(time) =>
      && (exists t :: t in takes && t.artifact.manifest.ranAt == time)
      && forall t :: t in takes ==> LexAtMost(t.artifact.manifest.ranAt, time)
  }

  // ---- One more artifact -----------------------------------------------------------------------

  lemma LaterTime(takes: seq<Take>, latest: Option<string>, t: Take)
    requires IsLatest(takes, latest)
    ensures var time := t.artifact.manifest.ranAt;
            IsLatest(takes + [t], if latest.None? || !LexAtMost(time, latest.value) then Some(time) else latest)
  {
    var time := t.artifact.manifest.ranAt;
    LexFacts(time, time, time);
    assert t in takes + [t] && forall u :: u in takes ==> u in takes + [t];
    if latest.Some? && !LexAtMost(time, latest.value) {
      forall u | u in takes
        ensures LexAtMost(u.artifact.manifest.ranAt, time)
      {
        LexFacts(u.artifact.manifest.ranAt, latest.value, time);
        LexFacts(latest.value, time, time);
      }
    }
  }

  lemma TakeIsApproved(e: Setting, tree: Tree, baseline: seq<ScoreEntry>, f: string, t: Take)
    requires ImageUsable(e.isPng, tree, t.artifact)
    ensures var score := ApprovedEntry(f, t.screen, t.artifact);
            Approves(e, tree, baseline, f, t, score,
                     Detail(BaselineScore(baseline, f, score.screenId, score.viewportId), t.artifact.actualImagePath))
  {
    var score := ApprovedEntry(f, t.screen, t.artifact);
    LookupFinds(baseline, f, score.screenId, score.viewportId);
  }

  lemma ApprovesSnoc(e: Setting, tree: Tree, baseline: seq<ScoreEntry>, f: string, takes: seq<Take>, before: Approval, after: Approval, t: Take)
    requires ApprovesEach(e, tree, baseline, f, takes, before)
    requires |after.scores| == |after.details| == |takes| + 1
    requires after.scores[..|takes|] == before.scores && after.details[..|takes|] == before.details
    requires Approves(e, tree, baseline, f, t, after.scores[|takes|], after.details[|takes|])
    ensures ApprovesEach(e, tree, baseline, f, takes + [t], after)
  {
    forall k | 0 <= k < |takes| + 1
      ensures Approves(e, tree, baseline, f, (takes + [t])[k], after.scores[k], after.details[k])
    {
      if k < |takes| {
        assert after.scores[..|takes|][k] == after.scores[k] && after.details[..|takes|][k] == after.details[k];
      }
    }
  }

  /** The takes so far are approved, at the time of the latest. */
  ghost predicate ApprovesSoFar(e: Setting, tree: Tree, baseline: seq<ScoreEntry>, f: string, takes: seq<Take>, approval: Approval) {
    ApprovesEach(e, tree, baseline, f, takes, approval) && IsLatest(takes, approval.latestRanAt)
  }

  lemma OneMoreApproved(e: Setting, tree: Tree, baseline: seq<ScoreEntry>, f: string, takes: seq<Take>, before: Approval, t: Take)
    requires ApprovesSoFar(e, tree, baseline, f, takes, before) && ImageUsable(e.isPng, tree, t.artifact)
    ensures ApprovesSoFar(e, tree, baseline, f, takes + [t], WithArtifact(baseline, before, f, t.screen, t.artifact))
  {
    TakeIsApproved(e, tree, baseline, f, t);
    ApprovesSnoc(e, tree, baseline, f, takes, before, WithArtifact(baseline, before, f, t.screen, t.artifact), t);
    LaterTime(takes, before.latestRanAt, t);
  }

  lemma TakesForSnoc(takes: seq<Take>, screen: Screen, artifacts: seq<Artifact>)
    requires artifacts != []
    ensures takes + TakesFor(screen, artifacts)
         == takes + TakesFor(screen, artifacts[..|artifacts| - 1]) + [Take(screen, artifacts[|artifacts| - 1])]
  {
  }

  lemma UsableSnoc(isPng: nat -> bool, tree: Tree, artifacts: seq<Artifact>)
    requires artifacts != [] && ImagesUsable(isPng, tree, artifacts)
    ensures ImagesUsable(isPng, tree, artifacts[..|artifacts| - 1]) && ImageUsable(isPng, tree, artifacts[|artifacts| - 1])
  {
  }

  lemma {:induction false} ScreenApproved(
      e: Setting, tree: Tree, baseline: seq<ScoreEntry>, f: string, takes: seq<Take>, before: Approval, screen: Screen, artifacts: seq<Artifact>)
    requires ApprovesSoFar(e, tree, baseline, f, takes, before) && ImagesUsable(e.isPng, tree, artifacts)
    ensures ApprovesSoFar(e, tree, baseline, f, takes + TakesFor(screen, artifacts), WithArtifacts(baseline, before, f, screen, artifacts))
    decreases |artifacts|
  {
    if artifacts == [] {
      assert takes + TakesFor(screen, artifacts) == takes;
    } else {
      var init, last := artifacts[..|artifacts| - 1], artifacts[|artifacts| - 1];
      UsableSnoc(e.isPng, tree, artifacts);
      ScreenApproved(e, tree, baseline, f, takes, before, screen, init);
      OneMoreApproved(e, tree, baseline, f, takes + TakesFor(screen, init), WithArtifacts(baseline, before, f, screen, init), Take(screen, last));
      TakesForSnoc(takes, screen, artifacts);
    }
  }

  // ---- All screens -----------------------------------------------------------------------------

  lemma TakesSnoc(e: Setting, tree: Tree, f: string, screens: seq<Screen>, all: nat, blocks: seq<seq<Artifact>>, screen: Screen, block: seq<Artifact>)
    requires TakesAll(e, tree, f, screens, all, blocks)
    requires block != [] && ArtifactsForScreen(e.c, e.listing, tree, f, screen.screenId, all) == Ok(block)
    ensures TakesAll(e, tree, f, screens + [screen], all, blocks + [block])
    ensures AllTakes(screens + [screen], blocks + [block]) == AllTakes(screens, blocks) + TakesFor(screen, block)
  {
    assert (screens + [screen])[..|screens|] == screens && (blocks + [block])[..|blocks|] == blocks;
  }

  lemma {:induction false} ScreensApproved(e: Setting, tree: Tree, baseline: seq<ScoreEntry>, f: string, screens: seq<Screen>, all: nat)
    returns (blocks: seq<seq<Artifact>>)
    requires Approved(e, tree, baseline, f, screens, all).Ok?
    ensures TakesAll(e, tree, f, screens, all, blocks)
    ensures ApprovesSoFar(e, tree, baseline, f, AllTakes(screens, blocks), Approved(e, tree, baseline, f, screens, all).value)
    decreases |screens|
  {
    if screens == [] {
      blocks := [];
    } else {
      var init, screen := screens[..|screens| - 1], screens[|screens| - 1];
      assert screens == init + [screen];
      var before := ScreensApproved(e, tree, baseline, f, init, all);
      var block := TakenArtifacts(e, tree, f, screen, all).value;
      TakesSnoc(e, tree, f, init, all, before, screen, block);
      ScreenApproved(e, tree, baseline, f, AllTakes(init, before), Approved(e, tree, baseline, f, init, all).value, screen, block);
      blocks := before + [block];
    }
  }

  // ---- A whole approval ------------------------------------------------------------------------

  /** The approval approves every artifact of the target screens, in order, at the time of the latest. */
  ghost predicate ApprovesTarget(e: Setting, tree: Tree, baseline: seq<ScoreEntry>, f: string, screenId: Option<string>, approval: Approval) {
    f in e.catalog
    && exists screens, blocks ::
         && AreTargets(e.catalog[f], screenId, screens) && TakesAll(e, tree, f, screens, |Declared(e.catalog[f])|, blocks)
         && ApprovesSoFar(e, tree, baseline, f, AllTakes(screens, blocks), approval)
  }

  lemma CollectedApproves(e: Setting, tree: Tree, baseline: seq<ScoreEntry>, target: string, screenId: Option<string>)
    requires ApprovalTargets(e, target, screenId) && Collection(e, tree, baseline, target, screenId).Ok?
    ensures ApprovesTarget(e, tree, baseline, NormalFixture(target), screenId, Collection(e, tree, baseline, target, screenId).value)
  {
    var m := e.catalog[NormalFixture(target)];
    TargetsAreDeclared(m, screenId);
    assert EnumerateScreens(m) == Declared(m);
    var blocks := ScreensApproved(e, tree, baseline, NormalFixture(target), TargetScreens(m, screenId).value, |EnumerateScreens(m)|);
  }

  /** The history's last entry. */
  ghost predicate RecordedLast(e: Setting, s: Stores, runAt: string, scores: seq<ScoreEntry>) {
    && LoadedHistory(e, s).Ok? && LoadedHistory(e, s).value != []
    && var last := LoadedHistory(e, s).value[|LoadedHistory(e, s).value| - 1];
       last.runAt == runAt && FixturesAllowed(scores) && last.scores == SortScores(e.c, CanonAll(scores))
  }

  lemma WindowEnds<T>(existing: seq<T>, entry: T, max: nat)
    requires max > 0
    ensures var w := Window(existing, entry, max); w != [] && w[|w| - 1] == entry
  {
  }

  lemma AcceptedIsRecorded(e: Setting, s: Stores, after: Stores, runAt: string, scores: seq<ScoreEntry>)
    requires HistoryAfter(e.c, s.history, runAt, scores, e.historySize).Ok?
    requires after.history == Some(HistoryAfter(e.c, s.history, runAt, scores, e.historySize).value)
    ensures RecordedLast(e, after, runAt, scores)
  {
    HistoryAfterIsWindow(e.c, s.history, runAt, scores, e.historySize);
    WindowEnds(Normalized(e.c, s.history.GetOr([])).value, NormalEntry(e.c, runAt, scores), e.historySize);
    assert NormalizedScores(e.c, scores).Ok?;
  }

  /** An approval that returns approved every artifact of its target screens; its time is that of the
      latest of them, and the history's last entry records its scores under that time. */
  lemma ApprovalTells(e: Setting, s: Stores, tree: Tree, target: string, screenId: Option<string>, after: Stores, approval: Approval)
    requires ApprovedStores(e, s, tree, target, screenId) == (after, Ok(approval))
    ensures LoadedBaseline(e.c, e.catalog, s.baseline).Ok?
    ensures ApprovesTarget(e, tree, LoadedBaseline(e.c, e.catalog, s.baseline).value, NormalFixture(target), screenId, approval)
    ensures approval.latestRanAt.Some? && RecordedLast(e, after, approval.latestRanAt.value, approval.scores)
  {
    var b := LoadedBaseline(e.c, e.catalog, s.baseline).value;
    CollectedApproves(e, tree, b, target, screenId);
    ApproveStoresHistory(e.c, e.catalog, s, b, approval.scores, ApproveScope(e.catalog, NormalFixture(target), screenId),
                         approval.latestRanAt.value, e.historySize);
    AcceptedIsRecorded(e, s, after, approval.latestRanAt.value, approval.scores);
  }

  /** An update that returns is recorded last, under its own time. */
  lemma UpdateIsRecorded(e: Setting, s: Stores, tree: Tree, fixtureId: Option<string>, screenId: Option<string>,
                         execute: string -> Result<Execution>, runAt: string, outcome: Outcome)
    requires outcome == Updated(e, s, tree, fixtureId, screenId, execute, runAt) && outcome.scores.Ok?
    ensures RecordedLast(e, outcome.stores, runAt, outcome.scores.value)
  {
    UpdateStoresHistory(e.c, e.catalog, s, LoadedBaseline(e.c, e.catalog, s.baseline).value, LoadedLastRun(e.c, s.lastRun).value,
                        outcome.scores.value, UpdateScope(e.catalog, fixtureId, screenId), runAt, e.historySize);
    AcceptedIsRecorded(e, s, outcome.stores, runAt, outcome.scores.value);
  }
}
