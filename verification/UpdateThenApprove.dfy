/** Approving right after an update: whether the approval takes what the update saved, or an older
    artifact that hides it. */
module UpdateThenApprove {
  import opened Basics
  import opened StableSort
  import opened Ids
  import opened ScreenIdCodec
  import opened ScoreKeys
  import opened ScoreMerge
  import opened ArtifactTree
  import opened ArtifactLayout
  import opened ArtifactReading
  import opened BaselineStore
  import opened BaselineDiff
  import opened BaselinePlan
  import opened Baseline
  import opened BaselineRuns
  import opened UpdateArtifacts

  // ---- A root artifact leaves the screens alone ------------------------------------------------

  /** Two trees hold the same below a directory. */
  ghost predicate SameBelow(t: Tree, u: Tree, dir: Path) {
    && (forall d: Path :: dir <= d ==> (d in t.manifests <==> d in u.manifests))
    && (forall d: Path :: dir <= d && d in t.manifests ==> t.manifests[d] == u.manifests[d])
    && (forall p: Path :: dir <= p ==> (p in t.blobs <==> p in u.blobs))
  }

  lemma ScreensSurvive(f: string, p: Path)
    requires |p| >= 2 && p[1] == "screens"
    ensures !Superseded([f], p) && p != [f] && p != [f] + ["actual.png"]
    ensures p != [f] + ["reference.png"] && p != [f] + ["diff.png"] && p != [f] + ["report.json"]
  {
    assert ([f] + ["browsers"])[1] == "browsers" && ([f] + ["pairwise"])[1] == "pairwise";
    assert ([f] + ["reference.png"])[1] == "reference.png" && ([f] + ["diff.png"])[1] == "diff.png"
        && ([f] + ["report.json"])[1] == "report.json" && ([f] + ["actual.png"])[1] == "actual.png";
  }

  lemma RootSaveKeepsScreens(tree: Tree, f: string, input: Input, m: Manifest)
    ensures SameBelow(tree, SaveAt(tree, [f], input, m), [f, "screens"])
  {
    var after := SaveAt(tree, [f], input, m);
    forall p: Path | [f, "screens"] <= p
      ensures p in tree.manifests <==> p in after.manifests
      ensures p in tree.manifests ==> tree.manifests[p] == after.manifests[p]
      ensures p in tree.blobs <==> p in after.blobs
    {
      assert p[1] == "screens";
      ScreensSurvive(f, p);
    }
  }

  lemma SameBelowSameAt(t: Tree, u: Tree, dir: Path, d: Path)
    requires SameBelow(t, u, dir) && dir <= d
    ensures At(t, d) == At(u, d)
  {
    assert forall n: string :: dir <= d + [n];
  }

  lemma SameBelowSameChildren(t: Tree, u: Tree, dir: Path, d: Path)
    requires SameBelow(t, u, dir) && dir <= d
    ensures ChildDirs(t, d) == ChildDirs(u, d)
  {
    forall n
      ensures n in ChildDirs(t, d) <==> n in ChildDirs(u, d)
    {
      ChildIsShown(t, d, n);
      ChildIsShown(u, d, n);
      forall q: Path | d <= q
        ensures Shows(t, d, n, q) <==> Shows(u, d, n, q)
      {
        assert dir <= q;
      }
    }
  }

  lemma {:induction false} SameBelowSameCollected(t: Tree, u: Tree, f: string, screenId: string, names: seq<string>)
    requires FixtureId(f) == Ok(f) && NonBlank(Some(screenId)).Some? && SameBelow(t, u, [f, "screens"])
    ensures Collected(t, f, Some(screenId), names) == Collected(u, f, Some(screenId), names)
  {
    if names != [] {
      SameBelowSameCollected(t, u, f, screenId, names[..|names| - 1]);
      var dir := ArtifactDir(f, Some(screenId), Some(names[|names| - 1]));
      if dir.Ok? {
        assert [f, "screens"] <= dir.value;
        SameBelowSameAt(t, u, [f, "screens"], dir.value);
      }
    }
  }

  lemma SameBelowSameScreen(c: Collation, listing: Listing, t: Tree, u: Tree, f: string, screenId: string)
    requires FixtureId(f) == Ok(f) && NonBlank(Some(screenId)).Some? && SameBelow(t, u, [f, "screens"])
    ensures LoadedScreen(c, listing, t, f, screenId) == LoadedScreen(c, listing, u, f, screenId)
  {
    var dir := ArtifactDir(f, Some(screenId), None);
    if dir.Ok? {
      assert [f, "screens"] <= dir.value;
      SameBelowSameAt(t, u, [f, "screens"], dir.value);
      SameBelowSameChildren(t, u, [f, "screens"], dir.value);
      SameBelowSameCollected(t, u, f, screenId, listing(ChildDirs(t, dir.value)));
    }
  }

  // ---- What the approval takes -----------------------------------------------------------------

  /** The artifact of a result without a viewport. */
  function OwnArtifact(w: Write, runAt: string): Artifact
    requires ManifestOf(InputOf(w, runAt)).Ok?
  {
    var i := InputOf(w, runAt);
    SavedEntry(Directory(w.fixtureId, if w.multiScreen then NonBlank(Some(w.screen.screenId)) else None, None), i, ManifestOf(i).value)
  }

  lemma OwnIsSaved(catalog: Catalog, tree: Tree, w: Write, runAt: string)
    requires ValidCatalog(catalog) && Enumerated(catalog, w) && NonBlank(w.result.viewportId).None?
    requires Saved(tree, InputOf(w, runAt)).Ok?
    ensures ManifestOf(InputOf(w, runAt)).Ok?
    ensures var after := Saved(tree, InputOf(w, runAt)).value;
            var dir := Directory(w.fixtureId, if w.multiScreen then NonBlank(Some(w.screen.screenId)) else None, None);
            && after == SaveAt(tree, dir, InputOf(w, runAt), ManifestOf(InputOf(w, runAt)).value)
            && At(after, dir) == Some(OwnArtifact(w, runAt))
  {
    var i := InputOf(w, runAt);
    WriteResolves(catalog, w, runAt);
    SaveThenAt(tree, ArtifactDir(i.fixtureId, i.screenId, i.viewportId).value, i, ManifestOf(i).value);
  }

  /** Of a fixture with several screens, the screen's new artifact is what an approval finds. */
  lemma ScreenSaveIsFound(e: Setting, tree: Tree, w: Write, runAt: string)
    requires ValidCatalog(e.catalog) && Enumerated(e.catalog, w) && NonBlank(w.result.viewportId).None? && w.multiScreen
    requires Saved(tree, InputOf(w, runAt)).Ok?
    ensures ManifestOf(InputOf(w, runAt)).Ok?
    ensures LoadedScreen(e.c, e.listing, Saved(tree, InputOf(w, runAt)).value, w.fixtureId, w.screen.screenId) == Ok([OwnArtifact(w, runAt)])
  {
    OwnIsSaved(e.catalog, tree, w, runAt);
    TrimmedIdsAreKept(Some(w.screen.screenId), None);
    assert ArtifactDir(w.fixtureId, Some(w.screen.screenId), None) == Ok(Directory(w.fixtureId, NonBlank(Some(w.screen.screenId)), None));
  }

  /** Of a single-screen fixture, older artifacts below the screen are found first; only without any is
      the new artifact found, at the root. */
  lemma RootSaveIsFoundLast(e: Setting, tree: Tree, w: Write, runAt: string)
    requires ValidCatalog(e.catalog) && Enumerated(e.catalog, w) && NonBlank(w.result.viewportId).None? && !w.multiScreen
    requires Saved(tree, InputOf(w, runAt)).Ok?
    ensures ManifestOf(InputOf(w, runAt)).Ok?
    ensures var after, f, s := Saved(tree, InputOf(w, runAt)).value, w.fixtureId, w.screen.screenId;
            var older := LoadedScreen(e.c, e.listing, tree, f, s);
            && ArtifactsForScreen(e.c, e.listing, after, f, s, 1) == (if older == Ok([]) then Ok([OwnArtifact(w, runAt)]) else older)
            && (older.Ok? ==> OwnArtifact(w, runAt) !in older.value)
  {
    var f, s, i := w.fixtureId, w.screen.screenId, InputOf(w, runAt);
    var after := Saved(tree, i).value;
    assert NonBlank(Some(s)).Some?;
    OwnIsSaved(e.catalog, tree, w, runAt);
    RootSaveKeepsScreens(tree, f, i, ManifestOf(i).value);
    SameBelowSameScreen(e.c, e.listing, tree, after, f, s);
    assert ArtifactDir(f, None, None) == Ok([f]);
    if LoadedScreen(e.c, e.listing, tree, f, s).Ok? {
      FoundBelowScreens(e.c, e.listing, tree, f, s);
    }
  }

  /** Artifacts found for a screen lie below its directory. */
  lemma FoundBelowScreens(c: Collation, listing: Listing, tree: Tree, f: string, s: string)
    requires FixtureId(f) == Ok(f) && NonBlank(Some(s)).Some? && LoadedScreen(c, listing, tree, f, s).Ok?
    ensures forall a :: a in LoadedScreen(c, listing, tree, f, s).value ==> |a.actualImagePath| > 2
  {
    var dir := ArtifactDir(f, Some(s), None).value;
    if At(tree, dir).None? {
      var names := listing(ChildDirs(tree, dir));
      CollectedBelowScreens(tree, f, s, names);
      ArtifactOrdersAreTotal(c);
      SortFacts(ViewportOrder(c), Collected(tree, f, Some(s), names).value);
    }
  }

  lemma {:induction false} CollectedBelowScreens(tree: Tree, f: string, s: string, names: seq<string>)
    requires FixtureId(f) == Ok(f) && NonBlank(Some(s)).Some? && Collected(tree, f, Some(s), names).Ok?
    ensures forall a :: a in Collected(tree, f, Some(s), names).value ==> |a.actualImagePath| > 2
  {
    if names != [] {
      CollectedBelowScreens(tree, f, s, names[..|names| - 1]);
    }
  }

  // ---- Update, then approve --------------------------------------------------------------------

  /** The approved entry of the update's own artifact is the entry the update wrote. */
  lemma OwnEntryIsWritten(catalog: Catalog, w: Write, runAt: string)
    requires ManifestOf(InputOf(w, runAt)).Ok? && NonBlank(w.result.viewportId).None?
    ensures ApprovedEntry(w.fixtureId, w.screen, OwnArtifact(w, runAt)) == ScoreOf(w)
  {
    NonBlankFacts(w.result.viewportLabel);
  }

  /** After an update whose one result has no viewport, an approval finds exactly the artifact the update
      saved, unless the fixture has a single screen with older artifacts of its own: then it finds those. */
  lemma UpdateThenApproveExactly(e: Setting, s: Stores, tree: Tree, f: string, screenId: Option<string>,
                                 execute: string -> Result<Execution>, runAt: string, outcome: Outcome, w: Write)
    requires ValidCatalog(e.catalog) && outcome == Updated(e, s, tree, Some(f), screenId, execute, runAt) && outcome.scores.Ok?
    requires UpdateRun(e, tree, Some(f), screenId, execute, runAt).1 == Ok([w]) && NonBlank(w.result.viewportId).None?
    ensures Enumerated(e.catalog, w) && ManifestOf(InputOf(w, runAt)).Ok?
    ensures ApprovedEntry(w.fixtureId, w.screen, OwnArtifact(w, runAt)) == ScoreOf(w)
    ensures HoldsFile(outcome.tree, OwnArtifact(w, runAt).actualImagePath, Some(w.result.actual))
    ensures var found := ArtifactsForScreen(e.c, e.listing, outcome.tree, w.fixtureId, w.screen.screenId,
                                            |EnumerateScreens(e.catalog[w.fixtureId])|);
            var older := LoadedScreen(e.c, e.listing, tree, w.fixtureId, w.screen.screenId);
            && (found == Ok([OwnArtifact(w, runAt)]) <==> w.multiScreen || older == Ok([]))
            && (found != Ok([OwnArtifact(w, runAt)]) ==> found == older)
  {
    RunFollowsPlan(e, tree, [f], screenId, execute, runAt);
    PlanMembers(e.catalog, [f], screenId, execute);
    assert w in [w];
    assert [w][..0] == [];
    assert SaveWrites(e.isPng, tree, [], runAt) == (tree, true);
    assert SaveWrites(e.isPng, tree, [w], runAt) == SavedNext(e.isPng, (tree, true), w, runAt);
    OwnEntry(e, tree, w, runAt);
    if w.multiScreen {
      ScreenSaveIsFound(e, tree, w, runAt);
    } else {
      RootSaveIsFoundLast(e, tree, w, runAt);
    }
  }

  lemma OwnEntry(e: Setting, tree: Tree, w: Write, runAt: string)
    requires ValidCatalog(e.catalog) && Enumerated(e.catalog, w) && NonBlank(w.result.viewportId).None?
    requires Saved(tree, InputOf(w, runAt)).Ok?
    ensures ManifestOf(InputOf(w, runAt)).Ok? && ApprovedEntry(w.fixtureId, w.screen, OwnArtifact(w, runAt)) == ScoreOf(w)
    ensures HoldsFile(Saved(tree, InputOf(w, runAt)).value, OwnArtifact(w, runAt).actualImagePath, Some(w.result.actual))
  {
    OwnIsSaved(e.catalog, tree, w, runAt);
    SavedExactly(tree, InputOf(w, runAt));
    WriteResolves(e.catalog, w, runAt);
    OwnEntryIsWritten(e.catalog, w, runAt);
  }

  /** Each score and detail is that of one artifact, in order. */
  predicate FromEach(approval: Approval, f: string, screen: Screen, artifacts: seq<Artifact>) {
    && |approval.scores| == |approval.details| == |artifacts|
    && forall i :: 0 <= i < |artifacts| ==>
         approval.scores[i] == ApprovedEntry(f, screen, artifacts[i]) && approval.details[i].approvedFrom == artifacts[i].actualImagePath
  }

  lemma NextFromEach(baseline: seq<ScoreEntry>, before: Approval, f: string, screen: Screen, init: seq<Artifact>, a: Artifact)
    requires FromEach(before, f, screen, init)
    ensures FromEach(WithArtifact(baseline, before, f, screen, a), f, screen, init + [a])
  {
  }

  lemma {:induction false} ApprovedFromEach(
      baseline: seq<ScoreEntry>, before: Approval, f: string, screen: Screen, artifacts: seq<Artifact>)
    requires before.scores == [] && before.details == []
    ensures FromEach(WithArtifacts(baseline, before, f, screen, artifacts), f, screen, artifacts)
  {
    if artifacts != [] {
      var init, last := artifacts[..|artifacts| - 1], artifacts[|artifacts| - 1];
      ApprovedFromEach(baseline, before, f, screen, init);
      NextFromEach(baseline, WithArtifacts(baseline, before, f, screen, init), f, screen, init, last);
      assert artifacts == init + [last];
    }
  }

  lemma OneScreenApproved(e: Setting, tree: Tree, baseline: seq<ScoreEntry>, f: string, screen: Screen, all: nat)
    requires Approved(e, tree, baseline, f, [screen], all).Ok?
    ensures var r := ArtifactsForScreen(e.c, e.listing, tree, f, screen.screenId, all);
            r.Ok? && r.value != [] && FromEach(Approved(e, tree, baseline, f, [screen], all).value, f, screen, r.value)
  {
    assert [screen][..0] == [];
    assert Approved(e, tree, baseline, f, [], all) == Ok(Approval([], [], None));
    ApprovedFromEach(baseline, Approval([], [], None), f, screen, TakenArtifacts(e, tree, f, screen, all).value);
  }

  /** The approval wrote the one score of the update, from the image the update saved. */
  predicate RepeatsUpdate(approval: Approval, w: Write, own: Artifact) {
    approval.scores == [ScoreOf(w)] && |approval.details| == 1 && approval.details[0].approvedFrom == own.actualImagePath
  }

  /** So approving the screen right after such an update writes the update's own score, from its own
      image, exactly when the fixture has several screens or no older artifact of its one screen. */
  lemma ApprovalRepeatsUpdateExactly(
      e: Setting, s: Stores, tree: Tree, f: string, screenId: Option<string>, execute: string -> Result<Execution>, runAt: string,
      outcome: Outcome, w: Write, baseline: seq<ScoreEntry>)
    requires ValidCatalog(e.catalog) && outcome == Updated(e, s, tree, Some(f), screenId, execute, runAt) && outcome.scores.Ok?
    requires UpdateRun(e, tree, Some(f), screenId, execute, runAt).1 == Ok([w]) && NonBlank(w.result.viewportId).None?
    requires w.fixtureId in e.catalog && ManifestOf(InputOf(w, runAt)).Ok?
    requires Approved(e, outcome.tree, baseline, w.fixtureId, [w.screen], |EnumerateScreens(e.catalog[w.fixtureId])|).Ok?
    ensures var approval := Approved(e, outcome.tree, baseline, w.fixtureId, [w.screen], |EnumerateScreens(e.catalog[w.fixtureId])|).value;
            RepeatsUpdate(approval, w, OwnArtifact(w, runAt))
            <==> (w.multiScreen || LoadedScreen(e.c, e.listing, tree, w.fixtureId, w.screen.screenId) == Ok([]))
  {
    var all := |EnumerateScreens(e.catalog[w.fixtureId])|;
    UpdateThenApproveExactly(e, s, tree, f, screenId, execute, runAt, outcome, w);
    OneScreenApproved(e, outcome.tree, baseline, w.fixtureId, w.screen, all);
    var found := ArtifactsForScreen(e.c, e.listing, outcome.tree, w.fixtureId, w.screen.screenId, all).value;
    if found != [OwnArtifact(w, runAt)] {
      OlderIsElsewhere(e, tree, w, runAt, found);
    }
    RepeatsExactly(e, outcome.tree, baseline, w, runAt, found);
  }

  lemma OlderIsElsewhere(e: Setting, tree: Tree, w: Write, runAt: string, older: seq<Artifact>)
    requires ValidCatalog(e.catalog) && Enumerated(e.catalog, w) && !w.multiScreen
    requires ManifestOf(InputOf(w, runAt)).Ok? && older != []
    requires LoadedScreen(e.c, e.listing, tree, w.fixtureId, w.screen.screenId) == Ok(older)
    ensures older[0].actualImagePath != OwnArtifact(w, runAt).actualImagePath
  {
    assert NonBlank(Some(w.screen.screenId)).Some?;
    FoundBelowScreens(e.c, e.listing, tree, w.fixtureId, w.screen.screenId);
    assert older[0] in older;
  }

  lemma RepeatsExactly(e: Setting, tree: Tree, baseline: seq<ScoreEntry>, w: Write, runAt: string, found: seq<Artifact>)
    requires Enumerated(e.catalog, w) && ManifestOf(InputOf(w, runAt)).Ok? && found != []
    requires ArtifactsForScreen(e.c, e.listing, tree, w.fixtureId, w.screen.screenId, |EnumerateScreens(e.catalog[w.fixtureId])|) == Ok(found)
    requires Approved(e, tree, baseline, w.fixtureId, [w.screen], |EnumerateScreens(e.catalog[w.fixtureId])|).Ok?
    requires ApprovedEntry(w.fixtureId, w.screen, OwnArtifact(w, runAt)) == ScoreOf(w)
    requires found != [OwnArtifact(w, runAt)] ==> found[0].actualImagePath != OwnArtifact(w, runAt).actualImagePath
    ensures RepeatsUpdate(Approved(e, tree, baseline, w.fixtureId, [w.screen], |EnumerateScreens(e.catalog[w.fixtureId])|).value,
                          w, OwnArtifact(w, runAt))
        <==> found == [OwnArtifact(w, runAt)]
  {
    var approval := Approved(e, tree, baseline, w.fixtureId, [w.screen], |EnumerateScreens(e.catalog[w.fixtureId])|).value;
    OneScreenApproved(e, tree, baseline, w.fixtureId, w.screen, |EnumerateScreens(e.catalog[w.fixtureId])|);
    assert approval.details[0].approvedFrom == found[0].actualImagePath;
    if found == [OwnArtifact(w, runAt)] {
      assert approval.scores == [approval.scores[0]];
    }
  }
}
