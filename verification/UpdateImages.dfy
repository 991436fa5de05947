/** The images and manifests an update leaves behind: those of the results it saved. */
module UpdateImages {
  import opened Basics
  import opened Ids
  import opened ArtifactTree
  import opened ReadYourWrites
  import opened SavedImages
  import opened BaselineStore
  import opened BaselinePlan
  import opened Baseline
  import opened BaselineRuns
  import opened UpdateArtifacts

  /** No later write goes to the place of write i, or removes it as a leftover of its own. */
  predicate Undisturbed(writes: seq<Write>, i: nat)
    requires i < |writes|
  {
    forall j :: i < j < |writes| ==> Untouched(WriteDir(writes[j]), WriteDir(writes[i]))
  }

  lemma UndisturbedBefore(writes: seq<Write>, i: nat)
    requires i < |writes| - 1 && Undisturbed(writes, i)
    ensures Undisturbed(writes[..|writes| - 1], i) && writes[..|writes| - 1][i] == writes[i]
    ensures Untouched(WriteDir(writes[|writes| - 1]), WriteDir(writes[i]))
  {
  }

  /** The write's files and manifest are in its place. */
  predicate Held(tree: Tree, w: Write, runAt: string) {
    HoldsContents(tree, WriteDir(w), InputOf(w, runAt)) && HoldsManifest(tree, WriteDir(w), InputOf(w, runAt))
  }

  lemma NextHolds(catalog: Catalog, isPng: nat -> bool, before: Tree, w: Write, runAt: string)
    requires ValidCatalog(catalog) && Enumerated(catalog, w) && SavedNext(isPng, (before, true), w, runAt).1
    ensures Held(SavedNext(isPng, (before, true), w, runAt).0, w, runAt)
  {
    WriteResolves(catalog, w, runAt);
    SavedExactly(before, InputOf(w, runAt));
  }

  lemma ManifestKept(tree: Tree, dir: Path, e: Input, m: Manifest, k: Path, held: Input)
    requires Untouched(dir, k) && HoldsManifest(tree, k, held)
    ensures HoldsManifest(SaveAt(tree, dir, e, m), k, held)
  {
  }

  lemma NextKeeps(catalog: Catalog, isPng: nat -> bool, before: Tree, w: Write, next: Write, runAt: string)
    requires ValidCatalog(catalog) && Enumerated(catalog, next) && SavedNext(isPng, (before, true), next, runAt).1
    requires Untouched(WriteDir(next), WriteDir(w)) && Held(before, w, runAt)
    ensures Held(SavedNext(isPng, (before, true), next, runAt).0, w, runAt)
  {
    WriteResolves(catalog, next, runAt);
    var i := InputOf(next, runAt);
    ContentsKept(before, WriteDir(next), i, ManifestOf(i).value, WriteDir(w), InputOf(w, runAt));
    ManifestKept(before, WriteDir(next), i, ManifestOf(i).value, WriteDir(w), InputOf(w, runAt));
  }

  lemma {:induction false} WriteStays(catalog: Catalog, isPng: nat -> bool, tree: Tree, writes: seq<Write>, runAt: string, i: nat)
    requires ValidCatalog(catalog) && AllEnumerated(catalog, writes) && i < |writes| && Undisturbed(writes, i)
    requires SaveWrites(isPng, tree, writes, runAt).1
    ensures Held(SaveWrites(isPng, tree, writes, runAt).0, writes[i], runAt)
    decreases |writes|
  {
    var init, last := writes[..|writes| - 1], writes[|writes| - 1];
    AllSnoc(catalog, tree, writes);
    if i == |writes| - 1 {
      NextHolds(catalog, isPng, SaveWrites(isPng, tree, init, runAt).0, last, runAt);
    } else {
      UndisturbedBefore(writes, i);
      WriteStays(catalog, isPng, tree, init, runAt, i);
      NextKeeps(catalog, isPng, SaveWrites(isPng, tree, init, runAt).0, writes[i], last, runAt);
    }
  }

  /** The result's own image, diff image and report, no reference image, and its own score and ids. */
  predicate HoldsResult(tree: Tree, w: Write, runAt: string) {
    var dir := WriteDir(w);
    && HoldsFile(tree, dir + ["actual.png"], Some(w.result.actual)) && HoldsFile(tree, dir + ["reference.png"], None)
    && HoldsFile(tree, dir + ["diff.png"], w.result.diff) && HoldsFile(tree, dir + ["report.json"], w.result.report)
    && dir in tree.manifests
    && var m := tree.manifests[dir];
       && m.fixtureId == w.fixtureId && m.score == w.result.score && m.ranAt == runAt
       && m.viewportId == NonBlank(w.result.viewportId) && m.viewportLabel == NonBlank(w.result.viewportLabel)
       && m.screenName == NonBlank(Some(w.screen.screenName))
  }

  lemma ResultIsHeld(catalog: Catalog, tree: Tree, w: Write, runAt: string)
    requires ValidCatalog(catalog) && Enumerated(catalog, w)
    requires Held(tree, w, runAt)
    ensures HoldsResult(tree, w, runAt)
  {
    NonBlankFacts(w.result.viewportId);
    NonBlankFacts(w.result.viewportLabel);
  }

  /** After a completed update every saved result that no later one replaced is held as it was reported:
      score, time, screenshot, diff image and report. */
  lemma UpdateHoldsResults(e: Setting, tree: Tree, fixtureId: Option<string>, screenId: Option<string>,
                           execute: string -> Result<Execution>, runAt: string, i: nat)
    requires ValidCatalog(e.catalog) && UpdateRun(e, tree, fixtureId, screenId, execute, runAt).1.Ok?
    requires var writes := UpdateRun(e, tree, fixtureId, screenId, execute, runAt).1.value;
             i < |writes| && Undisturbed(writes, i)
    ensures var (after, writes) := UpdateRun(e, tree, fixtureId, screenId, execute, runAt); HoldsResult(after, writes.value[i], runAt)
  {
    var writes := UpdateRun(e, tree, fixtureId, screenId, execute, runAt).1.value;
    RunFollowsPlan(e, tree, Targets(e, fixtureId), screenId, execute, runAt);
    PlanMembers(e.catalog, Targets(e, fixtureId), screenId, execute);
    assert writes[i] in writes;
    WriteStays(e.catalog, e.isPng, tree, writes, runAt, i);
    ResultIsHeld(e.catalog, UpdateRun(e, tree, fixtureId, screenId, execute, runAt).0, writes[i], runAt);
  }
}
