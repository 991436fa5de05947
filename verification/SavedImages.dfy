/** The images of a run: whatever the persist phase saves later, the files of each artifact hold what that
    artifact was saved with, and that is what a loaded artifact points to. */
module SavedImages {
  import opened Basics
  import opened Ids
  import opened StableSort
  import opened ArtifactTree
  import opened ArtifactLayout
  import opened PersistPhase
  import opened ReadYourWrites

  // ---- Later saves -----------------------------------------------------------------------------

  lemma FileKept(tree: Tree, dir: Path, e: Input, m: Manifest, k: Path, name: string, content: Option<nat>)
    requires Untouched(dir, k) && HoldsFile(tree, k + [name], content)
    ensures HoldsFile(SaveAt(tree, dir, e, m), k + [name], content)
  {
    SaveKeepsFile(tree, dir, e, m, k, name);
  }

  /** A save elsewhere keeps the files of an artifact. */
  lemma ContentsKept(tree: Tree, dir: Path, e: Input, m: Manifest, k: Path, held: Input)
    requires Untouched(dir, k) && HoldsContents(tree, k, held)
    ensures HoldsContents(SaveAt(tree, dir, e, m), k, held)
  {
    FileKept(tree, dir, e, m, k, "actual.png", Some(held.actual));
    FileKept(tree, dir, e, m, k, "reference.png", held.reference);
    FileKept(tree, dir, e, m, k, "diff.png", held.diff);
    FileKept(tree, dir, e, m, k, "report.json", held.report);
  }

  lemma OtherFixtureUntouched(dir: Path, k: Path)
    requires dir != [] && k != [] && dir[0] != k[0]
    ensures Untouched(dir, k)
  {
    assert forall x: string :: (dir + [x])[0] == dir[0];
  }

  /** Two artifacts of one run never get in each other's way. */
  lemma HomesApart(entries: seq<Input>, i: nat, j: nat)
    requires WellFormedRun(entries) && i < |entries| && j < |entries| && i != j
    requires Unmixed(RunSlots(entries, entries[i].fixtureId))
    ensures Untouched(Home(entries, entries[j]), Home(entries, entries[i]))
  {
    var d, e := entries[j], entries[i];
    HomeStart(entries, d);
    HomeStart(entries, e);
    if d.fixtureId != e.fixtureId {
      OtherFixtureUntouched(Home(entries, d), Home(entries, e));
    } else {
      TwoOfAKind(entries, e.fixtureId, i, j);
      var s, t := SlotOf(d), SlotOf(e);
      assert s in RunSlots(entries, e.fixtureId) && t in RunSlots(entries, e.fixtureId);
      assert s != t;
      SlotsTouched(e.fixtureId, s, t);
    }
  }

  /** From its own save on, the files of an artifact stay. */
  lemma {:induction false} ContentsStay(start: Tree, entries: seq<Input>, i: nat, j: nat)
    requires WellFormedRun(entries) && i < j <= |entries| && Unmixed(RunSlots(entries, entries[i].fixtureId))
    ensures HoldsContents(After(start, entries, j), Home(entries, entries[i]), entries[i])
    decreases j
  {
    var e := entries[j - 1];
    SavesSucceed(start, entries, j);
    if j == i + 1 {
      SaveHoldsContents(After(start, entries, i), Home(entries, e), e, ManifestOf(Placed(entries, e)).value);
    } else {
      ContentsStay(start, entries, i, j - 1);
      HomesApart(entries, i, j - 1);
      ContentsKept(After(start, entries, j - 1), Home(entries, e), e, ManifestOf(Placed(entries, e)).value,
                   Home(entries, entries[i]), entries[i]);
    }
  }

  // ---- After the persist phase -----------------------------------------------------------------

  /** Every artifact of the run holds its own screenshot, and exactly the reference image, diff image and
      report it was saved with. */
  lemma PersistKeepsContents(tree: Tree, entries: seq<Input>, e: Input)
    requires WellFormedRun(entries) && e in entries && Unmixed(RunSlots(entries, e.fixtureId))
    ensures Persisted(tree, entries).1 && HoldsContents(Persisted(tree, entries).0, Home(entries, e), e)
  {
    var i :| 0 <= i < |entries| && entries[i] == e;
    var start := CleanRoots(tree, NeedCleanup(entries));
    SavesSucceed(start, entries, |entries|);
    ContentsStay(start, entries, i, |entries|);
    assert entries[..|entries|] == entries;
  }

  /** The paths of a loaded artifact lead to the input's own contents, and there is a path exactly for what
      the input had. */
  predicate PointsTo(tree: Tree, a: Artifact, e: Input) {
    && a.actualImagePath in tree.blobs && tree.blobs[a.actualImagePath] == e.actual
    && PointsToOptional(tree, a.referenceImagePath, e.reference)
    && PointsToOptional(tree, a.diffImagePath, e.diff) && PointsToOptional(tree, a.reportPath, e.report)
  }

  predicate PointsToOptional(tree: Tree, p: Option<Path>, content: Option<nat>) {
    (p.Some? <==> content.Some?) && (p.Some? ==> p.value in tree.blobs && tree.blobs[p.value] == content.value)
  }

  lemma HeldIsPointedTo(tree: Tree, dir: Path, e: Input, m: Manifest)
    requires HoldsContents(tree, dir, e)
    ensures PointsTo(tree, SavedEntry(dir, e, m), e)
  {
  }

  /** Whatever a load of a fixture lists of a run leads to the run's own images. */
  lemma ListedImagesAreOwn(c: Collation, listing: Listing, tree: Tree, entries: seq<Input>, e: Input)
    requires WellFormedRun(entries) && e in entries && Unmixed(RunSlots(entries, e.fixtureId))
    ensures ManifestOf(Placed(entries, e)).Ok? && PointsTo(Persisted(tree, entries).0, Reported(entries, e), e)
    ensures AtRoot(entries, e) ==> Loaded(c, listing, Persisted(tree, entries).0, e.fixtureId) == Ok([Reported(entries, e)])
  {
    PersistKeepsContents(tree, entries, e);
    SavedPlaced(tree, entries, e);
    HeldIsPointedTo(Persisted(tree, entries).0, Home(entries, e), e, ManifestOf(Placed(entries, e)).value);
    if AtRoot(entries, e) {
      RootReadBack(c, listing, tree, entries, e);
    }
  }

  /** An artifact a load lists and the run reported carries the score and the time of one of the run's
      inputs for the fixture, and leads to that input's images. */
  lemma LoadedArtifactsAreOwn(c: Collation, listing: Listing, tree: Tree, entries: seq<Input>, f: string, a: Artifact)
    requires WellFormedRun(entries) && Unmixed(RunSlots(entries, f)) && Loaded(c, listing, Persisted(tree, entries).0, f).Ok?
    requires a in Loaded(c, listing, Persisted(tree, entries).0, f).value && IsReported(entries, f, a)
    ensures exists e :: e in entries && e.fixtureId == f && PointsTo(Persisted(tree, entries).0, a, e)
                        && a.manifest.score == e.score && a.manifest.ranAt == e.ranAt
  {
    var e :| e in entries && e.fixtureId == f && ManifestOf(Placed(entries, e)).Ok? && a == Reported(entries, e);
    ListedImagesAreOwn(c, listing, tree, entries, e);
    ReportedTellsInput(entries, e);
  }

  lemma ReportedTellsInput(entries: seq<Input>, e: Input)
    requires ManifestOf(Placed(entries, e)).Ok?
    ensures Reported(entries, e).manifest.score == e.score && Reported(entries, e).manifest.ranAt == e.ranAt
  {
  }
}
