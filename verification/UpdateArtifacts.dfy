/** The artifacts an update leaves behind, as a diff finds them: the row of a written score can be
    computed exactly when its screen can be read. */
module UpdateArtifacts {
  import opened Basics
  import opened StableSort
  import opened Ids
  import opened ScreenIdCodec
  import opened ScoreKeys
  import opened ScoreMerge
  import opened Canonical
  import opened ArtifactTree
  import opened ArtifactReading
  import opened BaselineStore
  import opened BaselineDiff
  import opened BaselinePlan
  import opened Baseline
  import opened BaselineRuns

  // ---- Where a write lands ---------------------------------------------------------------------

  /** The directory of a write: the screen's or viewport's, or the root for the one image of a
      single-screen fixture. */
  function WriteDir(w: Write): Path {
    Directory(w.fixtureId, if w.multiScreen || NonBlank(w.result.viewportId).Some? then NonBlank(Some(w.screen.screenId)) else None,
              NonBlank(w.result.viewportId))
  }

  /** A write of a single-screen fixture has its manifest in place. */
  predicate Traced(tree: Tree, w: Write) {
    w.multiScreen || WriteDir(w) in tree.manifests
  }

  lemma WriteResolves(catalog: Catalog, w: Write, runAt: string)
    requires ValidCatalog(catalog) && Enumerated(catalog, w)
    requires var i := InputOf(w, runAt); ArtifactDir(i.fixtureId, i.screenId, i.viewportId).Ok?
    ensures var i := InputOf(w, runAt); ArtifactDir(i.fixtureId, i.screenId, i.viewportId).value == WriteDir(w)
  {
    var i := InputOf(w, runAt);
    NonBlankFacts(w.result.viewportId);
    TrimmedIdsAreKept(i.screenId, i.viewportId);
  }

  /** Writes of a single-screen fixture go to the root or to a viewport, others below a screen. */
  lemma WriteDirShapes(catalog: Catalog, w: Write, runAt: string)
    requires ValidCatalog(catalog) && Enumerated(catalog, w)
    requires var i := InputOf(w, runAt); ArtifactDir(i.fixtureId, i.screenId, i.viewportId).Ok?
    ensures var i := InputOf(w, runAt);
            var dir := ArtifactDir(i.fixtureId, i.screenId, i.viewportId).value;
            && dir != [] && dir[0] == w.fixtureId
            && (w.multiScreen ==> 3 <= |dir| <= 4)
            && (!w.multiScreen ==> dir == WriteDir(w) && (|dir| == 1 || (|dir| == 4 && dir[1] == "screens")))
  {
    assert NonBlank(Some(w.screen.screenId)).Some?;
    WriteResolves(catalog, w, runAt);
  }

  lemma ShortIsNotSuperseded(dir: Path, d: Path)
    requires |d| <= |dir|
    ensures !Superseded(dir, d)
  {
  }

  lemma OtherIsNotSuperseded(dir: Path, d: Path, i: nat)
    requires i < |dir| && i < |d| && dir[i] != d[i]
    ensures !Superseded(dir, d)
  {
    forall x: string
      ensures !(dir + [x] <= d)
    {
      assert (dir + [x])[i] == dir[i];
    }
  }

  lemma ScreensAreNotSuperseded(f: string, d: Path)
    requires |d| == 4 && d[1] == "screens"
    ensures !Superseded([f], d)
  {
    assert ([f] + ["browsers"])[1] == "browsers" && ([f] + ["pairwise"])[1] == "pairwise";
  }

  /** A later write of the same update removes no trace. */
  lemma TraceIsKept(catalog: Catalog, tree: Tree, w: Write, next: Write, runAt: string)
    requires ValidCatalog(catalog) && Enumerated(catalog, w) && Enumerated(catalog, next)
    requires Traced(tree, w) && Saved(tree, InputOf(next, runAt)).Ok?
    ensures Traced(Saved(tree, InputOf(next, runAt)).value, w)
  {
    if !w.multiScreen {
      var i := InputOf(next, runAt);
      var dir, d := ArtifactDir(i.fixtureId, i.screenId, i.viewportId).value, WriteDir(w);
      WriteDirShapes(catalog, next, runAt);
      if |d| <= |dir| {
        ShortIsNotSuperseded(dir, d);
      } else if next.fixtureId != w.fixtureId {
        OtherIsNotSuperseded(dir, d, 0);
      } else {
        assert dir == [w.fixtureId];
        ScreensAreNotSuperseded(w.fixtureId, d);
      }
    }
  }

  lemma NewTrace(catalog: Catalog, tree: Tree, w: Write, runAt: string)
    requires ValidCatalog(catalog) && Enumerated(catalog, w) && Saved(tree, InputOf(w, runAt)).Ok?
    ensures Traced(Saved(tree, InputOf(w, runAt)).value, w)
  {
    if !w.multiScreen {
      WriteDirShapes(catalog, w, runAt);
    }
  }

  predicate AllTraced(tree: Tree, writes: seq<Write>) {
    forall w :: w in writes ==> Traced(tree, w)
  }

  ghost predicate AllEnumerated(catalog: Catalog, writes: seq<Write>) {
    forall w :: w in writes ==> Enumerated(catalog, w)
  }

  lemma AllSnoc(catalog: Catalog, tree: Tree, writes: seq<Write>)
    requires writes != []
    ensures var init, last := writes[..|writes| - 1], writes[|writes| - 1];
            && (AllEnumerated(catalog, writes) <==> AllEnumerated(catalog, init) && Enumerated(catalog, last))
            && (AllTraced(tree, writes) <==> AllTraced(tree, init) && Traced(tree, last))
  {
    assert writes == writes[..|writes| - 1] + [writes[|writes| - 1]];
  }

  lemma NextIsTraced(catalog: Catalog, isPng: nat -> bool, before: Tree, init: seq<Write>, last: Write, runAt: string)
    requires ValidCatalog(catalog) && AllEnumerated(catalog, init) && Enumerated(catalog, last)
    requires AllTraced(before, init) && SavedNext(isPng, (before, true), last, runAt).1
    ensures AllTraced(SavedNext(isPng, (before, true), last, runAt).0, init)
    ensures Traced(SavedNext(isPng, (before, true), last, runAt).0, last)
  {
    NewTrace(catalog, before, last, runAt);
    forall w | w in init
      ensures Traced(Saved(before, InputOf(last, runAt)).value, w)
    {
      TraceIsKept(catalog, before, w, last, runAt);
    }
  }

  /** After a completed run every write has left its trace. */
  lemma {:induction false} WritesAreTraced(catalog: Catalog, isPng: nat -> bool, tree: Tree, writes: seq<Write>, runAt: string)
    requires ValidCatalog(catalog) && AllEnumerated(catalog, writes)
    requires SaveWrites(isPng, tree, writes, runAt).1
    ensures AllTraced(SaveWrites(isPng, tree, writes, runAt).0, writes)
  {
    if writes != [] {
      var init, last := writes[..|writes| - 1], writes[|writes| - 1];
      AllSnoc(catalog, SaveWrites(isPng, tree, writes, runAt).0, writes);
      WritesAreTraced(catalog, isPng, tree, init, runAt);
      NextIsTraced(catalog, isPng, SaveWrites(isPng, tree, init, runAt).0, init, last, runAt);
    }
  }

  // ---- A trace can be found --------------------------------------------------------------------

  lemma {:induction false} CollectedIsThere(tree: Tree, f: string, screenId: Option<string>, names: seq<string>, v: string)
    requires Collected(tree, f, screenId, names).Ok? && v in names
    requires ArtifactDir(f, screenId, Some(v)).Ok? && ArtifactDir(f, screenId, Some(v)).value in tree.manifests
    ensures Collected(tree, f, screenId, names).value != []
  {
    if names[|names| - 1] != v {
      var init := names[..|names| - 1];
      assert names == init + [names[|names| - 1]];
      CollectedIsThere(tree, f, screenId, init, v);
    }
  }

  lemma SortIsInhabited(c: Collation, found: seq<Artifact>)
    requires found != []
    ensures Sort(ViewportOrder(c), found) != []
  {
  }

  /** A screen with a viewport artifact never loads as empty. */
  lemma ViewportIsFound(c: Collation, listing: Listing, tree: Tree, f: string, screenId: string, v: string)
    requires FixtureId(f) == Ok(f) && NonBlank(Some(screenId)).Some? && NonBlank(Some(v)) == Some(v)
    requires Directory(f, NonBlank(Some(screenId)), Some(v)) in tree.manifests
    ensures LoadedScreen(c, listing, tree, f, screenId) != Ok([])
  {
    var r := LoadedScreen(c, listing, tree, f, screenId);
    if r.Ok? {
      TrimmedIdsAreKept(Some(screenId), Some(v));
      var dir := ArtifactDir(f, Some(screenId), None).value;
      var d := Directory(f, NonBlank(Some(screenId)), Some(v));
      assert d == dir + [v];
      if dir !in tree.manifests {
        var names := listing(ChildDirs(tree, dir));
        assert v in ChildDirs(tree, dir) by {
          ChildIsShown(tree, dir, v);
          assert Shows(tree, dir, v, d);
        }
        CollectedExactly(tree, f, Some(screenId), names);
        assert v in names;
        assert ArtifactDir(f, Some(screenId), Some(v)) == Ok(d);
        CollectedIsThere(tree, f, Some(screenId), names, v);
        SortIsInhabited(c, Collected(tree, f, Some(screenId), names).value);
      }
    }
  }

  /** What was written can be loaded again exactly when its screen can be read. */
  lemma TracedLoadsExactly(e: Setting, tree: Tree, w: Write)
    requires ValidCatalog(e.catalog) && Enumerated(e.catalog, w) && Traced(tree, w)
    ensures ArtifactsForScreen(e.c, e.listing, tree, w.fixtureId, w.screen.screenId, |EnumerateScreens(e.catalog[w.fixtureId])|).Ok?
        <==> ScreenReadable(tree, w.fixtureId, w.screen.screenId)
  {
    var f, s := w.fixtureId, w.screen.screenId;
    ArtifactsLoadExactly(e.c, e.listing, tree, f, s, |EnumerateScreens(e.catalog[f])|);
    if !w.multiScreen && NonBlank(w.result.viewportId).Some? {
      NonBlankFacts(w.result.viewportId);
      var v := NonBlank(w.result.viewportId).value;
      TrimFacts(v);
      assert NonBlank(Some(s)).Some?;
      ViewportIsFound(e.c, e.listing, tree, f, s, v);
    }
  }

  // ---- The rows of written scores --------------------------------------------------------------

  /** The diff loads the artifacts of the screen the stored entry names. */
  lemma EntryReadsItsScreen(e: Setting, tree: Tree, entry: ScoreEntry, screen: Screen)
    requires ValidCatalog(e.catalog) && entry.fixtureId in e.catalog && screen in EnumerateScreens(e.catalog[entry.fixtureId])
    requires NonBlank(entry.screenId) == NonBlank(Some(screen.screenId))
    ensures EntryArtifacts(e, tree, entry)
         == ArtifactsForScreen(e.c, e.listing, tree, entry.fixtureId, screen.screenId, |EnumerateScreens(e.catalog[entry.fixtureId])|)
  {
    var m := e.catalog[entry.fixtureId];
    assert NonBlank(Some(screen.screenId)).Some?;
    ResolvedScreenIsNamed(entry.fixtureId, entry.screenId, EnumerateScreens(m), screen);
    ScreensAreReadTrimmed(e.c, e.listing, tree, entry.fixtureId, ResolvedScreenId(entry.fixtureId, entry.screenId, m), screen.screenId);
  }

  lemma StoredReadsItsScreen(e: Setting, tree: Tree, w: ScoreEntry, screen: Screen)
    requires ValidCatalog(e.catalog) && w.fixtureId in e.catalog && screen in EnumerateScreens(e.catalog[w.fixtureId])
    requires NonBlank(w.screenId) == NonBlank(Some(screen.screenId))
    ensures Stored(e.catalog, w).fixtureId == w.fixtureId
    ensures EntryArtifacts(e, tree, Stored(e.catalog, w))
         == ArtifactsForScreen(e.c, e.listing, tree, w.fixtureId, screen.screenId, |EnumerateScreens(e.catalog[w.fixtureId])|)
  {
    assert NonBlank(Some(screen.screenId)).Some?;
    StoredKeepsKey(e.catalog, w);
    NonBlankFacts(w.screenId);
    EntryReadsItsScreen(e, tree, Stored(e.catalog, w), screen);
  }

  /** The screen of a written score can be read. */
  predicate Readable(tree: Tree, w: ScoreEntry) {
    w.screenId.Some? && ScreenReadable(tree, w.fixtureId, w.screenId.value)
  }

  /** After an update, the row of a score it wrote exists exactly when its screen can be read. */
  lemma WrittenIsDiffableExactly(e: Setting, s: Stores, tree: Tree, f: Option<string>, screenId: Option<string>,
                                 execute: string -> Result<Execution>, runAt: string, outcome: Outcome, w: ScoreEntry)
    requires ValidCatalog(e.catalog) && outcome == Updated(e, s, tree, f, screenId, execute, runAt)
    requires outcome.scores.Ok? && w in outcome.scores.value
    ensures Diffable(e, outcome.tree, Stored(e.catalog, w)) <==> Readable(outcome.tree, w)
  {
    var writes := UpdateRun(e, tree, f, screenId, execute, runAt).1.value;
    RunFollowsPlan(e, tree, Targets(e, f), screenId, execute, runAt);
    PlanMembers(e.catalog, Targets(e, f), screenId, execute);
    WritesAreTraced(e.catalog, e.isPng, tree, writes, runAt);
    ScoreMembers(writes);
    var write :| write in writes && w == ScoreOf(write);
    TracedLoadsExactly(e, outcome.tree, write);
    StoredReadsItsScreen(e, outcome.tree, w, write.screen);
  }

  /** The rows of approved scores always exist: the approval loaded the same artifacts. */
  lemma {:induction false} ApprovedIsDiffable(e: Setting, tree: Tree, baseline: seq<ScoreEntry>, f: string, screens: seq<Screen>, w: ScoreEntry)
    requires ValidCatalog(e.catalog) && f in e.catalog && forall s :: s in screens ==> s in EnumerateScreens(e.catalog[f])
    requires var r := Approved(e, tree, baseline, f, screens, |EnumerateScreens(e.catalog[f])|); r.Ok? && w in r.value.scores
    ensures Diffable(e, tree, Stored(e.catalog, w))
  {
    if screens != [] {
      var all := |EnumerateScreens(e.catalog[f])|;
      var init, last := screens[..|screens| - 1], screens[|screens| - 1];
      assert last in screens && forall s :: s in init ==> s in screens;
      var before := Approved(e, tree, baseline, f, init, all).value;
      if w in before.scores {
        ApprovedIsDiffable(e, tree, baseline, f, init, w);
      } else {
        NewApprovedScore(baseline, before, f, last, TakenArtifacts(e, tree, f, last, all).value, w);
        NonBlankFacts(Some(last.screenId));
        StoredReadsItsScreen(e, tree, w, last);
      }
    }
  }

  lemma {:induction false} NewApprovedScore(
      baseline: seq<ScoreEntry>, before: Approval, f: string, screen: Screen, artifacts: seq<Artifact>, w: ScoreEntry)
    requires w in WithArtifacts(baseline, before, f, screen, artifacts).scores && w !in before.scores
    ensures w.fixtureId == f && w.screenId == Some(screen.screenId)
  {
    if artifacts != [] {
      var init := artifacts[..|artifacts| - 1];
      if w in WithArtifacts(baseline, before, f, screen, init).scores {
        NewApprovedScore(baseline, before, f, screen, init, w);
      }
    }
  }

  // ---- Tidy trees ------------------------------------------------------------------------------

  lemma NextKeepsTidy(isPng: nat -> bool, state: (Tree, bool), w: Write, runAt: string)
    requires Tidy(state.0)
    ensures Tidy(SavedNext(isPng, state, w, runAt).0)
  {
    if Saved(state.0, InputOf(w, runAt)).Ok? {
      SavesKeepTidy(state.0, InputOf(w, runAt));
    }
  }

  /** Nothing an update saves, whether it completes or not, makes a tidy tree untidy. */
  lemma {:induction false} WritesKeepTidy(isPng: nat -> bool, tree: Tree, writes: seq<Write>, runAt: string)
    requires Tidy(tree)
    ensures Tidy(SaveWrites(isPng, tree, writes, runAt).0)
  {
    if writes != [] {
      var init, last := writes[..|writes| - 1], writes[|writes| - 1];
      WritesKeepTidy(isPng, tree, init, runAt);
      NextKeepsTidy(isPng, SaveWrites(isPng, tree, init, runAt), last, runAt);
    }
  }

  lemma {:induction false} RunsKeepTidy(e: Setting, tree: Tree, targets: seq<string>, screenId: Option<string>,
                                        execute: string -> Result<Execution>, runAt: string)
    requires Tidy(tree)
    ensures Tidy(RunFixtures(e, tree, targets, screenId, execute, runAt).0)
  {
    if targets != [] {
      var init := targets[..|targets| - 1];
      RunsKeepTidy(e, tree, init, screenId, execute, runAt);
      var writes := PlanFixture(e.catalog, targets[|targets| - 1], screenId, execute);
      if writes.Ok? {
        WritesKeepTidy(e.isPng, RunFixtures(e, tree, init, screenId, execute, runAt).0, writes.value, runAt);
      }
    }
  }

  /** Over any run of commands, a tree in which only saves have written stays tidy. */
  lemma {:induction false} CommandsKeepTidy(e: Setting, s: Stores, tree: Tree, commands: seq<Command>)
    requires Tidy(tree)
    ensures Tidy(RunCommands(e, s, tree, commands).1)
  {
    if commands != [] {
      var init, last := commands[..|commands| - 1], commands[|commands| - 1];
      CommandsKeepTidy(e, s, tree, init);
      var treeBefore := RunCommands(e, s, tree, init).1;
      if last.Update? {
        RunsKeepTidy(e, treeBefore, Targets(e, last.fixtureId), last.screenId, last.execute, last.runAt);
      }
    }
  }
}
