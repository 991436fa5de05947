/** What a diff shows right after a command: whether it can be computed, and whether the scores just
    written are neutral in it. */
module CommandDiffs {
  import opened Basics
  import opened StableSort
  import opened Ids
  import opened ScoreKeys
  import opened ScoreMerge
  import opened Canonical
  import opened ArtifactTree
  import opened ArtifactReading
  import opened BaselineStore
  import opened BaselineDiff
  import opened BaselinePlan
  import opened Baseline
  import opened BaselineRuns
  import opened UpdateArtifacts

  // ---- Written scores are held once, exactly ---------------------------------------------------

  /** Baseline and last run each hold the written entry, and nothing else, at its key. */
  ghost predicate HeldOnce(e: Setting, after: Stores, w: ScoreEntry) {
    && Loadable(e.c, e.catalog, after)
    && Filter(KeyIs(KeyOf(w)), LoadedBaseline(e.c, e.catalog, after.baseline).value) == [Stored(e.catalog, w)]
    && Filter(KeyIs(KeyOf(w)), LoadedLastRun(e.c, after.lastRun).value) == [Stored(e.catalog, w)]
  }

  /** No stored entry of another fixture shares the entry's key. */
  ghost predicate Unshared(stored: seq<ScoreEntry>, f: string, w: ScoreEntry) {
    forall e :: e in stored && e.fixtureId != f ==> KeyOf(e) != KeyOf(w)
  }

  /** When a command leaves w alone at its key: always when it merges key by key, and when it replaces
      a whole fixture, if no other fixture shares the key in either store. */
  ghost predicate KeyIsOwn(e: Setting, s: Stores, scope: Scope, w: ScoreEntry)
    requires Loadable(e.c, e.catalog, s)
  {
    scope.Fixture? && scope.replaceAllScreens ==>
      && Unshared(LoadedBaseline(e.c, e.catalog, s.baseline).value, NormalFixture(scope.fixtureId), w)
      && Unshared(LoadedLastRun(e.c, s.lastRun).value, NormalFixture(scope.fixtureId), w)
  }

  lemma KeptIsFreeExactly(stored: seq<ScoreEntry>, written: seq<ScoreEntry>, scope: Scope, w: ScoreEntry)
    requires w in written
    ensures KeyIsFree(Kept(stored, written, scope), KeyOf(w))
        <==> (scope.Fixture? && scope.replaceAllScreens ==> Unshared(stored, NormalFixture(scope.fixtureId), w))
  {
    if scope.Fixture? && scope.replaceAllScreens {
      FilterMembers(FixtureOutside(NormalFixture(scope.fixtureId)), stored);
    } else {
      KeyedScopesAreFresh(stored, written, scope);
    }
  }

  lemma CommitHoldsOnceExactly(e: Setting, s: Stores, written: seq<ScoreEntry>, scope: Scope, after: Stores, w: ScoreEntry)
    requires Loadable(e.c, e.catalog, s) && AllComplete(written) && UniqueKeys(written) && w in written
    requires BothCommitted(e.c, e.catalog, s, written, scope, after)
    ensures HeldOnce(e, after, w) <==> KeyIsOwn(e, s, scope, w)
  {
    var b, l := LoadedBaseline(e.c, e.catalog, s.baseline).value, LoadedLastRun(e.c, s.lastRun).value;
    LoadsAreComplete(e.c, e.catalog, s);
    CommittedStoresReload(e.c, e.catalog, s, written, scope, after);
    WrittenOnceExactly(e.c, e.catalog, b, written, scope, w);
    WrittenOnceExactly(e.c, e.catalog, l, written, scope, w);
    KeptIsFreeExactly(b, written, scope, w);
    KeptIsFreeExactly(l, written, scope, w);
  }

  /** An entry held once is neutral in the diff. */
  lemma HeldOnceIsNeutral(e: Setting, after: Stores, w: ScoreEntry)
    requires ValidCatalog(e.catalog) && FromCatalog(e.catalog, w) && e.tolerance >= 0.0 && HeldOnce(e, after, w)
    ensures Stored(e.catalog, w) in LoadedLastRun(e.c, after.lastRun).value && Stored(e.catalog, w).score == w.score
    ensures IsNeutralAt(e.catalog, LoadedBaseline(e.c, e.catalog, after.baseline).value, e.tolerance, Stored(e.catalog, w))
  {
    var l := LoadedLastRun(e.c, after.lastRun).value;
    FilterMembers(KeyIs(KeyOf(w)), l);
    assert Stored(e.catalog, w) in Filter(KeyIs(KeyOf(w)), l);
    WrittenRowIsNeutral(e.catalog, LoadedBaseline(e.c, e.catalog, after.baseline).value, e.tolerance, w);
  }

  /** An update leaves each entry it wrote alone at its key, in both stores, exactly when the key is the
      fixture's own. */
  lemma UpdateHoldsOnceExactly(e: Setting, s: Stores, tree: Tree, f: Option<string>, screenId: Option<string>,
                               execute: string -> Result<Execution>, runAt: string, outcome: Outcome, w: ScoreEntry)
    requires ValidCatalog(e.catalog) && Loadable(e.c, e.catalog, s)
    requires outcome == Updated(e, s, tree, f, screenId, execute, runAt)
    requires outcome.scores.Ok? && UniqueKeys(outcome.scores.value) && w in outcome.scores.value
    ensures FromCatalog(e.catalog, w)
    ensures HeldOnce(e, outcome.stores, w) <==> KeyIsOwn(e, s, UpdateScope(e.catalog, f, screenId), w)
  {
    UpdateSucceedsExactly(e, s, tree, f, screenId, execute, runAt);
    UpdateCommits(e, s, tree, f, screenId, execute, runAt);
    CommitHoldsOnceExactly(e, s, outcome.scores.value, UpdateScope(e.catalog, f, screenId), outcome.stores, w);
  }

  /** So does an approval. */
  lemma ApprovalHoldsOnceExactly(e: Setting, s: Stores, tree: Tree, target: string, screenId: Option<string>,
                                 after: Stores, approval: Approval, w: ScoreEntry)
    requires ValidCatalog(e.catalog) && Loadable(e.c, e.catalog, s)
    requires ApprovedStores(e, s, tree, target, screenId) == (after, Ok(approval))
    requires UniqueKeys(approval.scores) && w in approval.scores
    ensures FromCatalog(e.catalog, w)
    ensures HeldOnce(e, after, w) <==> KeyIsOwn(e, s, ApproveScope(e.catalog, NormalFixture(target), screenId), w)
  {
    ApprovalCommits(e, s, tree, target, screenId);
    CollectionFacts(e, tree, LoadedBaseline(e.c, e.catalog, s.baseline).value, target, screenId);
    CommitHoldsOnceExactly(e, s, approval.scores, ApproveScope(e.catalog, NormalFixture(target), screenId), after, w);
  }

  /** The entries an update wrote under their own keys are neutral in the diff. */
  lemma UpdateIsNeutral(e: Setting, s: Stores, tree: Tree, f: Option<string>, screenId: Option<string>,
                        execute: string -> Result<Execution>, runAt: string, outcome: Outcome, w: ScoreEntry)
    requires ValidCatalog(e.catalog) && Loadable(e.c, e.catalog, s) && e.tolerance >= 0.0
    requires outcome == Updated(e, s, tree, f, screenId, execute, runAt)
    requires outcome.scores.Ok? && UniqueKeys(outcome.scores.value) && w in outcome.scores.value
    requires KeyIsOwn(e, s, UpdateScope(e.catalog, f, screenId), w)
    ensures Loadable(e.c, e.catalog, outcome.stores)
    ensures Stored(e.catalog, w) in LoadedLastRun(e.c, outcome.stores.lastRun).value && Stored(e.catalog, w).score == w.score
    ensures IsNeutralAt(e.catalog, LoadedBaseline(e.c, e.catalog, outcome.stores.baseline).value, e.tolerance, Stored(e.catalog, w))
  {
    UpdateHoldsOnceExactly(e, s, tree, f, screenId, execute, runAt, outcome, w);
    HeldOnceIsNeutral(e, outcome.stores, w);
  }

  /** So are those an approval wrote. */
  lemma ApprovalIsNeutral(e: Setting, s: Stores, tree: Tree, target: string, screenId: Option<string>,
                          after: Stores, approval: Approval, w: ScoreEntry)
    requires ValidCatalog(e.catalog) && Loadable(e.c, e.catalog, s) && e.tolerance >= 0.0
    requires ApprovedStores(e, s, tree, target, screenId) == (after, Ok(approval))
    requires UniqueKeys(approval.scores) && w in approval.scores
    requires KeyIsOwn(e, s, ApproveScope(e.catalog, NormalFixture(target), screenId), w)
    ensures Loadable(e.c, e.catalog, after)
    ensures Stored(e.catalog, w) in LoadedLastRun(e.c, after.lastRun).value && Stored(e.catalog, w).score == w.score
    ensures IsNeutralAt(e.catalog, LoadedBaseline(e.c, e.catalog, after.baseline).value, e.tolerance, Stored(e.catalog, w))
  {
    ApprovalHoldsOnceExactly(e, s, tree, target, screenId, after, approval, w);
    HeldOnceIsNeutral(e, after, w);
  }

  // ---- Shared keys -----------------------------------------------------------------------------

  lemma SharedKeyCollides(e: ScoreEntry, w: ScoreEntry)
    requires KeyOf(e) == KeyOf(w)
    ensures Collide(e.fixtureId, w.fixtureId)
  {
  }

  /** Fixtures whose ids do not continue each other never share a key. */
  lemma ApartFixturesAreUnshared(stored: seq<ScoreEntry>, f: string, w: ScoreEntry)
    requires FixtureId(f) == Ok(f) && w.fixtureId == f
    requires forall e :: e in stored ==> FixtureId(e.fixtureId) == Ok(e.fixtureId)
    requires forall e :: e in stored ==> !Continues(e.fixtureId, f) && !Continues(f, e.fixtureId)
    ensures Unshared(stored, f, w)
  {
    forall e | e in stored && e.fixtureId != f && KeyOf(e) == KeyOf(w)
      ensures false
    {
      SharedKeyCollides(e, w);
      CollisionsAreExactlyContinuations(e.fixtureId, f);
    }
  }

  /** Two entries at one key are compared with the same baseline score, so when their scores are far
      apart one of them is not neutral, whatever the baseline holds. */
  lemma SharedKeysAreNotBothNeutral(catalog: Catalog, baseline: seq<ScoreEntry>, tolerance: real, x: ScoreEntry, w: ScoreEntry)
    requires FromCatalog(catalog, x) && FromCatalog(catalog, w) && KeyOf(x) == KeyOf(w)
    requires Abs(x.score - w.score) > 2.0 * tolerance + 0.01
    requires LastAt(baseline, KeyOf(w)).Some?
    ensures ScoreRow(catalog, baseline, tolerance, x, None).indicator != Neutral
         || ScoreRow(catalog, baseline, tolerance, w, None).indicator != Neutral
  {
    ResolutionKeepsKey(catalog, x);
    ResolutionKeepsKey(catalog, w);
    var b := LastAt(baseline, KeyOf(w)).value;
    RoundingBounds(x.score - b);
    RoundingBounds(w.score - b);
  }

  lemma LoneArtifactsDoNotMatter(catalog: Catalog, baseline: seq<ScoreEntry>, tolerance: real, entry: ScoreEntry, a: Option<Artifact>)
    requires entry.fixtureId in catalog
    ensures ScoreRow(catalog, baseline, tolerance, entry, a).indicator == ScoreRow(catalog, baseline, tolerance, entry, None).indicator
  {
  }

  /** Every entry of a diff has its row. */
  lemma {:induction false} EntryHasRow(e: Setting, tree: Tree, baseline: seq<ScoreEntry>, scores: seq<ScoreEntry>, entry: ScoreEntry)
    requires DiffRows(e, tree, baseline, scores).Ok? && entry in scores
    ensures DiffRow(e, tree, baseline, entry).Ok? && DiffRow(e, tree, baseline, entry).value in DiffRows(e, tree, baseline, scores).value
    decreases |scores|
  {
    var init, last := scores[..|scores| - 1], scores[|scores| - 1];
    assert scores == init + [last];
    RowsSnoc(e, tree, baseline, init, last);
    if entry != last {
      EntryHasRow(e, tree, baseline, init, entry);
    }
  }

  lemma CommittedMembers(c: Collation, catalog: Catalog, stored: seq<ScoreEntry>, written: seq<ScoreEntry>, scope: Scope)
    requires Committed(c, catalog, stored, written, scope).Ok? && AllComplete(stored) && AllComplete(written)
    ensures forall x :: x in Kept(stored, written, scope) || x in written
              ==> Stored(catalog, x) in Committed(c, catalog, stored, written, scope).value
  {
    var all := Kept(stored, written, scope) + written;
    CommittedIsKeptPlusWritten(c, catalog, stored, written, scope);
    KeptIsComplete(stored, written, scope);
    EntryOrderIsTotal(c);
    SortFacts(EntryOrder(c), all);
    SavedIsStored(c, catalog, SortScores(c, all));
    StoredMembers(catalog, SortScores(c, all));
    SortFacts(EntryOrder(c), StoredAll(catalog, SortScores(c, all)));
  }

  lemma HeldHasLast(scores: seq<ScoreEntry>, entry: ScoreEntry)
    requires entry in scores
    ensures LastAt(scores, KeyOf(entry)).Some?
  {
    LastAtIsLastFiltered(scores, KeyOf(entry));
    FilterMembers(KeyIs(KeyOf(entry)), scores);
    assert entry in Filter(KeyIs(KeyOf(entry)), scores);
  }

  /** Two entries at one key, their scores further apart than one baseline score could excuse. */
  ghost predicate FarApart(e: Setting, x: ScoreEntry, w: ScoreEntry) {
    FromCatalog(e.catalog, x) && FromCatalog(e.catalog, w) && KeyOf(x) == KeyOf(w) && Abs(x.score - w.score) > 2.0 * e.tolerance + 0.01
  }

  lemma FarEntriesArePending(e: Setting, tree: Tree, baseline: seq<ScoreEntry>, scores: seq<ScoreEntry>, x: ScoreEntry, w: ScoreEntry)
    requires x in scores && w in scores && FarApart(e, x, w) && LastAt(baseline, KeyOf(w)).Some?
    requires DiffRows(e, tree, baseline, scores).Ok?
    ensures Pending(DiffRows(e, tree, baseline, scores).value)
  {
    SharedKeysAreNotBothNeutral(e.catalog, baseline, e.tolerance, x, w);
    EntryHasRow(e, tree, baseline, scores, x);
    EntryHasRow(e, tree, baseline, scores, w);
    LoneArtifactsDoNotMatter(e.catalog, baseline, e.tolerance, x, DiffRow(e, tree, baseline, x).value.artifact);
    LoneArtifactsDoNotMatter(e.catalog, baseline, e.tolerance, w, DiffRow(e, tree, baseline, w).value.artifact);
  }

  lemma WholeDiffIsPending(e: Setting, s: Stores, tree: Tree, x: ScoreEntry, w: ScoreEntry)
    requires Loadable(e.c, e.catalog, s) && FarApart(e, x, w)
    requires x in LoadedLastRun(e.c, s.lastRun).value && w in LoadedLastRun(e.c, s.lastRun).value
    requires LastAt(LoadedBaseline(e.c, e.catalog, s.baseline).value, KeyOf(w)).Some?
    ensures Diffed(e, s, tree, None, None).Ok? ==> Pending(Diffed(e, s, tree, None, None).value)
  {
    WholeDiff(e, s, tree);
    if Diffed(e, s, tree, None, None).Ok? {
      FarEntriesArePending(e, tree, LoadedBaseline(e.c, e.catalog, s.baseline).value, LoadedLastRun(e.c, s.lastRun).value, x, w);
    }
  }

  lemma CommitHoldsBoth(e: Setting, s: Stores, written: seq<ScoreEntry>, scope: Scope, after: Stores, x: ScoreEntry, w: ScoreEntry)
    requires Loadable(e.c, e.catalog, s) && AllComplete(written) && w in written
    requires BothCommitted(e.c, e.catalog, s, written, scope, after) && x in Kept(LoadedLastRun(e.c, s.lastRun).value, written, scope)
    ensures Loadable(e.c, e.catalog, after)
    ensures Stored(e.catalog, x) in LoadedLastRun(e.c, after.lastRun).value && Stored(e.catalog, w) in LoadedLastRun(e.c, after.lastRun).value
    ensures LastAt(LoadedBaseline(e.c, e.catalog, after.baseline).value, KeyOf(Stored(e.catalog, w))).Some?
  {
    var b, l := LoadedBaseline(e.c, e.catalog, s.baseline).value, LoadedLastRun(e.c, s.lastRun).value;
    LoadsAreComplete(e.c, e.catalog, s);
    CommittedStoresReload(e.c, e.catalog, s, written, scope, after);
    CommittedMembers(e.c, e.catalog, b, written, scope);
    CommittedMembers(e.c, e.catalog, l, written, scope);
    HeldHasLast(Committed(e.c, e.catalog, b, written, scope).value, Stored(e.catalog, w));
  }

  lemma KeptOutside(stored: seq<ScoreEntry>, written: seq<ScoreEntry>, f: string, x: ScoreEntry)
    requires x in stored && x.fixtureId != NormalFixture(f)
    ensures x in Kept(stored, written, Fixture(f, true))
  {
    FilterMembers(FixtureOutside(NormalFixture(f)), stored);
  }

  lemma StoredKeepsScore(catalog: Catalog, w: ScoreEntry)
    requires ValidCatalog(catalog) && FromCatalog(catalog, w)
    ensures FromCatalog(catalog, Stored(catalog, w)) && KeyOf(Stored(catalog, w)) == KeyOf(w) && Stored(catalog, w).score == w.score
  {
    FromCatalogIsComplete(catalog, w);
    StoredIsFromCatalog(catalog, w);
    StoredKeepsKey(catalog, w);
  }

  lemma StoredStayFar(e: Setting, x: ScoreEntry, w: ScoreEntry)
    requires ValidCatalog(e.catalog) && FarApart(e, x, w)
    ensures FarApart(e, Stored(e.catalog, x), Stored(e.catalog, w))
  {
    StoredKeepsScore(e.catalog, x);
    StoredKeepsScore(e.catalog, w);
  }

  /** When a command that replaces a fixture writes a score far from one that another fixture holds at
      the same key, no whole diff of the stores it leaves is clean. */
  lemma SharedKeyStaysPending(e: Setting, s: Stores, written: seq<ScoreEntry>, f: string, after: Stores, tree: Tree, x: ScoreEntry, w: ScoreEntry)
    requires ValidCatalog(e.catalog) && Loadable(e.c, e.catalog, s) && AllFromCatalog(e.catalog, written) && w in written
    requires BothCommitted(e.c, e.catalog, s, written, Fixture(f, true), after)
    requires x in LoadedLastRun(e.c, s.lastRun).value && x.fixtureId != NormalFixture(f) && FarApart(e, x, w)
    ensures Diffed(e, after, tree, None, None).Ok? ==> Pending(Diffed(e, after, tree, None, None).value)
  {
    FromCatalogAreComplete(e.catalog, written);
    KeptOutside(LoadedLastRun(e.c, s.lastRun).value, written, f, x);
    CommitHoldsBoth(e, s, written, Fixture(f, true), after, x, w);
    StoredStayFar(e, x, w);
    WholeDiffIsPending(e, after, tree, Stored(e.catalog, x), Stored(e.catalog, w));
  }

  // ---- The diff after an untargeted update -----------------------------------------------------

  lemma UntargetedStores(e: Setting, s: Stores, tree: Tree, execute: string -> Result<Execution>, runAt: string, outcome: Outcome)
    requires ValidCatalog(e.catalog) && e.tolerance >= 0.0
    requires outcome == Updated(e, s, tree, None, None, execute, runAt)
    requires outcome.scores.Ok? && UniqueKeys(outcome.scores.value)
    ensures LoadedBaseline(e.c, e.catalog, outcome.stores.baseline) == LoadedLastRun(e.c, outcome.stores.lastRun)
    ensures LoadedLastRun(e.c, outcome.stores.lastRun).Ok?
    ensures var stored := LoadedLastRun(e.c, outcome.stores.lastRun).value;
            && |stored| == |outcome.scores.value|
            && (forall entry :: entry in stored ==> IsNeutralAt(e.catalog, stored, e.tolerance, entry))
            && (forall entry :: entry in stored <==> exists w :: w in outcome.scores.value && entry == Stored(e.catalog, w))
  {
    var written := outcome.scores.value;
    UpdateSucceedsExactly(e, s, tree, None, None, execute, runAt);
    UpdateCommits(e, s, tree, None, None, execute, runAt);
    var b, l := LoadedBaseline(e.c, e.catalog, s.baseline).value, LoadedLastRun(e.c, s.lastRun).value;
    UntargetedCommitIsNeutral(e.c, e.catalog, e.tolerance, b, l, written);
    CommittedStoresReload(e.c, e.catalog, s, written, Everything, outcome.stores);
  }

  lemma WholeDiff(e: Setting, s: Stores, tree: Tree)
    requires LoadedLastRun(e.c, s.lastRun).Ok? && LoadedBaseline(e.c, e.catalog, s.baseline).Ok?
    requires LoadedLastRun(e.c, s.lastRun).value != []
    ensures Diffed(e, s, tree, None, None)
         == DiffRows(e, tree, LoadedBaseline(e.c, e.catalog, s.baseline).value, LoadedLastRun(e.c, s.lastRun).value)
  {
    FilterAll(Selected(None, None), LoadedLastRun(e.c, s.lastRun).value);
  }

  predicate AllReadable(tree: Tree, written: seq<ScoreEntry>) {
    forall w :: w in written ==> Readable(tree, w)
  }

  /** After an untargeted update that scored something under distinct keys, the diff can be computed
      exactly when every screen it wrote can be read; it then has one row per score and nothing is
      pending. */
  lemma UpdateThenDiff(e: Setting, s: Stores, tree: Tree, execute: string -> Result<Execution>, runAt: string, outcome: Outcome)
    requires ValidCatalog(e.catalog) && e.tolerance >= 0.0
    requires outcome == Updated(e, s, tree, None, None, execute, runAt)
    requires outcome.scores.Ok? && outcome.scores.value != [] && UniqueKeys(outcome.scores.value)
    ensures var diff := Diffed(e, outcome.stores, outcome.tree, None, None);
            && (diff.Ok? <==> AllReadable(outcome.tree, outcome.scores.value))
            && (diff.Ok? ==> |diff.value| == |outcome.scores.value| && !Pending(diff.value))
  {
    var written := outcome.scores.value;
    UntargetedStores(e, s, tree, execute, runAt, outcome);
    WholeDiff(e, outcome.stores, outcome.tree);
    var stored := LoadedLastRun(e.c, outcome.stores.lastRun).value;
    RowsExistExactly(e, outcome.tree, stored, stored);
    forall w | w in written
      ensures Diffable(e, outcome.tree, Stored(e.catalog, w)) <==> Readable(outcome.tree, w)
    {
      WrittenIsDiffableExactly(e, s, tree, None, None, execute, runAt, outcome, w);
    }
    StoredAreDiffable(e, outcome.tree, written, stored);
    if DiffRows(e, outcome.tree, stored, stored).Ok? {
      NeutralRows(e, outcome.tree, stored, stored);
    }
  }

  lemma StoredAreDiffable(e: Setting, tree: Tree, written: seq<ScoreEntry>, stored: seq<ScoreEntry>)
    requires forall entry :: entry in stored <==> exists w :: w in written && entry == Stored(e.catalog, w)
    requires forall w :: w in written ==> (Diffable(e, tree, Stored(e.catalog, w)) <==> Readable(tree, w))
    ensures (forall entry :: entry in stored ==> Diffable(e, tree, entry)) <==> AllReadable(tree, written)
  {
    forall w | w in written
      ensures Stored(e.catalog, w) in stored
    {
    }
  }

  predicate AllScreensAllowed(written: seq<ScoreEntry>) {
    forall w :: w in written ==> w.screenId.Some? && ScreenId(w.screenId.value).Ok?
  }

  lemma TidyIsReadable(tree: Tree, w: ScoreEntry)
    requires Tidy(tree) && NonBlank(w.screenId).Some?
    ensures Readable(tree, w) <==> ScreenId(w.screenId.value).Ok?
  {
    TidyScreensAreReadable(tree, w.fixtureId, w.screenId.value);
  }

  /** In a tree that only saves have written, that means: exactly when every screen id is allowed. */
  lemma UpdateThenDiffOnTidyTrees(e: Setting, s: Stores, tree: Tree, execute: string -> Result<Execution>, runAt: string, outcome: Outcome)
    requires ValidCatalog(e.catalog) && e.tolerance >= 0.0 && Tidy(tree)
    requires outcome == Updated(e, s, tree, None, None, execute, runAt)
    requires outcome.scores.Ok? && outcome.scores.value != [] && UniqueKeys(outcome.scores.value)
    ensures Diffed(e, outcome.stores, outcome.tree, None, None).Ok? <==> AllScreensAllowed(outcome.scores.value)
  {
    UpdateThenDiff(e, s, tree, execute, runAt, outcome);
    UpdateKeepsTidy(e, s, tree, execute, runAt);
    UntargetedScoresAreFromCatalog(e, s, tree, execute, runAt, outcome);
    TidyIsReadableExactly(e.catalog, outcome.tree, outcome.scores.value);
  }

  lemma UpdateKeepsTidy(e: Setting, s: Stores, tree: Tree, execute: string -> Result<Execution>, runAt: string)
    requires Tidy(tree)
    ensures Tidy(Updated(e, s, tree, None, None, execute, runAt).tree)
  {
    RunsKeepTidy(e, tree, Targets(e, None), None, execute, runAt);
  }

  lemma UntargetedScoresAreFromCatalog(
      e: Setting, s: Stores, tree: Tree, execute: string -> Result<Execution>, runAt: string, outcome: Outcome)
    requires ValidCatalog(e.catalog) && outcome == Updated(e, s, tree, None, None, execute, runAt) && outcome.scores.Ok?
    ensures AllFromCatalog(e.catalog, outcome.scores.value)
  {
    UpdateSucceedsExactly(e, s, tree, None, None, execute, runAt);
    UpdateCommits(e, s, tree, None, None, execute, runAt);
  }

  lemma TidyIsReadableExactly(catalog: Catalog, tree: Tree, written: seq<ScoreEntry>)
    requires ValidCatalog(catalog) && Tidy(tree) && AllFromCatalog(catalog, written)
    ensures AllReadable(tree, written) <==> AllScreensAllowed(written)
  {
    forall w | w in written
      ensures Readable(tree, w) <==> w.screenId.Some? && ScreenId(w.screenId.value).Ok?
    {
      FromCatalogIsComplete(catalog, w);
      TidyIsReadable(tree, w);
    }
  }

  // ---- Any diff over a tidy tree ---------------------------------------------------------------

  /** The screen an entry resolves to is an allowed one. */
  predicate ResolvesToAllowed(catalog: Catalog, entry: ScoreEntry) {
    entry.fixtureId in catalog && ScreenId(ResolvedScreenId(entry.fixtureId, entry.screenId, catalog[entry.fixtureId])).Ok?
  }

  lemma ResolvedIsNotBlank(catalog: Catalog, entry: ScoreEntry)
    requires ValidCatalog(catalog) && IsCanonical(entry) && entry.fixtureId in catalog
    ensures Trim(ResolvedScreenId(entry.fixtureId, entry.screenId, catalog[entry.fixtureId])) != []
  {
    CanonicalIsComplete(entry);
    NonBlankFacts(entry.screenId);
    TrimFacts(NonBlank(entry.screenId).value);
  }

  lemma TidyRowExistsExactly(e: Setting, tree: Tree, entry: ScoreEntry)
    requires ValidCatalog(e.catalog) && Tidy(tree) && IsCanonical(entry)
    ensures Diffable(e, tree, entry) <==> ResolvesToAllowed(e.catalog, entry)
  {
    if entry.fixtureId in e.catalog {
      var m := e.catalog[entry.fixtureId];
      ResolvedIsNotBlank(e.catalog, entry);
      TidyArtifactsLoadExactly(e.c, e.listing, tree, entry.fixtureId, ResolvedScreenId(entry.fixtureId, entry.screenId, m),
                               |EnumerateScreens(m)|);
    }
  }

  /** Whatever is stored: over a tidy tree a diff can be computed exactly when its target is valid, both
      files load, something is selected, and every selected entry has metadata and an allowed screen. */
  lemma DiffOnTidyTreesExactly(e: Setting, s: Stores, tree: Tree, fixtureId: Option<string>, screenId: Option<string>)
    requires ValidCatalog(e.catalog) && Tidy(tree)
    ensures Diffed(e, s, tree, fixtureId, screenId).Ok? <==>
              (ValidTarget(fixtureId, screenId) && Loadable(e.c, e.catalog, s)
               && var selected := Filter(Selected(fixtureId, screenId), LoadedLastRun(e.c, s.lastRun).value);
                  selected != [] && forall entry :: entry in selected ==> ResolvesToAllowed(e.catalog, entry))
  {
    if Loadable(e.c, e.catalog, s) {
      var l := LoadedLastRun(e.c, s.lastRun).value;
      var selected := Filter(Selected(fixtureId, screenId), l);
      RowsExistExactly(e, tree, LoadedBaseline(e.c, e.catalog, s.baseline).value, selected);
      LoadedLastRunIsCanonical(e.c, s.lastRun);
      FilterMembers(Selected(fixtureId, screenId), l);
      forall entry | entry in selected
        ensures Diffable(e, tree, entry) <==> ResolvesToAllowed(e.catalog, entry)
      {
        TidyRowExistsExactly(e, tree, entry);
      }
    }
  }

  lemma LoadedLastRunIsCanonical(c: Collation, file: Option<seq<ScoreEntry>>)
    requires LoadedLastRun(c, file).Ok?
    ensures forall entry :: entry in LoadedLastRun(c, file).value ==> IsCanonical(entry)
  {
    if file.Some? {
      CanonicalFilesAreStable(c, file.value);
    }
  }
}
