/** What a command does to the score files, entry by entry: what it keeps, what it replaces, and the form and
    order in which entries are stored. */
module StoreChanges {
  import opened Basics
  import opened StableSort
  import opened Ids
  import opened ScoreMerge
  import opened Canonical
  import opened ArtifactTree
  import opened BaselineStore
  import opened BaselineDiff
  import opened BaselinePlan
  import opened Baseline
  import opened BaselineRuns
  import opened UpdateScores

  // ---- Order -----------------------------------------------------------------------------------

  predicate SameScreen(a: ScoreEntry, b: ScoreEntry) {
    a.fixtureId == b.fixtureId && a.screenId.GetOr("") == b.screenId.GetOr("")
  }

  /** In a stored list fixtures come in order, within a fixture its screens, within a screen its viewports,
      and within a viewport the screen names. */
  lemma StoredOrder(c: Collation, scores: seq<ScoreEntry>, i: nat, j: nat)
    requires Sorted(EntryOrder(c), scores) && i < j < |scores|
    ensures var a, b := scores[i], scores[j];
            && c(a.fixtureId, b.fixtureId)
            && (a.fixtureId == b.fixtureId ==> c(a.screenId.GetOr(""), b.screenId.GetOr("")))
            && (SameScreen(a, b) ==> c(a.viewportId.GetOr(""), b.viewportId.GetOr("")))
            && (SameScreen(a, b) && a.viewportId.GetOr("") == b.viewportId.GetOr("") ==> c(a.screenName.GetOr(""), b.screenName.GetOr("")))
  {
    var a, b := scores[i], scores[j];
    assert EntryOrder(c)(a, b);
    assert c(a.fixtureId, a.fixtureId) && c(a.screenId.GetOr(""), a.screenId.GetOr("")) && c(a.viewportId.GetOr(""), a.viewportId.GetOr(""));
  }

  // ---- Form ------------------------------------------------------------------------------------

  /** Storing an entry keeps its key, its score, the names it has and its label. */
  lemma StoredKeepsEntry(catalog: Catalog, e: ScoreEntry)
    requires Complete(e)
    ensures KeyOf(Stored(catalog, e)) == KeyOf(e) && Stored(catalog, e).score == e.score
    ensures Stored(catalog, e).viewportLabel == NonBlank(e.viewportLabel)
    ensures NonBlank(e.screenName).Some? ==> Stored(catalog, e).screenName == NonBlank(e.screenName)
  {
    StoredKeepsKey(catalog, e);
    NonBlankFacts(e.screenName);
    NonBlankFacts(e.viewportLabel);
  }

  /** An entry of an older file that names no screen is given its fixture's source node, or the fixture's own
      id when the fixture is unknown. */
  lemma LegacyEntryIsPlaced(catalog: Catalog, e: ScoreEntry)
    requires FixtureId(e.fixtureId).Ok? && NonBlank(e.screenId).None?
    ensures var f := FixtureId(e.fixtureId).value;
            && (f !in catalog ==> WithMetadata(catalog, e).screenId == Some(f))
            && (f in catalog && FindScreen(catalog[f].screens, f).None? ==> WithMetadata(catalog, e).screenId == Some(catalog[f].sourceNodeId))
    ensures WithMetadata(catalog, e).score == e.score
  {
  }

  lemma {:induction false} CompletedMembers(catalog: Catalog, scores: seq<ScoreEntry>)
    ensures |AllWithMetadata(catalog, scores)| == |scores|
    ensures forall i :: 0 <= i < |scores| ==> AllWithMetadata(catalog, scores)[i] == WithMetadata(catalog, scores[i])
  {
    if scores != [] {
      CompletedMembers(catalog, scores[..|scores| - 1]);
    }
  }

  lemma LoadedMembers(c: Collation, scores: seq<ScoreEntry>)
    requires SortCanonical(c, scores).Ok?
    ensures |SortCanonical(c, scores).value| == |scores|
    ensures forall e :: e in SortCanonical(c, scores).value <==> exists i :: 0 <= i < |scores| && e == Canon(scores[i])
  {
    EntryOrderIsTotal(c);
    SortFacts(EntryOrder(c), CanonAll(scores));
    forall i | 0 <= i < |scores|
      ensures Canon(scores[i]) in CanonAll(scores)
    {
      assert CanonAll(scores)[i] == Canon(scores[i]);
    }
  }

  /** A loaded baseline has one entry for each in the file: as it is, in canonical form, in a current file,
      and completed from the metadata in an older one. */
  lemma BaselineLoadsExactly(c: Collation, catalog: Catalog, file: BaselineFile)
    requires LoadedBaseline(c, catalog, Some(file)).Ok?
    ensures var loaded, current := LoadedBaseline(c, catalog, Some(file)).value, file.version == 3;
            && |loaded| == |file.scores|
            && forall e :: e in loaded <==>
                 exists i :: 0 <= i < |file.scores| && e == if current then Canon(file.scores[i]) else Stored(catalog, file.scores[i])
  {
    if file.version == 3 {
      LoadedMembers(c, file.scores);
    } else {
      CompletedMembers(catalog, file.scores);
      LoadedMembers(c, AllWithMetadata(catalog, file.scores));
    }
  }

  // ---- Contents --------------------------------------------------------------------------------

  /** The command replaces the stored entry: an untargeted update replaces everything, a command for all
      screens of a fixture with several replaces that fixture's entries, any other the keys it wrote. */
  ghost predicate Replaces(
      catalog: Catalog, fixtureId: Option<string>, screenId: Option<string>, written: seq<ScoreEntry>, x: ScoreEntry)
  {
    match fixtureId
    case None => true
    case Some(f) =>
      if screenId.None? && f in catalog && |Declared(catalog[f])| > 1 then x.fixtureId == f
      else exists w :: w in written && KeyOf(w) == KeyOf(x)
  }

  /** The entries the command leaves. */
  ghost function Left(catalog: Catalog, fixtureId: Option<string>, screenId: Option<string>, written: seq<ScoreEntry>, stored: seq<ScoreEntry>)
    : seq<ScoreEntry>
  {
    Filter(x => !Replaces(catalog, fixtureId, screenId, written, x), stored)
  }

  lemma KeptIsLeft(catalog: Catalog, fixtureId: Option<string>, screenId: Option<string>, stored: seq<ScoreEntry>, written: seq<ScoreEntry>)
    requires fixtureId.Some? ==> FixtureId(fixtureId.value) == Ok(fixtureId.value)
    ensures Kept(stored, written, UpdateScope(catalog, fixtureId, screenId)) == Left(catalog, fixtureId, screenId, written, stored)
  {
    var left := x => !Replaces(catalog, fixtureId, screenId, written, x);
    if fixtureId.None? {
      FilterNone(left, stored);
    } else {
      var f := fixtureId.value;
      assert f in catalog ==> EnumerateScreens(catalog[f]) == Declared(catalog[f]);
      if UpdateScope(catalog, fixtureId, screenId).replaceAllScreens {
        SameFilter(FixtureOutside(f), left, stored);
      } else {
        SameFilter(KeyOutside(Keys(written)), left, stored);
      }
    }
  }

  /** The list holds the stored forms of what was kept and of what was written, and nothing else. */
  ghost predicate HoldsExactly(catalog: Catalog, kept: seq<ScoreEntry>, written: seq<ScoreEntry>, after: seq<ScoreEntry>) {
    && |after| == |kept| + |written|
    && forall e :: e in after <==> exists x :: (x in kept || x in written) && e == Stored(catalog, x)
  }

  lemma CommittedExactly(c: Collation, catalog: Catalog, stored: seq<ScoreEntry>, written: seq<ScoreEntry>, scope: Scope)
    requires Committed(c, catalog, stored, written, scope).Ok? && AllComplete(stored) && AllComplete(written)
    ensures HoldsExactly(catalog, Kept(stored, written, scope), written, Committed(c, catalog, stored, written, scope).value)
  {
    var all := Kept(stored, written, scope) + written;
    CommittedIsKeptPlusWritten(c, catalog, stored, written, scope);
    KeptIsComplete(stored, written, scope);
    EntryOrderIsTotal(c);
    SortFacts(EntryOrder(c), all);
    SavedIsStored(c, catalog, SortScores(c, all));
    StoredMembers(catalog, SortScores(c, all));
    StoredAllLength(catalog, SortScores(c, all));
    SortFacts(EntryOrder(c), StoredAll(catalog, SortScores(c, all)));
  }

  /** After a command a score file holds what was written and every older entry the command does not
      replace, in stored form, once each, in order. */
  ghost predicate Changes(
      e: Setting, fixtureId: Option<string>, screenId: Option<string>, written: seq<ScoreEntry>, before: seq<ScoreEntry>, after: seq<ScoreEntry>)
  {
    Sorted(EntryOrder(e.c), after) && HoldsExactly(e.catalog, Left(e.catalog, fixtureId, screenId, written, before), written, after)
  }

  lemma CommitChanges(e: Setting, fixtureId: Option<string>, screenId: Option<string>, stored: seq<ScoreEntry>, written: seq<ScoreEntry>)
    requires fixtureId.Some? ==> FixtureId(fixtureId.value) == Ok(fixtureId.value)
    requires AllComplete(stored) && AllComplete(written)
    requires Committed(e.c, e.catalog, stored, written, UpdateScope(e.catalog, fixtureId, screenId)).Ok?
    ensures Changes(e, fixtureId, screenId, written, stored,
                    Committed(e.c, e.catalog, stored, written, UpdateScope(e.catalog, fixtureId, screenId)).value)
  {
    var scope := UpdateScope(e.catalog, fixtureId, screenId);
    CommittedExactly(e.c, e.catalog, stored, written, scope);
    CommittedReloads(e.c, e.catalog, stored, written, scope);
    KeptIsLeft(e.catalog, fixtureId, screenId, stored, written);
  }

  /** Both files, as they are loaded before and after. */
  ghost predicate ChangesBoth(e: Setting, fixtureId: Option<string>, screenId: Option<string>, written: seq<ScoreEntry>, s: Stores, after: Stores) {
    && Loadable(e.c, e.catalog, s) && Loadable(e.c, e.catalog, after)
    && Changes(e, fixtureId, screenId, written, LoadedBaseline(e.c, e.catalog, s.baseline).value, LoadedBaseline(e.c, e.catalog, after.baseline).value)
    && Changes(e, fixtureId, screenId, written, LoadedLastRun(e.c, s.lastRun).value, LoadedLastRun(e.c, after.lastRun).value)
  }

  lemma BothChange(e: Setting, fixtureId: Option<string>, screenId: Option<string>, written: seq<ScoreEntry>, s: Stores, after: Stores)
    requires fixtureId.Some? ==> FixtureId(fixtureId.value) == Ok(fixtureId.value)
    requires Loadable(e.c, e.catalog, s) && AllComplete(written)
    requires BothCommitted(e.c, e.catalog, s, written, UpdateScope(e.catalog, fixtureId, screenId), after)
    ensures ChangesBoth(e, fixtureId, screenId, written, s, after)
  {
    LoadsAreComplete(e.c, e.catalog, s);
    CommittedStoresReload(e.c, e.catalog, s, written, UpdateScope(e.catalog, fixtureId, screenId), after);
    CommitChanges(e, fixtureId, screenId, LoadedBaseline(e.c, e.catalog, s.baseline).value, written);
    CommitChanges(e, fixtureId, screenId, LoadedLastRun(e.c, s.lastRun).value, written);
  }

  lemma TargetIsKnown(e: Setting, tree: Tree, f: string, screenId: Option<string>, execute: string -> Result<Execution>, runAt: string)
    requires ValidCatalog(e.catalog) && UpdateRun(e, tree, Some(f), screenId, execute, runAt).1.Ok?
    ensures FixtureId(f) == Ok(f)
  {
    RunFollowsPlan(e, tree, [f], screenId, execute, runAt);
    PlanStep(e.catalog, [], f, screenId, execute);
    assert [] + [f] == [f];
  }

  /** An update that returns changes both files in this way, by the scores it returns. */
  lemma UpdateChangesStores(e: Setting, s: Stores, tree: Tree, fixtureId: Option<string>, screenId: Option<string>,
                            execute: string -> Result<Execution>, runAt: string, outcome: Outcome)
    requires ValidCatalog(e.catalog) && outcome == Updated(e, s, tree, fixtureId, screenId, execute, runAt) && outcome.scores.Ok?
    ensures ChangesBoth(e, fixtureId, screenId, outcome.scores.value, s, outcome.stores)
  {
    UpdateSucceedsExactly(e, s, tree, fixtureId, screenId, execute, runAt);
    UpdateCommits(e, s, tree, fixtureId, screenId, execute, runAt);
    if fixtureId.Some? {
      TargetIsKnown(e, tree, fixtureId.value, screenId, execute, runAt);
    }
    BothChange(e, fixtureId, screenId, outcome.scores.value, s, outcome.stores);
  }

  /** And so does an approval, for its own fixture. */
  lemma ApprovalChangesStores(e: Setting, s: Stores, tree: Tree, target: string, screenId: Option<string>, after: Stores, approval: Approval)
    requires ValidCatalog(e.catalog) && ApprovedStores(e, s, tree, target, screenId) == (after, Ok(approval))
    ensures ChangesBoth(e, Some(NormalFixture(target)), screenId, approval.scores, s, after)
  {
    ApproveSucceedsExactly(e, s, tree, target, screenId);
    ApprovalCommits(e, s, tree, target, screenId);
    FixtureIdIsIdempotent(target);
    BothChange(e, Some(NormalFixture(target)), screenId, approval.scores, s, after);
  }
}
