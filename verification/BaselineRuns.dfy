/** What holds after baseline commands, whatever ran before. */
module BaselineRuns {
  import opened Basics
  import opened StableSort
  import opened Ids
  import opened ScoreKeys
  import opened ScoreMerge
  import opened Canonical
  import opened ArtifactTree
  import opened PersistPhase
  import opened History
  import opened BaselineStore
  import opened BaselineDiff
  import opened BaselinePlan
  import opened Baseline

  lemma CanonicalIsComplete(e: ScoreEntry)
    requires IsCanonical(e)
    ensures Complete(e)
  {
    NonBlankFacts(e.screenId);
    FixtureIdIsIdempotent(e.fixtureId);
    TrimFacts(e.screenId.value);
  }

  /** Loading never yields an incomplete entry, whatever the file's version. */
  lemma LoadedIsComplete(c: Collation, scores: seq<ScoreEntry>)
    requires SortCanonical(c, scores).Ok?
    ensures AllComplete(SortCanonical(c, scores).value)
    ensures SortCanonical(c, SortCanonical(c, scores).value) == SortCanonical(c, scores)
  {
    CanonicalFilesAreStable(c, scores);
    forall e | e in SortCanonical(c, scores).value ensures Complete(e) {
      CanonicalIsComplete(e);
    }
  }

  /** Files written by a commit reload as they were written, sorted and canonical. */
  lemma CommittedReloads(c: Collation, catalog: Catalog, stored: seq<ScoreEntry>, written: seq<ScoreEntry>, scope: Scope)
    requires Committed(c, catalog, stored, written, scope).Ok?
    ensures var file := Committed(c, catalog, stored, written, scope).value;
            && LoadedBaseline(c, catalog, Some(BaselineFile(3, file))) == Ok(file)
            && LoadedLastRun(c, Some(file)) == Ok(file)
            && AllComplete(file) && Sorted(EntryOrder(c), file)
  {
    CommittedIsKeptPlusWritten(c, catalog, stored, written, scope);
    var merged := SortScores(c, Kept(stored, written, scope) + written);
    LoadedIsComplete(c, AllWithMetadata(catalog, merged));
    CanonicalFilesAreStable(c, AllWithMetadata(catalog, merged));
  }

  lemma CompleteIsKeyed(scores: seq<ScoreEntry>)
    requires AllComplete(scores)
    ensures AllKeyed(scores)
  {
    forall e | e in scores ensures KeyOf(e).Ok? {
      CanonFacts(e);
    }
  }

  lemma SortedStaysComplete(c: Collation, a: seq<ScoreEntry>, b: seq<ScoreEntry>)
    requires AllComplete(a) && AllComplete(b)
    ensures AllComplete(SortScores(c, a + b))
  {
    EntryOrderIsTotal(c);
    SortFacts(EntryOrder(c), a + b);
  }

  /** A commit of complete scores over loadable stores never throws. */
  lemma CommitSucceeds(c: Collation, catalog: Catalog, stored: seq<ScoreEntry>, written: seq<ScoreEntry>, scope: Scope)
    requires AllComplete(stored) && AllComplete(written) && (scope.Fixture? ==> FixtureId(scope.fixtureId).Ok?)
    ensures Committed(c, catalog, stored, written, scope).Ok?
  {
    CompleteIsKeyed(stored);
    CompleteIsKeyed(written);
    KeptIsComplete(stored, written, scope);
    var kept := Kept(stored, written, scope);
    SortedStaysComplete(c, kept, written);
    SavedIsStored(c, catalog, SortScores(c, kept + written));
    if scope.Everything? {
      assert [] + written == written;
    }
  }

  // ---- Loading ---------------------------------------------------------------------------------

  /** Both score files can be loaded. */
  ghost predicate Loadable(c: Collation, catalog: Catalog, s: Stores) {
    LoadedBaseline(c, catalog, s.baseline).Ok? && LoadedLastRun(c, s.lastRun).Ok?
  }

  lemma LoadsAreComplete(c: Collation, catalog: Catalog, s: Stores)
    requires Loadable(c, catalog, s)
    ensures AllComplete(LoadedBaseline(c, catalog, s.baseline).value) && AllComplete(LoadedLastRun(c, s.lastRun).value)
  {
    if s.baseline.Some? {
      var file := s.baseline.value;
      LoadedIsComplete(c, if file.version == 3 then file.scores else AllWithMetadata(catalog, file.scores));
    }
    if s.lastRun.Some? {
      LoadedIsComplete(c, s.lastRun.value);
    }
  }

  // ---- Saving ----------------------------------------------------------------------------------

  /** The stores after a command has committed the written scores to both score files. */
  ghost predicate BothCommitted(c: Collation, catalog: Catalog, s: Stores, written: seq<ScoreEntry>, scope: Scope, after: Stores)
    requires Loadable(c, catalog, s)
  {
    var baseline := Committed(c, catalog, LoadedBaseline(c, catalog, s.baseline).value, written, scope);
    var lastRun := Committed(c, catalog, LoadedLastRun(c, s.lastRun).value, written, scope);
    && baseline.Ok? && after.baseline == Some(BaselineFile(3, baseline.value))
    && lastRun.Ok? && after.lastRun == Some(lastRun.value)
  }

  /** Once both files load, saving scores that name their screens updates both of them: only the
      history can still throw, and the order in which update and approve save makes no difference. */
  lemma SavesReachBothFiles(c: Collation, catalog: Catalog, s: Stores, written: seq<ScoreEntry>, scope: Scope, runAt: string, size: int)
    requires Loadable(c, catalog, s) && AllComplete(written) && (scope.Fixture? ==> FixtureId(scope.fixtureId).Ok?)
    ensures var b, l := LoadedBaseline(c, catalog, s.baseline).value, LoadedLastRun(c, s.lastRun).value;
            var (after, ok) := UpdateStores(c, catalog, s, b, l, written, scope, runAt, size);
            && BothCommitted(c, catalog, s, written, scope, after)
            && (ok <==> HistoryAfter(c, s.history, runAt, written, size).Ok?)
            && ApproveStores(c, catalog, s, b, written, scope, runAt, size) == (after, ok)
  {
    LoadsAreComplete(c, catalog, s);
    CommitSucceeds(c, catalog, LoadedBaseline(c, catalog, s.baseline).value, written, scope);
    CommitSucceeds(c, catalog, LoadedLastRun(c, s.lastRun).value, written, scope);
  }

  lemma CommittedStoresReload(c: Collation, catalog: Catalog, s: Stores, written: seq<ScoreEntry>, scope: Scope, after: Stores)
    requires Loadable(c, catalog, s) && BothCommitted(c, catalog, s, written, scope, after)
    ensures LoadedBaseline(c, catalog, after.baseline)
         == Committed(c, catalog, LoadedBaseline(c, catalog, s.baseline).value, written, scope)
    ensures LoadedLastRun(c, after.lastRun) == Committed(c, catalog, LoadedLastRun(c, s.lastRun).value, written, scope)
  {
    CommittedReloads(c, catalog, LoadedBaseline(c, catalog, s.baseline).value, written, scope);
    CommittedReloads(c, catalog, LoadedLastRun(c, s.lastRun).value, written, scope);
  }

  // ---- What the commands write -----------------------------------------------------------------

  /** A completed run wrote what was planned, and saved it in that order. */
  lemma {:induction false} RunFollowsPlan(e: Setting, tree: Tree, targets: seq<string>, screenId: Option<string>,
                                          execute: string -> Result<Execution>, runAt: string)
    requires RunFixtures(e, tree, targets, screenId, execute, runAt).1.Ok?
    ensures Plan(e.catalog, targets, screenId, execute) == RunFixtures(e, tree, targets, screenId, execute, runAt).1
    ensures SaveWrites(e.isPng, tree, RunFixtures(e, tree, targets, screenId, execute, runAt).1.value, runAt)
         == (RunFixtures(e, tree, targets, screenId, execute, runAt).0, true)
  {
    if targets != [] {
      var init := targets[..|targets| - 1];
      RunFollowsPlan(e, tree, init, screenId, execute, runAt);
      var planned := RunFixtures(e, tree, init, screenId, execute, runAt).1.value;
      SaveWritesConcat(e.isPng, tree, planned, PlanFixture(e.catalog, targets[|targets| - 1], screenId, execute).value, runAt);
    }
  }

  lemma {:induction false} SaveWritesConcat(isPng: nat -> bool, start: Tree, a: seq<Write>, b: seq<Write>, runAt: string)
    requires SaveWrites(isPng, start, a, runAt).1
    ensures SaveWrites(isPng, start, a + b, runAt) == SaveWrites(isPng, SaveWrites(isPng, start, a, runAt).0, b, runAt)
    decreases |b|
  {
    if b == [] {
      assert a + b == a;
    } else {
      var n := |b| - 1;
      SaveWritesConcat(isPng, start, a, b[..n], runAt);
      assert (a + b)[..|a + b| - 1] == a + b[..n] && (a + b)[|a + b| - 1] == b[n];
    }
  }

  lemma RunScoresAreFromCatalog(e: Setting, tree: Tree, targets: seq<string>, screenId: Option<string>,
                                execute: string -> Result<Execution>, runAt: string)
    requires ValidCatalog(e.catalog) && RunFixtures(e, tree, targets, screenId, execute, runAt).1.Ok?
    ensures var written := ScoresOf(RunFixtures(e, tree, targets, screenId, execute, runAt).1.value);
            && AllFromCatalog(e.catalog, written) && AllComplete(written)
            && forall w :: w in written ==> w.fixtureId in targets
  {
    var writes := RunFixtures(e, tree, targets, screenId, execute, runAt).1.value;
    RunFollowsPlan(e, tree, targets, screenId, execute, runAt);
    PlanMembers(e.catalog, targets, screenId, execute);
    ScoresAreFromCatalog(e.catalog, writes);
    FromCatalogAreComplete(e.catalog, ScoresOf(writes));
    ScoreMembers(writes);
  }

  lemma {:induction false} ScoreMembers(writes: seq<Write>)
    ensures forall e :: e in ScoresOf(writes) <==> exists w :: w in writes && e == ScoreOf(w)
  {
    if writes != [] {
      var init, last := writes[..|writes| - 1], writes[|writes| - 1];
      ScoreMembers(init);
      assert writes == init + [last];
      assert ScoresOf(writes) == ScoresOf(init) + [ScoreOf(last)];
      forall e
        ensures e in ScoresOf(writes) <==> exists w :: w in writes && e == ScoreOf(w)
      {
        assert e in ScoresOf(writes) <==> e in ScoresOf(init) || e == ScoreOf(last);
        assert last in writes && forall w :: w in init ==> w in writes;
      }
    }
  }

  ghost predicate OfFixtureScreens(catalog: Catalog, f: string, scores: seq<ScoreEntry>) {
    forall e :: e in scores ==> FromCatalog(catalog, e) && e.fixtureId == f
  }

  lemma ApprovedEntryIsFromCatalog(catalog: Catalog, f: string, screen: Screen, a: Artifact)
    requires ValidCatalog(catalog) && f in catalog && screen in EnumerateScreens(catalog[f])
    ensures FromCatalog(catalog, ApprovedEntry(f, screen, a))
  {
    NonBlankFacts(Some(screen.screenId));
  }

  lemma {:induction false} WithArtifactsFromCatalog(
      catalog: Catalog, baseline: seq<ScoreEntry>, before: Approval, f: string, screen: Screen, artifacts: seq<Artifact>)
    requires ValidCatalog(catalog) && f in catalog && screen in EnumerateScreens(catalog[f])
    requires OfFixtureScreens(catalog, f, before.scores)
    ensures OfFixtureScreens(catalog, f, WithArtifacts(baseline, before, f, screen, artifacts).scores)
    ensures artifacts != [] || before.latestRanAt.Some? ==> WithArtifacts(baseline, before, f, screen, artifacts).latestRanAt.Some?
  {
    if artifacts != [] {
      WithArtifactsFromCatalog(catalog, baseline, before, f, screen, artifacts[..|artifacts| - 1]);
      ApprovedEntryIsFromCatalog(catalog, f, screen, artifacts[|artifacts| - 1]);
    }
  }

  /** An approval writes scores of the target screens, and knows when they ran. */
  lemma {:induction false} ApprovedFromCatalog(e: Setting, tree: Tree, baseline: seq<ScoreEntry>, f: string, screens: seq<Screen>, all: nat)
    requires ValidCatalog(e.catalog) && f in e.catalog && Approved(e, tree, baseline, f, screens, all).Ok?
    requires forall s :: s in screens ==> s in EnumerateScreens(e.catalog[f])
    ensures OfFixtureScreens(e.catalog, f, Approved(e, tree, baseline, f, screens, all).value.scores)
    ensures screens != [] ==> Approved(e, tree, baseline, f, screens, all).value.latestRanAt.Some?
  {
    if screens != [] {
      var init, last := screens[..|screens| - 1], screens[|screens| - 1];
      assert last in screens && forall s :: s in init ==> s in screens;
      ApprovedFromCatalog(e, tree, baseline, f, init, all);
      WithArtifactsFromCatalog(e.catalog, baseline, Approved(e, tree, baseline, f, init, all).value, f, last,
                               TakenArtifacts(e, tree, f, last, all).value);
    }
  }

  lemma TargetScreensAreEnumerated(m: Metadata, screenId: Option<string>)
    requires TargetScreens(m, screenId).Ok?
    ensures TargetScreens(m, screenId).value != []
    ensures forall s :: s in TargetScreens(m, screenId).value ==> s in EnumerateScreens(m)
  {
    if screenId.Some? {
      FindScreenFinds(EnumerateScreens(m), ScreenId(screenId.value).value);
    }
  }

  lemma FromCatalogAreComplete(catalog: Catalog, scores: seq<ScoreEntry>)
    requires ValidCatalog(catalog) && AllFromCatalog(catalog, scores)
    ensures AllComplete(scores)
  {
    forall e | e in scores
      ensures Complete(e)
    {
      FromCatalogIsComplete(catalog, e);
    }
  }

  // ---- What the commands do to the score files -------------------------------------------------

  /** The benchmarks an update runs. */
  function UpdateRun(e: Setting, tree: Tree, fixtureId: Option<string>, screenId: Option<string>,
                     execute: string -> Result<Execution>, runAt: string): (Tree, Result<seq<Write>>)
  {
    RunFixtures(e, tree, Targets(e, fixtureId), screenId, execute, runAt)
  }

  /** An update that ran all its benchmarks over loadable files has committed their scores to both. */
  lemma UpdateCommits(e: Setting, s: Stores, tree: Tree, f: Option<string>, screenId: Option<string>,
                      execute: string -> Result<Execution>, runAt: string)
    requires ValidCatalog(e.catalog) && Loadable(e.c, e.catalog, s)
    requires ValidTarget(f, screenId) && UpdateRun(e, tree, f, screenId, execute, runAt).1.Ok?
    ensures var written := ScoresOf(UpdateRun(e, tree, f, screenId, execute, runAt).1.value);
            var outcome := Updated(e, s, tree, f, screenId, execute, runAt);
            && AllFromCatalog(e.catalog, written) && AllComplete(written)
            && BothCommitted(e.c, e.catalog, s, written, UpdateScope(e.catalog, f, screenId), outcome.stores)
            && (outcome.scores.Ok? <==> HistoryAfter(e.c, s.history, runAt, written, e.historySize).Ok?)
            && (outcome.scores.Ok? ==> outcome.scores.value == written)
  {
    var written := ScoresOf(UpdateRun(e, tree, f, screenId, execute, runAt).1.value);
    RunScoresAreFromCatalog(e, tree, Targets(e, f), screenId, execute, runAt);
    SavesReachBothFiles(e.c, e.catalog, s, written, UpdateScope(e.catalog, f, screenId), runAt, e.historySize);
  }

  lemma CollectionFacts(e: Setting, tree: Tree, baseline: seq<ScoreEntry>, target: string, screenId: Option<string>)
    requires ValidCatalog(e.catalog)
    requires ApprovalTargets(e, target, screenId) && Collection(e, tree, baseline, target, screenId).Ok?
    ensures var approval := Collection(e, tree, baseline, target, screenId).value;
            && OfFixtureScreens(e.catalog, NormalFixture(target), approval.scores) && AllFromCatalog(e.catalog, approval.scores)
            && AllComplete(approval.scores) && approval.latestRanAt.Some?
  {
    var f := NormalFixture(target);
    TargetScreensAreEnumerated(e.catalog[f], screenId);
    ApprovedFromCatalog(e, tree, baseline, f, TargetScreens(e.catalog[f], screenId).value, |EnumerateScreens(e.catalog[f])|);
    FromCatalogAreComplete(e.catalog, Collection(e, tree, baseline, target, screenId).value.scores);
  }

  /** The approval collected over the stored baseline. */
  function CollectedApproval(e: Setting, s: Stores, tree: Tree, target: string, screenId: Option<string>): Result<Approval> {
    var baseline :- LoadedBaseline(e.c, e.catalog, s.baseline);
    if ApprovalTargets(e, target, screenId) then Collection(e, tree, baseline, target, screenId) else Err("refused")
  }

  /** An approval that collected its artifacts over loadable files has committed their scores to both. */
  lemma ApprovalCommits(e: Setting, s: Stores, tree: Tree, target: string, screenId: Option<string>)
    requires ValidCatalog(e.catalog) && Loadable(e.c, e.catalog, s)
    requires CollectedApproval(e, s, tree, target, screenId).Ok?
    ensures var approval := CollectedApproval(e, s, tree, target, screenId).value;
            var (after, result) := ApprovedStores(e, s, tree, target, screenId);
            && AllComplete(approval.scores) && approval.latestRanAt.Some?
            && BothCommitted(e.c, e.catalog, s, approval.scores, ApproveScope(e.catalog, NormalFixture(target), screenId), after)
            && (result.Ok? <==> HistoryAfter(e.c, s.history, approval.latestRanAt.value, approval.scores, e.historySize).Ok?)
            && (result.Ok? ==> result.value == approval)
  {
    var approval := CollectedApproval(e, s, tree, target, screenId).value;
    CollectionFacts(e, tree, LoadedBaseline(e.c, e.catalog, s.baseline).value, target, screenId);
    SavesReachBothFiles(e.c, e.catalog, s, approval.scores, ApproveScope(e.catalog, NormalFixture(target), screenId),
                        approval.latestRanAt.value, e.historySize);
  }

  // ---- Runs of commands ------------------------------------------------------------------------

  datatype Command =
    | Update(fixtureId: Option<string>, screenId: Option<string>, execute: string -> Result<Execution>, runAt: string)
    | Approve(target: string, approvedScreen: Option<string>)

  /** The files after one command, whether or not it threw. */
  function AfterCommand(e: Setting, s: Stores, tree: Tree, command: Command): (Stores, Tree) {
    match command
    case Update(f, screenId, execute, runAt) =>
      var outcome := Updated(e, s, tree, f, screenId, execute, runAt);
      (outcome.stores, outcome.tree)
    case Approve(target, screenId) =>
      (ApprovedStores(e, s, tree, target, screenId).0, tree)
  }

  function RunCommands(e: Setting, s: Stores, tree: Tree, commands: seq<Command>): (Stores, Tree) {
    if commands == [] then (s, tree)
    else
      var (before, treeBefore) := RunCommands(e, s, tree, commands[..|commands| - 1]);
      AfterCommand(e, before, treeBefore, commands[|commands| - 1])
  }

  /** Every command leaves both score files alone or commits the same scores to both. */
  ghost predicate CommitsAlike(e: Setting, s: Stores, after: Stores)
    requires Loadable(e.c, e.catalog, s)
  {
    || (after.baseline == s.baseline && after.lastRun == s.lastRun)
    || exists written, scope :: AllComplete(written) && BothCommitted(e.c, e.catalog, s, written, scope, after)
  }

  lemma StepCommitsAlike(e: Setting, s: Stores, tree: Tree, command: Command)
    requires ValidCatalog(e.catalog) && Loadable(e.c, e.catalog, s)
    ensures CommitsAlike(e, s, AfterCommand(e, s, tree, command).0)
  {
    match command {
      case Update(f, screenId, execute, runAt) =>
        if ValidTarget(f, screenId) && UpdateRun(e, tree, f, screenId, execute, runAt).1.Ok? {
          UpdateCommits(e, s, tree, f, screenId, execute, runAt);
        }
      case Approve(target, screenId) =>
        if CollectedApproval(e, s, tree, target, screenId).Ok? {
          ApprovalCommits(e, s, tree, target, screenId);
        }
    }
  }

  /** Baseline and last run, as loaded, hold the same entries at a key. */
  ghost predicate AgreeIn(e: Setting, s: Stores, key: Result<string>)
    requires Loadable(e.c, e.catalog, s)
  {
    AgreeAt(LoadedBaseline(e.c, e.catalog, s.baseline).value, LoadedLastRun(e.c, s.lastRun).value, key)
  }

  lemma CommittingAlikeKeepsAgreement(e: Setting, s: Stores, after: Stores, key: Result<string>)
    requires Loadable(e.c, e.catalog, s) && CommitsAlike(e, s, after)
    ensures Loadable(e.c, e.catalog, after)
    ensures AgreeIn(e, s, key) ==> AgreeIn(e, after, key)
  {
    if !(after.baseline == s.baseline && after.lastRun == s.lastRun) {
      var written, scope :| AllComplete(written) && BothCommitted(e.c, e.catalog, s, written, scope, after);
      CommittedStoresReload(e.c, e.catalog, s, written, scope, after);
      LoadsAreComplete(e.c, e.catalog, s);
      if AgreeIn(e, s, key) {
        CommitKeepsAgreement(e.c, e.catalog, LoadedBaseline(e.c, e.catalog, s.baseline).value,
                             LoadedLastRun(e.c, s.lastRun).value, written, scope, key);
      }
    }
  }

  /** Over any run of updates and approvals, successful or not, the score files stay loadable and no
      agreement between baseline and last run is ever lost. */
  lemma {:induction false} RunsKeepAgreement(e: Setting, s: Stores, tree: Tree, commands: seq<Command>, key: Result<string>)
    requires ValidCatalog(e.catalog) && Loadable(e.c, e.catalog, s)
    ensures Loadable(e.c, e.catalog, RunCommands(e, s, tree, commands).0)
    ensures AgreeIn(e, s, key) ==> AgreeIn(e, RunCommands(e, s, tree, commands).0, key)
  {
    if commands != [] {
      var init, last := commands[..|commands| - 1], commands[|commands| - 1];
      RunsKeepAgreement(e, s, tree, init, key);
      var (before, treeBefore) := RunCommands(e, s, tree, init);
      StepCommitsAlike(e, before, treeBefore, last);
      CommittingAlikeKeepsAgreement(e, before, AfterCommand(e, before, treeBefore, last).0, key);
    }
  }

  // ---- When commands succeed -------------------------------------------------------------------

  lemma {:induction false} NormalizedExactly(c: Collation, entries: seq<HistoryEntry>)
    ensures Normalized(c, entries).Ok? <==> forall h :: h in entries ==> NormalizedScores(c, h.scores).Ok?
    ensures Normalized(c, entries).Ok? ==> forall h :: h in Normalized(c, entries).value ==> NormalizedScores(c, h.scores).Ok?
  {
    if entries != [] {
      var init, last := entries[..|entries| - 1], entries[|entries| - 1];
      NormalizedExactly(c, init);
      assert entries == init + [last];
      if NormalizedScores(c, last.scores).Ok? {
        NormalizedScoresAreStable(c, last.scores);
      }
    }
  }

  /** The history takes a new entry exactly when it can be read, the size limit is in range, the time
      is not blank and every score's ids are allowed. */
  lemma HistoryAcceptsExactly(c: Collation, history: Option<seq<HistoryEntry>>, runAt: string, scores: seq<ScoreEntry>, size: int)
    ensures HistoryAfter(c, history, runAt, scores, size).Ok? <==>
              (Normalized(c, history.GetOr([])).Ok? && 0 < size <= MAX_HISTORY_SIZE && Trim(runAt) != []
               && forall e :: e in scores ==>
                    FixtureId(e.fixtureId).Ok? && (NonBlank(e.viewportId).Some? ==> ViewportId(NonBlank(e.viewportId).value).Ok?))
  {
    var existing := Normalized(c, history.GetOr([]));
    if existing.Ok? && AppendVisual(c, Some(existing.value), HistoryEntry(runAt, scores), size).Ok? {
      var appended := AppendVisual(c, Some(existing.value), HistoryEntry(runAt, scores), size).value;
      NormalizedExactly(c, history.GetOr([]));
      NormalizedScoresAreStable(c, scores);
      NormalizedExactly(c, appended);
      forall h | h in appended
        ensures NormalizedScores(c, h.scores).Ok?
      {
        assert h in existing.value + [HistoryEntry(runAt, NormalizedScores(c, scores).value)];
      }
    }
  }

  /** An update returns exactly when its target is valid, both score files load, every benchmark runs
      and saves, and the history accepts the new entry. */
  lemma UpdateSucceedsExactly(e: Setting, s: Stores, tree: Tree, f: Option<string>, screenId: Option<string>,
                              execute: string -> Result<Execution>, runAt: string)
    requires ValidCatalog(e.catalog)
    ensures var run := UpdateRun(e, tree, f, screenId, execute, runAt).1;
            Updated(e, s, tree, f, screenId, execute, runAt).scores.Ok? <==>
              ((f.Some? ==> FixtureId(f.value).Ok?) && (screenId.Some? ==> f.Some? && ScreenId(screenId.value).Ok?)
               && Loadable(e.c, e.catalog, s) && run.Ok?
               && HistoryAfter(e.c, s.history, runAt, ScoresOf(run.value), e.historySize).Ok?)
  {
    var run := UpdateRun(e, tree, f, screenId, execute, runAt).1;
    if ValidTarget(f, screenId) && Loadable(e.c, e.catalog, s) && run.Ok? {
      UpdateCommits(e, s, tree, f, screenId, execute, runAt);
    }
  }

  predicate AllTaken(e: Setting, tree: Tree, f: string, screens: seq<Screen>, all: nat) {
    forall screen :: screen in screens ==> TakenArtifacts(e, tree, f, screen, all).Ok?
  }

  lemma {:induction false} ApprovedExactly(e: Setting, tree: Tree, baseline: seq<ScoreEntry>, f: string, screens: seq<Screen>, all: nat)
    ensures Approved(e, tree, baseline, f, screens, all).Ok? <==> AllTaken(e, tree, f, screens, all)
  {
    if screens != [] {
      var init, last := screens[..|screens| - 1], screens[|screens| - 1];
      ApprovedExactly(e, tree, baseline, f, init, all);
      assert screens == init + [last] && last in screens && forall s :: s in init ==> s in screens;
    }
  }

  /** Every screen an approval targets has artifacts with usable images. */
  predicate TargetsTaken(e: Setting, tree: Tree, target: string, screenId: Option<string>)
    requires ApprovalTargets(e, target, screenId)
  {
    var m := e.catalog[NormalFixture(target)];
    AllTaken(e, tree, NormalFixture(target), TargetScreens(m, screenId).value, |EnumerateScreens(m)|)
  }

  lemma ApprovalCollectedExactly(e: Setting, s: Stores, tree: Tree, target: string, screenId: Option<string>)
    ensures CollectedApproval(e, s, tree, target, screenId).Ok? <==>
              (LoadedBaseline(e.c, e.catalog, s.baseline).Ok? && ApprovalTargets(e, target, screenId)
               && TargetsTaken(e, tree, target, screenId))
  {
    if LoadedBaseline(e.c, e.catalog, s.baseline).Ok? && ApprovalTargets(e, target, screenId) {
      var m := e.catalog[NormalFixture(target)];
      ApprovedExactly(e, tree, LoadedBaseline(e.c, e.catalog, s.baseline).value, NormalFixture(target),
                      TargetScreens(m, screenId).value, |EnumerateScreens(m)|);
    }
  }

  /** The history accepts what the approval collected. */
  predicate ApprovalLogged(e: Setting, s: Stores, tree: Tree, target: string, screenId: Option<string>) {
    var approval := CollectedApproval(e, s, tree, target, screenId);
    approval.Ok? && approval.value.latestRanAt.Some?
    && HistoryAfter(e.c, s.history, approval.value.latestRanAt.value, approval.value.scores, e.historySize).Ok?
  }

  /** An approval returns exactly when its target is declared, both score files load, every target
      screen has artifacts with usable images, and the history accepts the new entry. */
  lemma ApproveSucceedsExactly(e: Setting, s: Stores, tree: Tree, target: string, screenId: Option<string>)
    requires ValidCatalog(e.catalog)
    ensures ApprovedStores(e, s, tree, target, screenId).1.Ok? <==>
              (ApprovalTargets(e, target, screenId) && Loadable(e.c, e.catalog, s)
               && TargetsTaken(e, tree, target, screenId) && ApprovalLogged(e, s, tree, target, screenId))
  {
    ApprovalCollectedExactly(e, s, tree, target, screenId);
    if Loadable(e.c, e.catalog, s) && CollectedApproval(e, s, tree, target, screenId).Ok? {
      ApprovalCommits(e, s, tree, target, screenId);
    }
  }
}
