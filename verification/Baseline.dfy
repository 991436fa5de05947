/** The baseline commands as an object over its stored files: update runs the benchmarks and commits
    what they scored, approve commits the artifacts of the last run, diff compares the two stores. */
module Baseline {
  import opened Basics
  import opened Ids
  import opened ScoreKeys
  import opened ScoreMerge
  import opened Canonical
  import opened ArtifactTree
  import opened PersistPhase
  import opened History
  import opened BaselineStore
  import opened BaselineDiff
  import opened BaselinePlan

  // ---- Specification ---------------------------------------------------------------------------

  /** The scope an update replaces: a fixture target replaces all its screens only when the fixture
      has several and no single screen was asked for. */
  function UpdateScope(catalog: Catalog, fixtureId: Option<string>, screenId: Option<string>): Scope {
    match fixtureId
    case None => Everything
    case Some(f) =>
      Fixture(f, screenId.None? && MultiScreen(catalog, f))
  }

  predicate MultiScreen(catalog: Catalog, f: string) {
    f in catalog && |EnumerateScreens(catalog[f])| > 1
  }

  function HistoryAfter(c: Collation, history: Option<seq<HistoryEntry>>, runAt: string, scores: seq<ScoreEntry>, size: int)
    : Result<seq<HistoryEntry>>
  {
    var existing :- Normalized(c, history.GetOr([]));
    var appended :- AppendVisual(c, Some(existing), HistoryEntry(runAt, scores), size);
    Normalized(c, appended)
  }

  /** The three stored score files. */
  datatype Stores = Stores(baseline: Option<BaselineFile>, lastRun: Option<seq<ScoreEntry>>, history: Option<seq<HistoryEntry>>)

  function HistorySaved(c: Collation, s: Stores, written: seq<ScoreEntry>, runAt: string, size: int): (Stores, bool) {
    var updated := HistoryAfter(c, s.history, runAt, written, size);
    if updated.Err? then (s, false) else (s.(history := Some(updated.value)), true)
  }

  /** The tail of an update, given the scores loaded before it: both merges, then the last run, the
      baseline and the history are saved in that order until one throws. */
  function UpdateStores(c: Collation, catalog: Catalog, s: Stores, storedBaseline: seq<ScoreEntry>, storedLastRun: seq<ScoreEntry>,
                        written: seq<ScoreEntry>, scope: Scope, runAt: string, size: int): (Stores, bool)
  {
    if MergedInScope(c, storedLastRun, written, scope).Err? || MergedInScope(c, storedBaseline, written, scope).Err? then (s, false)
    else
      var lastRun := Committed(c, catalog, storedLastRun, written, scope);
      if lastRun.Err? then (s, false)
      else
        var saved := s.(lastRun := Some(lastRun.value));
        var baseline := Committed(c, catalog, storedBaseline, written, scope);
        if baseline.Err? then (saved, false)
        else HistorySaved(c, saved.(baseline := Some(BaselineFile(3, baseline.value))), written, runAt, size)
  }

  /** The tail of an approval: the baseline is saved first, and only then is the last run loaded. */
  function ApproveStores(c: Collation, catalog: Catalog, s: Stores, storedBaseline: seq<ScoreEntry>,
                         written: seq<ScoreEntry>, scope: Scope, runAt: string, size: int): (Stores, bool)
  {
    var baseline := Committed(c, catalog, storedBaseline, written, scope);
    if baseline.Err? then (s, false)
    else
      var saved := s.(baseline := Some(BaselineFile(3, baseline.value)));
      var storedLastRun := LoadedLastRun(c, s.lastRun);
      if storedLastRun.Err? then (saved, false)
      else
        var lastRun := Committed(c, catalog, storedLastRun.value, written, scope);
        if lastRun.Err? then (saved, false)
        else HistorySaved(c, saved.(lastRun := Some(lastRun.value)), written, runAt, size)
  }

  /** Saves in order until one throws. */
  function SaveWrites(isPng: nat -> bool, tree: Tree, writes: seq<Write>, runAt: string): (Tree, bool) {
    if writes == [] then (tree, true)
    else SavedNext(isPng, SaveWrites(isPng, tree, writes[..|writes| - 1], runAt), writes[|writes| - 1], runAt)
  }

  /** One more write, unless an earlier one threw: the reference image is written first, and refused
      when it is not a valid PNG. */
  function SavedNext(isPng: nat -> bool, state: (Tree, bool), w: Write, runAt: string): (Tree, bool) {
    if !state.1 then state
    else if !isPng(w.result.actual) then (state.0, false)
    else match Saved(state.0, InputOf(w, runAt))
      case Ok(after) => (after, true)
      case Err(_) => (state.0, false)
  }

  /** Runs the benchmarks of the targets in order: each fixture's plan is made, then saved; the first
      failure stops, with everything saved before it in place. */
  function RunFixtures(e: Setting, tree: Tree, targets: seq<string>, screenId: Option<string>,
                       execute: string -> Result<Execution>, runAt: string): (Tree, Result<seq<Write>>)
  {
    if targets == [] then (tree, Ok([]))
    else
      var (before, planned) := RunFixtures(e, tree, targets[..|targets| - 1], screenId, execute, runAt);
      if planned.Err? then (before, planned)
      else
        var writes := PlanFixture(e.catalog, targets[|targets| - 1], screenId, execute);
        if writes.Err? then (before, Err("plan"))
        else
          var (after, ok) := SaveWrites(e.isPng, before, writes.value, runAt);
          (after, if ok then Ok(planned.value + writes.value) else Err("artifact"))
  }

  /** What an update leaves behind: the stores, the artifact tree, and its scores when it returns. */
  datatype Outcome = Outcome(stores: Stores, tree: Tree, scores: Result<seq<ScoreEntry>>)

  function Targets(e: Setting, fixtureId: Option<string>): seq<string> {
    if fixtureId.Some? then [fixtureId.value] else e.fixtureIds
  }

  function Updated(e: Setting, s: Stores, tree: Tree, fixtureId: Option<string>, screenId: Option<string>,
                   execute: string -> Result<Execution>, runAt: string): Outcome
  {
    var storedBaseline, storedLastRun := LoadedBaseline(e.c, e.catalog, s.baseline), LoadedLastRun(e.c, s.lastRun);
    if !ValidTarget(fixtureId, screenId) || storedBaseline.Err? || storedLastRun.Err? then Outcome(s, tree, Err("refused"))
    else
      var (after, planned) := RunFixtures(e, tree, Targets(e, fixtureId), screenId, execute, runAt);
      if planned.Err? then Outcome(s, after, Err("run"))
      else
        var written := ScoresOf(planned.value);
        var (stores, ok) := UpdateStores(e.c, e.catalog, s, storedBaseline.value, storedLastRun.value, written,
                                         UpdateScope(e.catalog, fixtureId, screenId), runAt, e.historySize);
        Outcome(stores, after, if ok then Ok(written) else Err("save"))
  }

  function ApprovedEntry(f: string, screen: Screen, a: Artifact): ScoreEntry {
    ScoreEntry(f, Some(screen.screenId), NonBlank(Some(screen.screenName)),
               NonBlank(a.manifest.viewportId), NonBlank(a.manifest.viewportLabel), a.manifest.score)
  }

  /** What an approval reports of one score: the baseline score it replaces, and the image it took. */
  datatype Detail = Detail(previousScore: Option<real>, approvedFrom: Path)

  /** Approved scores with their details, and when the latest of their artifacts ran. */
  datatype Approval = Approval(scores: seq<ScoreEntry>, details: seq<Detail>, latestRanAt: Option<string>)

  function WithArtifact(baseline: seq<ScoreEntry>, before: Approval, f: string, screen: Screen, a: Artifact): Approval {
    var entry := ApprovedEntry(f, screen, a);
    Approval(before.scores + [entry],
             before.details + [Detail(BaselineScore(baseline, f, entry.screenId, entry.viewportId), a.actualImagePath)],
             if before.latestRanAt.None? || !LexAtMost(a.manifest.ranAt, before.latestRanAt.value)
             then Some(a.manifest.ranAt) else before.latestRanAt)
  }

  function WithArtifacts(baseline: seq<ScoreEntry>, before: Approval, f: string, screen: Screen, artifacts: seq<Artifact>): Approval {
    if artifacts == [] then before
    else WithArtifact(baseline, WithArtifacts(baseline, before, f, screen, artifacts[..|artifacts| - 1]), f, screen,
                      artifacts[|artifacts| - 1])
  }

  /** The artifact's image can be read and is accepted as the new reference. */
  predicate ImageUsable(isPng: nat -> bool, tree: Tree, a: Artifact) {
    a.actualImagePath in tree.blobs && isPng(tree.blobs[a.actualImagePath])
  }

  predicate ImagesUsable(isPng: nat -> bool, tree: Tree, artifacts: seq<Artifact>) {
    forall a :: a in artifacts ==> ImageUsable(isPng, tree, a)
  }

  /** The artifacts an approval takes for a screen: there must be some, with usable images. */
  function TakenArtifacts(e: Setting, tree: Tree, f: string, screen: Screen, all: nat): Result<seq<Artifact>> {
    var artifacts :- ArtifactsForScreen(e.c, e.listing, tree, f, screen.screenId, all);
    if artifacts == [] then Err("no last-run artifact")
    else if ImagesUsable(e.isPng, tree, artifacts) then Ok(artifacts)
    else Err("image")
  }

  /** What an approval writes: the scores of the saved artifacts of every target screen. */
  function Approved(e: Setting, tree: Tree, baseline: seq<ScoreEntry>, f: string, screens: seq<Screen>, all: nat): Result<Approval> {
    if screens == [] then Ok(Approval([], [], None))
    else
      var before :- Approved(e, tree, baseline, f, screens[..|screens| - 1], all);
      var artifacts :- TakenArtifacts(e, tree, f, screens[|screens| - 1], all);
      Ok(WithArtifacts(baseline, before, f, screens[|screens| - 1], artifacts))
  }

  /** Which last-run entries a diff looks at. */
  function Selected(fixtureId: Option<string>, screenId: Option<string>): ScoreEntry -> bool {
    (e: ScoreEntry) => (fixtureId.Some? ==> e.fixtureId == fixtureId.value) && (screenId.Some? ==> e.screenId == screenId)
  }

  predicate ValidTarget(fixtureId: Option<string>, screenId: Option<string>) {
    && (fixtureId.Some? ==> FixtureId(fixtureId.value).Ok?)
    && (screenId.Some? ==> ScreenId(screenId.value).Ok? && fixtureId.Some?)
  }

  /** The fixture is known, and the screen asked for is declared. */
  predicate ApprovalTargets(e: Setting, target: string, screenId: Option<string>) {
    var f := NormalFixture(target);
    FixtureId(target).Ok? && ValidTarget(Some(f), screenId) && f in e.catalog && TargetScreens(e.catalog[f], screenId).Ok?
  }

  /** What an approval of such a target collects. */
  function Collection(e: Setting, tree: Tree, baseline: seq<ScoreEntry>, target: string, screenId: Option<string>): Result<Approval>
    requires ApprovalTargets(e, target, screenId)
  {
    var m := e.catalog[NormalFixture(target)];
    Approved(e, tree, baseline, NormalFixture(target), TargetScreens(m, screenId).value, |EnumerateScreens(m)|)
  }

  /** What an approval leaves behind, and the approval when it returns. */
  function ApprovedStores(e: Setting, s: Stores, tree: Tree, target: string, screenId: Option<string>): (Stores, Result<Approval>) {
    var storedBaseline := LoadedBaseline(e.c, e.catalog, s.baseline);
    if !ApprovalTargets(e, target, screenId) || storedBaseline.Err? then (s, Err("refused"))
    else
      var approval := Collection(e, tree, storedBaseline.value, target, screenId);
      if approval.Err? || approval.value.latestRanAt.None? then (s, Err("nothing approved"))
      else
        var (stores, ok) := ApproveStores(e.c, e.catalog, s, storedBaseline.value, approval.value.scores,
                                          ApproveScope(e.catalog, NormalFixture(target), screenId),
                                          approval.value.latestRanAt.value, e.historySize);
        (stores, if ok then approval else Err("save"))
  }

  function ApproveScope(catalog: Catalog, f: string, screenId: Option<string>): Scope {
    UpdateScope(catalog, Some(f), screenId)
  }

  /** What a diff reports, given the artifact tree its rows point into. */
  function Diffed(e: Setting, s: Stores, tree: Tree, fixtureId: Option<string>, screenId: Option<string>): Result<seq<Row>> {
    if !ValidTarget(fixtureId, screenId) then Err("target")
    else
      var lastRun :- LoadedLastRun(e.c, s.lastRun);
      var baseline :- LoadedBaseline(e.c, e.catalog, s.baseline);
      var selected := Filter(Selected(fixtureId, screenId), lastRun);
      if selected == [] then Err("No last run found.") else DiffRows(e, tree, baseline, selected)
  }

  // ---- The commands ----------------------------------------------------------------------------

  class BaselineKeeper {
    const e: Setting
    const artifacts: LastRunTree
    var baseline: Option<BaselineFile>
    var lastRun: Option<seq<ScoreEntry>>
    var history: Option<seq<HistoryEntry>>

    constructor (e: Setting, artifacts: LastRunTree)
      ensures this.e == e && this.artifacts == artifacts
      ensures Files() == Stores(None, None, None)
    {
      this.e := e;
      this.artifacts := artifacts;
      baseline, lastRun, history := None, None, None;
    }

    /** The stored files as they stand. */
    ghost function Files(): Stores
      reads this
    {
      Stores(baseline, lastRun, history)
    }

    method AppendHistory(written: seq<ScoreEntry>, runAt: string) returns (ok: bool)
      modifies this`history
      ensures (Files(), ok) == HistorySaved(e.c, old(Files()), written, runAt, e.historySize)
    {
      var updated := HistoryAfter(e.c, history, runAt, written, e.historySize);
      if updated.Err? {
        return false;
      }
      history := Some(updated.value);
      return true;
    }

    method SaveUpdate(storedBaseline: seq<ScoreEntry>, storedLastRun: seq<ScoreEntry>, written: seq<ScoreEntry>, scope: Scope, runAt: string)
      returns (ok: bool)
      modifies this
      ensures (Files(), ok) == UpdateStores(e.c, e.catalog, old(Files()), storedBaseline, storedLastRun, written, scope, runAt, e.historySize)
    {
      var mergedLastRun := MergedInScope(e.c, storedLastRun, written, scope);
      var mergedBaseline := MergedInScope(e.c, storedBaseline, written, scope);
      if mergedLastRun.Err? || mergedBaseline.Err? {
        return false;
      }
      var lastRunScores := SavedScores(e.c, e.catalog, mergedLastRun.value);
      if lastRunScores.Err? {
        return false;
      }
      lastRun := Some(lastRunScores.value);
      var baselineScores := SavedScores(e.c, e.catalog, mergedBaseline.value);
      if baselineScores.Err? {
        return false;
      }
      baseline := Some(BaselineFile(3, baselineScores.value));
      ok := AppendHistory(written, runAt);
    }

    method SaveApproval(storedBaseline: seq<ScoreEntry>, written: seq<ScoreEntry>, scope: Scope, runAt: string) returns (ok: bool)
      modifies this
      ensures (Files(), ok) == ApproveStores(e.c, e.catalog, old(Files()), storedBaseline, written, scope, runAt, e.historySize)
    {
      var baselineScores := Committed(e.c, e.catalog, storedBaseline, written, scope);
      if baselineScores.Err? {
        return false;
      }
      baseline := Some(BaselineFile(3, baselineScores.value));
      var storedLastRun := LoadedLastRun(e.c, lastRun);
      if storedLastRun.Err? {
        return false;
      }
      var lastRunScores := Committed(e.c, e.catalog, storedLastRun.value, written, scope);
      if lastRunScores.Err? {
        return false;
      }
      lastRun := Some(lastRunScores.value);
      ok := AppendHistory(written, runAt);
    }

    /** Saves the planned artifacts of one fixture and collects their scores. */
    method SavePlanned(writes: seq<Write>, runAt: string) returns (collected: seq<ScoreEntry>, ok: bool)
      modifies artifacts
      ensures (artifacts.tree, ok) == SaveWrites(e.isPng, old(artifacts.tree), writes, runAt)
      ensures ok ==> collected == ScoresOf(writes)
    {
      collected := [];
      ghost var start := artifacts.tree;
      for i := 0 to |writes|
        invariant SaveWrites(e.isPng, start, writes[..i], runAt) == (artifacts.tree, true)
        invariant collected == ScoresOf(writes[..i])
      {
        WriteStep(e.isPng, start, writes, runAt, i, artifacts.tree);
        if !e.isPng(writes[i].result.actual) {
          return [], false;
        }
        var saved := artifacts.Save(InputOf(writes[i], runAt));
        if saved.Err? {
          return [], false;
        }
        collected := collected + [ScoreOf(writes[i])];
      }
      assert writes[..|writes|] == writes;
      return collected, true;
    }

    /** The fixture loop of an update. */
    method RunTargets(targets: seq<string>, screenId: Option<string>, execute: string -> Result<Execution>, runAt: string)
      returns (scores: seq<ScoreEntry>, ok: bool)
      modifies artifacts
      ensures var r := RunFixtures(e, old(artifacts.tree), targets, screenId, execute, runAt);
              && artifacts.tree == r.0 && (ok <==> r.1.Ok?) && (ok ==> scores == ScoresOf(r.1.value))
    {
      scores := [];
      ghost var start, planned := artifacts.tree, [];
      for i := 0 to |targets|
        invariant RunFixtures(e, start, targets[..i], screenId, execute, runAt) == (artifacts.tree, Ok(planned))
        invariant scores == ScoresOf(planned)
      {
        assert targets[..i + 1][..i] == targets[..i];
        var writes := PlanFixture(e.catalog, targets[i], screenId, execute);
        if writes.Err? {
          FailedRunIsFinal(e, start, targets, screenId, execute, runAt, i + 1);
          return [], false;
        }
        var collected, saved := SavePlanned(writes.value, runAt);
        if !saved {
          FailedRunIsFinal(e, start, targets, screenId, execute, runAt, i + 1);
          return [], false;
        }
        ScoresOfConcat(planned, writes.value);
        scores := scores + collected;
        planned := planned + writes.value;
      }
      assert targets[..|targets|] == targets;
      return scores, true;
    }

    /** updateVisualBaselines. */
    method Update(fixtureId: Option<string>, screenId: Option<string>, execute: string -> Result<Execution>, runAt: string)
      returns (result: Result<seq<ScoreEntry>>)
      modifies this, artifacts
      ensures Outcome(Files(), artifacts.tree, result)
           == Updated(e, old(Files()), old(artifacts.tree), fixtureId, screenId, execute, runAt)
    {
      var storedBaseline := LoadedBaseline(e.c, e.catalog, baseline);
      var storedLastRun := LoadedLastRun(e.c, lastRun);
      if !ValidTarget(fixtureId, screenId) || storedBaseline.Err? || storedLastRun.Err? {
        return Err("refused");
      }
      var targets := if fixtureId.Some? then [fixtureId.value] else e.fixtureIds;
      var scores, ran := RunTargets(targets, screenId, execute, runAt);
      if !ran {
        return Err("run");
      }
      var replaceAllTargetFixtureScreens := screenId.None? && fixtureId.Some? && MultiScreen(e.catalog, fixtureId.value);
      var scope := if fixtureId.Some? then Fixture(fixtureId.value, replaceAllTargetFixtureScreens) else Everything;
      var ok := SaveUpdate(storedBaseline.value, storedLastRun.value, scores, scope, runAt);
      return if ok then Ok(scores) else Err("save");
    }

    /** The artifacts of one screen: each image is read, and refused when it is not a valid PNG. */
    method CollectScreen(stored: seq<ScoreEntry>, f: string, screen: Screen, all: nat, before: Approval) returns (approval: Result<Approval>)
      ensures approval.Ok? <==> TakenArtifacts(e, artifacts.tree, f, screen, all).Ok?
      ensures approval.Ok? ==>
        approval.value == WithArtifacts(stored, before, f, screen, TakenArtifacts(e, artifacts.tree, f, screen, all).value)
    {
      var found := ArtifactsForScreen(e.c, e.listing, artifacts.tree, f, screen.screenId, all);
      if found.Err? || found.value == [] {
        return Err("no last-run artifact");
      }
      var collected := before;
      for j := 0 to |found.value|
        invariant collected == WithArtifacts(stored, before, f, screen, found.value[..j])
        invariant ImagesUsable(e.isPng, artifacts.tree, found.value[..j])
      {
        var a := found.value[j];
        ArtifactsSnoc(e.isPng, artifacts.tree, stored, before, f, screen, found.value, j);
        if !ImageUsable(e.isPng, artifacts.tree, a) {
          return Err("image");
        }
        collected := WithArtifact(stored, collected, f, screen, a);
      }
      assert found.value[..|found.value|] == found.value;
      return Ok(collected);
    }

    /** The approval loop: take every target screen's artifacts, remember the latest run time. */
    method CollectApproval(stored: seq<ScoreEntry>, f: string, screens: seq<Screen>, all: nat) returns (approval: Result<Approval>)
      ensures approval.Ok? <==> Approved(e, artifacts.tree, stored, f, screens, all).Ok?
      ensures approval.Ok? ==> Approved(e, artifacts.tree, stored, f, screens, all) == approval
    {
      var collected := Approval([], [], None);
      for i := 0 to |screens|
        invariant Approved(e, artifacts.tree, stored, f, screens[..i], all) == Ok(collected)
      {
        ApprovalStep(e, artifacts.tree, stored, f, screens, all, i);
        var next := CollectScreen(stored, f, screens[i], all, collected);
        if next.Err? {
          return Err("no last-run artifact");
        }
        collected := next.value;
      }
      assert screens[..|screens|] == screens;
      return Ok(collected);
    }

    /** approveVisualBaseline. */
    method Approve(target: string, screenId: Option<string>) returns (result: Result<Approval>)
      modifies this
      ensures (Files(), result) == ApprovedStores(e, old(Files()), artifacts.tree, target, screenId)
    {
      if !ApprovalTargets(e, target, screenId) {
        return Err("refused");
      }
      var f := NormalFixture(target);
      var allScreens := EnumerateScreens(e.catalog[f]);
      var screens := TargetScreens(e.catalog[f], screenId).value;
      var storedBaseline := LoadedBaseline(e.c, e.catalog, baseline);
      if storedBaseline.Err? {
        return Err("refused");
      }
      var approval := CollectApproval(storedBaseline.value, f, screens, |allScreens|);
      if approval.Err? || approval.value.latestRanAt.None? {
        return Err("nothing approved");
      }
      var scope := Fixture(f, screenId.None? && MultiScreen(e.catalog, f));
      var ok := SaveApproval(storedBaseline.value, approval.value.scores, scope, approval.value.latestRanAt.value);
      return if ok then approval else Err("save");
    }

    /** computeVisualBaselineDiff. */
    method Diff(fixtureId: Option<string>, screenId: Option<string>) returns (diffs: Result<seq<Row>>, pending: bool)
      ensures diffs.Ok? <==> Diffed(e, Files(), artifacts.tree, fixtureId, screenId).Ok?
      ensures diffs.Ok? ==> diffs == Diffed(e, Files(), artifacts.tree, fixtureId, screenId) && pending == Pending(diffs.value)
    {
      pending := false;
      if !ValidTarget(fixtureId, screenId) {
        return Err("target"), false;
      }
      var last := LoadedLastRun(e.c, lastRun);
      var stored := LoadedBaseline(e.c, e.catalog, baseline);
      if last.Err? || stored.Err? {
        return Err("stored scores"), false;
      }
      var filtered := Filter(Selected(fixtureId, screenId), last.value);
      if filtered == [] {
        return Err("No last run found."), false;
      }
      var rows: seq<Row> := [];
      for i := 0 to |filtered|
        invariant DiffRows(e, artifacts.tree, stored.value, filtered[..i]) == Ok(rows)
        invariant pending == Pending(rows)
      {
        RowStep(e, artifacts.tree, stored.value, filtered, i);
        var row := DiffRow(e, artifacts.tree, stored.value, filtered[i]);
        if row.Err? {
          return Err(row.error), false;
        }
        pending := pending || row.value.indicator != Neutral;
        rows := rows + [row.value];
      }
      assert filtered[..|filtered|] == filtered;
      return Ok(rows), pending;
    }
  }

  // ---- Lemmas for the loops --------------------------------------------------------------------

  lemma ArtifactsSnoc(isPng: nat -> bool, tree: Tree, stored: seq<ScoreEntry>, before: Approval, f: string, screen: Screen,
                      artifacts: seq<Artifact>, j: nat)
    requires j < |artifacts|
    ensures WithArtifacts(stored, before, f, screen, artifacts[..j + 1])
         == WithArtifact(stored, WithArtifacts(stored, before, f, screen, artifacts[..j]), f, screen, artifacts[j])
    ensures ImagesUsable(isPng, tree, artifacts[..j]) && ImageUsable(isPng, tree, artifacts[j])
        ==> ImagesUsable(isPng, tree, artifacts[..j + 1])
    ensures !ImageUsable(isPng, tree, artifacts[j]) ==> !ImagesUsable(isPng, tree, artifacts)
  {
    assert artifacts[..j + 1] == artifacts[..j] + [artifacts[j]];
    assert (artifacts[..j] + [artifacts[j]])[..j] == artifacts[..j];
    assert artifacts[j] in artifacts;
  }

  /** The next write decides: when it throws, the loop has its final tree. */
  lemma WriteStep(isPng: nat -> bool, start: Tree, writes: seq<Write>, runAt: string, i: nat, tree: Tree)
    requires i < |writes| && SaveWrites(isPng, start, writes[..i], runAt) == (tree, true)
    ensures var next := SavedNext(isPng, (tree, true), writes[i], runAt);
            && SaveWrites(isPng, start, writes[..i + 1], runAt) == next
            && (!next.1 ==> SaveWrites(isPng, start, writes, runAt) == next)
    ensures ScoresOf(writes[..i + 1]) == ScoresOf(writes[..i]) + [ScoreOf(writes[i])]
  {
    assert writes[..i + 1][..i] == writes[..i];
    if !SavedNext(isPng, (tree, true), writes[i], runAt).1 {
      FailedWriteIsFinal(isPng, start, writes, runAt, i + 1);
    }
  }

  lemma {:induction false} FailedWriteIsFinal(isPng: nat -> bool, start: Tree, writes: seq<Write>, runAt: string, i: nat)
    requires i <= |writes| && !SaveWrites(isPng, start, writes[..i], runAt).1
    ensures SaveWrites(isPng, start, writes, runAt) == SaveWrites(isPng, start, writes[..i], runAt)
    decreases |writes| - i
  {
    if i == |writes| {
      assert writes[..i] == writes;
    } else {
      assert writes[..i + 1][..i] == writes[..i];
      FailedWriteIsFinal(isPng, start, writes, runAt, i + 1);
    }
  }

  lemma {:induction false} FailedRunIsFinal(e: Setting, start: Tree, targets: seq<string>, screenId: Option<string>,
                                            execute: string -> Result<Execution>, runAt: string, i: nat)
    requires i <= |targets| && RunFixtures(e, start, targets[..i], screenId, execute, runAt).1.Err?
    ensures RunFixtures(e, start, targets, screenId, execute, runAt) == RunFixtures(e, start, targets[..i], screenId, execute, runAt)
    decreases |targets| - i
  {
    if i == |targets| {
      assert targets[..i] == targets;
    } else {
      assert targets[..i + 1][..i] == targets[..i];
      FailedRunIsFinal(e, start, targets, screenId, execute, runAt, i + 1);
    }
  }

  lemma {:induction false} FailedApprovalIsFinal(e: Setting, tree: Tree, stored: seq<ScoreEntry>, f: string, screens: seq<Screen>, all: nat, i: nat)
    requires i <= |screens| && Approved(e, tree, stored, f, screens[..i], all).Err?
    ensures Approved(e, tree, stored, f, screens, all).Err?
    decreases |screens| - i
  {
    if i == |screens| {
      assert screens[..i] == screens;
    } else {
      assert screens[..i + 1][..i] == screens[..i];
      FailedApprovalIsFinal(e, tree, stored, f, screens, all, i + 1);
    }
  }

  lemma {:induction false} FailedRowIsFinal(e: Setting, tree: Tree, baseline: seq<ScoreEntry>, scores: seq<ScoreEntry>, i: nat)
    requires i <= |scores| && DiffRows(e, tree, baseline, scores[..i]).Err?
    ensures DiffRows(e, tree, baseline, scores).Err?
    decreases |scores| - i
  {
    if i == |scores| {
      assert scores[..i] == scores;
    } else {
      assert scores[..i + 1][..i] == scores[..i];
      FailedRowIsFinal(e, tree, baseline, scores, i + 1);
    }
  }

  /** The next screen decides: when it has nothing to take, the approval fails. */
  lemma ApprovalStep(e: Setting, tree: Tree, stored: seq<ScoreEntry>, f: string, screens: seq<Screen>, all: nat, i: nat)
    requires i < |screens| && Approved(e, tree, stored, f, screens[..i], all).Ok?
    ensures var taken := TakenArtifacts(e, tree, f, screens[i], all);
            if taken.Ok?
            then Approved(e, tree, stored, f, screens[..i + 1], all)
              == Ok(WithArtifacts(stored, Approved(e, tree, stored, f, screens[..i], all).value, f, screens[i], taken.value))
            else Approved(e, tree, stored, f, screens, all).Err?
  {
    assert screens[..i + 1][..i] == screens[..i];
    if TakenArtifacts(e, tree, f, screens[i], all).Err? {
      FailedApprovalIsFinal(e, tree, stored, f, screens, all, i + 1);
    }
  }

  /** The next row decides likewise. */
  lemma RowStep(e: Setting, tree: Tree, baseline: seq<ScoreEntry>, scores: seq<ScoreEntry>, i: nat)
    requires i < |scores| && DiffRows(e, tree, baseline, scores[..i]).Ok?
    ensures var row := DiffRow(e, tree, baseline, scores[i]);
            if row.Ok? then DiffRows(e, tree, baseline, scores[..i + 1]) == Ok(DiffRows(e, tree, baseline, scores[..i]).value + [row.value])
            else DiffRows(e, tree, baseline, scores).Err?
  {
    assert scores[..i + 1][..i] == scores[..i];
    if DiffRow(e, tree, baseline, scores[i]).Err? {
      FailedRowIsFinal(e, tree, baseline, scores, i + 1);
    }
  }
}
