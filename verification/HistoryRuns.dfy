/** The visual history over whole runs of commands, each of which loads it, appends to it and saves it. */
module HistoryRuns {
  import opened Basics
  import opened StableSort
  import opened Ids
  import opened ScoreMerge
  import opened Canonical
  import opened ArtifactTree
  import opened History
  import opened BaselineStore
  import opened BaselinePlan
  import opened Baseline
  import opened BaselineRuns

  // ---- One append ------------------------------------------------------------------------------

  /** Every entry is in the form a save writes. */
  predicate AllNormal(c: Collation, entries: seq<HistoryEntry>) {
    forall h :: h in entries ==> NormalizedScores(c, h.scores) == Ok(h.scores)
  }

  lemma {:induction false} NormalizedIsNormal(c: Collation, entries: seq<HistoryEntry>)
    requires Normalized(c, entries).Ok?
    ensures AllNormal(c, Normalized(c, entries).value)
  {
    if entries != [] {
      NormalizedIsNormal(c, entries[..|entries| - 1]);
      NormalizedScoresAreStable(c, entries[|entries| - 1].scores);
    }
  }

  lemma {:induction false} NormalIsKept(c: Collation, entries: seq<HistoryEntry>)
    requires AllNormal(c, entries)
    ensures Normalized(c, entries) == Ok(entries)
  {
    if entries != [] {
      var init, last := entries[..|entries| - 1], entries[|entries| - 1];
      assert entries == init + [last] && last in entries && forall h :: h in init ==> h in entries;
      NormalIsKept(c, init);
    }
  }

  /** The entry a command adds. */
  function NormalEntry(c: Collation, runAt: string, scores: seq<ScoreEntry>): HistoryEntry {
    HistoryEntry(runAt, match NormalizedScores(c, scores) case Ok(normal) => normal case Err(_) => scores)
  }

  /** What is saved is one window over what was loaded, and is loaded again as it is. */
  lemma HistoryAfterIsWindow(c: Collation, history: Option<seq<HistoryEntry>>, runAt: string, scores: seq<ScoreEntry>, size: int)
    requires HistoryAfter(c, history, runAt, scores, size).Ok?
    ensures size > 0 && Normalized(c, history.GetOr([])).Ok?
    ensures var after := HistoryAfter(c, history, runAt, scores, size).value;
            && after == Window(Normalized(c, history.GetOr([])).value, NormalEntry(c, runAt, scores), size)
            && Normalized(c, after) == Ok(after)
  {
    var existing := Normalized(c, history.GetOr([])).value;
    var entry := NormalEntry(c, runAt, scores);
    NormalizedIsNormal(c, history.GetOr([]));
    NormalizedScoresAreStable(c, scores);
    var appended := Window(existing, entry, size);
    assert forall h :: h in appended ==> h in existing + [entry];
    NormalIsKept(c, appended);
  }

  // ---- One command -----------------------------------------------------------------------------

  function LoadedHistory(e: Setting, s: Stores): Result<seq<HistoryEntry>> {
    Normalized(e.c, s.history.GetOr([]))
  }

  /** What a command adds to the history: one entry when it returns, nothing when it throws. */
  function Logged(e: Setting, s: Stores, tree: Tree, command: Command): Option<HistoryEntry> {
    match command
    case Update(f, screenId, execute, runAt) =>
      (match Updated(e, s, tree, f, screenId, execute, runAt).scores
       case Ok(scores) => Some(NormalEntry(e.c, runAt, scores))
       case Err(_) => None)
    case Approve(target, screenId) =>
      (match ApprovedStores(e, s, tree, target, screenId).1
       case Ok(approval) => Some(NormalEntry(e.c, approval.latestRanAt.GetOr(""), approval.scores))
       case Err(_) => None)
  }

  /** The history is saved last: it changes exactly when the command returns. */
  lemma UpdateStoresHistory(c: Collation, catalog: Catalog, s: Stores, b: seq<ScoreEntry>, l: seq<ScoreEntry>,
                            written: seq<ScoreEntry>, scope: Scope, runAt: string, size: int)
    ensures var (after, ok) := UpdateStores(c, catalog, s, b, l, written, scope, runAt, size);
            var history := HistoryAfter(c, s.history, runAt, written, size);
            if ok then history.Ok? && after.history == Some(history.value) else after.history == s.history
  {
  }

  lemma ApproveStoresHistory(c: Collation, catalog: Catalog, s: Stores, b: seq<ScoreEntry>,
                             written: seq<ScoreEntry>, scope: Scope, runAt: string, size: int)
    ensures var (after, ok) := ApproveStores(c, catalog, s, b, written, scope, runAt, size);
            var history := HistoryAfter(c, s.history, runAt, written, size);
            if ok then history.Ok? && after.history == Some(history.value) else after.history == s.history
  {
  }

  /** The history a command leaves: the window with its entry, or the same history. */
  predicate HistoryFollows(e: Setting, s: Stores, after: Stores, logged: Option<HistoryEntry>) {
    match logged
    case None => after.history == s.history
    case Some(entry) =>
      && e.historySize > 0 && LoadedHistory(e, s).Ok?
      && LoadedHistory(e, after) == Ok(Window(LoadedHistory(e, s).value, entry, e.historySize))
  }

  lemma UpdateHistory(e: Setting, s: Stores, tree: Tree, f: Option<string>, screenId: Option<string>,
                      execute: string -> Result<Execution>, runAt: string)
    ensures var command := Command.Update(f, screenId, execute, runAt);
            HistoryFollows(e, s, AfterCommand(e, s, tree, command).0, Logged(e, s, tree, command))
  {
    var b, l := LoadedBaseline(e.c, e.catalog, s.baseline), LoadedLastRun(e.c, s.lastRun);
    var run := UpdateRun(e, tree, f, screenId, execute, runAt).1;
    if ValidTarget(f, screenId) && b.Ok? && l.Ok? && run.Ok? {
      var written := ScoresOf(run.value);
      UpdateStoresHistory(e.c, e.catalog, s, b.value, l.value, written, UpdateScope(e.catalog, f, screenId), runAt, e.historySize);
      if HistoryAfter(e.c, s.history, runAt, written, e.historySize).Ok? {
        HistoryAfterIsWindow(e.c, s.history, runAt, written, e.historySize);
      }
    }
  }

  lemma ApproveHistory(e: Setting, s: Stores, tree: Tree, target: string, screenId: Option<string>)
    ensures var command := Command.Approve(target, screenId);
            HistoryFollows(e, s, AfterCommand(e, s, tree, command).0, Logged(e, s, tree, command))
  {
    var approval := CollectedApproval(e, s, tree, target, screenId);
    if approval.Ok? && approval.value.latestRanAt.Some? {
      var b := LoadedBaseline(e.c, e.catalog, s.baseline).value;
      var runAt, written := approval.value.latestRanAt.value, approval.value.scores;
      ApproveStoresHistory(e.c, e.catalog, s, b, written, ApproveScope(e.catalog, NormalFixture(target), screenId), runAt, e.historySize);
      if HistoryAfter(e.c, s.history, runAt, written, e.historySize).Ok? {
        HistoryAfterIsWindow(e.c, s.history, runAt, written, e.historySize);
      }
    }
  }

  lemma StepHistory(e: Setting, s: Stores, tree: Tree, command: Command)
    ensures HistoryFollows(e, s, AfterCommand(e, s, tree, command).0, Logged(e, s, tree, command))
  {
    match command {
      case Update(f, screenId, execute, runAt) => UpdateHistory(e, s, tree, f, screenId, execute, runAt);
      case Approve(target, screenId) => ApproveHistory(e, s, tree, target, screenId);
    }
  }

  // ---- Runs of commands ------------------------------------------------------------------------

  /** The entries the commands of a run added, oldest first. */
  function Log(e: Setting, s: Stores, tree: Tree, commands: seq<Command>): seq<HistoryEntry> {
    if commands == [] then []
    else
      var (before, treeBefore) := RunCommands(e, s, tree, commands[..|commands| - 1]);
      Log(e, s, tree, commands[..|commands| - 1])
      + match Logged(e, before, treeBefore, commands[|commands| - 1]) case Some(entry) => [entry] case None => []
  }

  /** How many entries a history of the given length holds after n appends. */
  function LengthAfter(start: nat, n: nat, size: int): int {
    if n == 0 then start else Min(start + n, size)
  }

  /** Over any run of commands, failed ones included, the loaded history is the latest part of the
      history before and everything the run logged, cut to the configured size by the first append. */
  lemma {:induction false} HistoryOfRun(e: Setting, s: Stores, tree: Tree, commands: seq<Command>)
    requires LoadedHistory(e, s).Ok?
    ensures var start, log := LoadedHistory(e, s).value, Log(e, s, tree, commands);
            var history := LoadedHistory(e, RunCommands(e, s, tree, commands).0);
            && history.Ok? && IsSuffix(history.value, start + log)
            && |history.value| == LengthAfter(|start|, |log|, e.historySize)
  {
    var start := LoadedHistory(e, s).value;
    if commands == [] {
      assert start + [] == start;
    } else {
      var init, last := commands[..|commands| - 1], commands[|commands| - 1];
      HistoryOfRun(e, s, tree, init);
      var (before, treeBefore) := RunCommands(e, s, tree, init);
      StepHistory(e, before, treeBefore, last);
      var log := Log(e, s, tree, init);
      match Logged(e, before, treeBefore, last) {
        case Some(entry) =>
          WindowIsSuffix(LoadedHistory(e, before).value, start + log, entry, e.historySize);
          assert start + (log + [entry]) == start + log + [entry];
        case None =>
          assert log + [] == log;
      }
    }
  }

  /** A history that cannot be read is never changed, and no command returns until it is repaired. */
  lemma {:induction false} UnreadableHistoryBlocks(e: Setting, s: Stores, tree: Tree, commands: seq<Command>)
    requires LoadedHistory(e, s).Err?
    ensures RunCommands(e, s, tree, commands).0.history == s.history && Log(e, s, tree, commands) == []
  {
    if commands != [] {
      var init, last := commands[..|commands| - 1], commands[|commands| - 1];
      UnreadableHistoryBlocks(e, s, tree, init);
      var (before, treeBefore) := RunCommands(e, s, tree, init);
      StepHistory(e, before, treeBefore, last);
    }
  }
}
