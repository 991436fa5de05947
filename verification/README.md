# Verification of the visual-benchmark score keeper

This project models the part of the repository that keeps visual-benchmark scores, and proves what it
promises about them: the baseline commands and their stored files, the tree of last-run artifacts and the
escaping of screen ids in it, the canonical JSON form behind the drift check, the score arithmetic, the
pixel composition of the three-way diff, the retry loop in front of the Figma API, the failure-scripting
MCP server, and the size the plugin computes for a payload.

`dafny verify dfyconfig.toml` checks everything. Each file holds one module (`ScoreKeys.dfy` holds two).

## What each file covers

| File | Subject |
|---|---|
| `Basics`, `RealFacts`, `Sums`, `StableSort`, `Indexing` | vocabulary: results, filtering, rounding, sums, the stable sort, maps in insertion order |
| `Ids`, `ScreenIdCodec`, `ScoreKeys` | id guards, directory tokens, score keys, the live-image cache and its keys |
| `ScoreMerge`, `Canonical`, `History` | merging scores into stored lists, the canonical entry form, the bounded histories |
| `ArtifactTree`, `ArtifactLayout`, `PersistPhase`, `ReadYourWrites`, `SavedImages`, `ArtifactReading` | saving, cleaning and loading last-run artifacts and their images, and when loading throws |
| `BaselineStore`, `BaselinePlan`, `BaselineDiff`, `Baseline` | update, approve and diff over the stored files |
| `BaselineRuns`, `HistoryRuns` | runs of these commands: what they keep, when they succeed, and what the history becomes |
| `UpdateScores`, `UpdateImages`, `StoreChanges`, `ApprovalMeaning`, `DiffMeaning` | what an update, an approval and a diff come to, told from their inputs alone |
| `UpdateArtifacts`, `CommandDiffs`, `UpdateThenApprove` | a diff or an approval right after a command |
| `FirstUpdate`, `CollidingKeys` | concrete commands after which the diff throws or stays pending |
| `CanonicalJson` | the key-sorting normaliser |
| `Aggregate`, `Deltas`, `Regression`, `AbCompare`, `AbSwap`, `Percentile`, `CompositeQuality` | the score arithmetic |
| `PixelCanvas`, `ThreeWayDiff` | rasters drawn in place |
| `FetchRetry`, `MockServer`, `Utf8Size` | the retry loop, the mock server, UTF-8 sizing |

Files are values: a score file is an optional list of entries, the artifact tree two maps from paths to
manifests and image contents, metadata a map from fixture to screens. Thrown errors are `Err` results or a
`false` flag, and the specifications say what has already been written by then. Scores are reals;
`Math.round` is `floor(x + 0.5)`. `localeCompare` is any linear order on strings (`Ids.Collation`), and the
order in which a directory lists its names is any enumeration (`ArtifactTree.Listing`). Benchmarks, HTTP
responses and image fetches are arbitrary functions.

## What turned out not to hold

- **Stale screens.** A fixture's `screens/` directory is never purged. What a load returns after a run is
  exactly that run's artifacts if and only if every older slot was written again, or is a viewport slot of a
  screen the run wrote as a whole (`ReadYourWrites.ReadYourWritesExactly`). An older artifact of a screen as
  a whole even hides the viewport artifacts a run just wrote (`ReadYourWrites.RunArtifactHiddenExactly`).
  Saving a screen as a whole also deletes viewport slots named `browsers` or `pairwise`.
- **Stale screens win over the root.** Approving right after an update of a single-screen fixture takes the
  older artifact, not the new one, exactly when the screen still has artifacts of its own
  (`UpdateThenApprove.ApprovalRepeatsUpdateExactly`).
- **A diff that throws.** Version-1 metadata accepts any node id that is not blank, and an update of such a
  fixture succeeds; the diff then loads the artifacts of a screen of that name and throws unless the id is an
  allowed screen id. `CommandDiffs.UpdateThenDiff` gives the exact condition, and
  `FirstUpdate.InstanceNodesBreakTheDiff` the input: the node id `I1:2;3:4`.
- **Colliding score keys.** Fixture ids may contain `:`. Two fixtures can share a score key exactly when one
  id continues the other with `::` (`ScoreKeys.CollisionsAreExactlyContinuations`). A command that replaces
  all screens of a fixture leaves a written score alone at its key exactly when no stored entry of another
  fixture has that key (`CommandDiffs.UpdateHoldsOnceExactly`, `CommandDiffs.ApprovalHoldsOnceExactly`).
  Continuing ids alone are harmless (`CollidingKeys.ContinuationIsNotEnough`); screen `x::x` of fixture `web`
  and screen `x` of fixture `web::x` do share a key (`CollidingKeys.ClashExists`), and then the update leaves
  two scores there (`CollidingKeys.WrittenScoreIsNotAlone`) and a diff that stays pending
  (`CollidingKeys.DiffStaysPending`).
- **`__proto__`.** The canonical JSON form drops every property of that name, so a change beneath it is not
  reported as drift (`CanonicalJson.ProtoIsInvisible`).
- **Redirects and other odd statuses.** The retry loop retries every status that is neither ok nor a client
  error, 3xx included, and without waiting (`FetchRetry.Final` is the exact set of outcomes that end it).
- **Single viewports.** The per-screen aggregate passes a single score through unrounded, so it agrees with
  the other mean exactly on two-decimal scores (`Aggregate.SingleViewportAgreesExactly`).
- **Ties.** Half-up rounding is not odd at ties (`AbSwap.RoundingIsOddExactly`); composite weights sum to
  1.0001 exactly at a tie (`CompositeQuality.WeightsSumToAboutOne`). A negative tolerance can mark an
  unchanged score as improved from both sides (`AbSwap.IndicatorMirrorsExactly`).

## Model

| member | source | states |
|---|---|---|
| Ids.ScreenIdAccepts | integration/visual-benchmark.helpers.ts:589-608 | the screen guard accepts exactly non-empty strings of id characters and `:`, up to surrounding blanks, and returns them trimmed |
| Ids.ViewportIdAccepts | integration/visual-benchmark.helpers.ts:610-629 | the viewport guard likewise, without `:` |
| Ids.FixtureIdAccepts | integration/visual-benchmark.helpers.ts:561-587 | the fixture guard accepts exactly what, with backslashes turned and blanks trimmed, is non-empty, free of separators and of the three forbidden segments, and returns that |
| Ids.TrimDropsOnlySpace | integration/visual-benchmark.helpers.ts:561-608 | trimming removes blanks at both ends and nothing else |
| Ids.FixtureIdIsIdempotent | integration/visual-benchmark.helpers.ts:561-587 | a normalised fixture id is its own normal form, trimmed and non-empty |
| ScreenIdCodec.FromScreenIdToken | integration/visual-benchmark.helpers.ts:636-668 | the character loop with its fast path decodes a token as the recursive decoder does, errors included |
| ScreenIdCodec.FastPathAgrees | integration/visual-benchmark.helpers.ts:636-646 | for tokens without an escape, plain replacement equals full decoding |
| ScreenIdCodec.RoundTrip | integration/visual-benchmark.helpers.ts:631-668 | every allowed id is encoded into a non-empty `:`-free token that decodes to the trimmed id |
| ScreenIdCodec.TokensAreInjective | integration/visual-benchmark.helpers.ts:631-634 | two allowed ids share a token exactly when they are the same id |
| ScreenIdCodec.ReencodingIsExact | integration/visual-benchmark.helpers.ts:631-668 | re-encoding an accepted token gives the token back exactly when it holds no `:` |
| ScoreKeys.JoinIsInjective | integration/visual-benchmark-runner.ts:1146-1162 | with `:`-free fixtures and viewports a joined key determines all three parts, whatever the screen id holds |
| ScoreKeys.ScoreKeysSeparate | integration/visual-benchmark-runner.ts:1146-1162 | score keys coincide exactly when the defaulted ids do |
| ScoreKeys.CollisionsAreExactlyContinuations | integration/visual-benchmark-runner.ts:1146-1162 | without that restriction, two fixtures can collide exactly when one id continues the other with `::` |
| LiveImages.CacheKeysSeparate | integration/visual-audit.helpers.ts:32-35 | cache keys identify well-formed requests |
| LiveImages.FileKeysWithColonsCollide | integration/visual-audit.helpers.ts:32-35 | a file key with `:` makes two requests share a cache key |
| LiveImages.LiveImageCache.FetchCached | integration/visual-audit.ts:155-175 | a cached fetch returns what an uncached deterministic fetch would, and the cache stays sound |
| LiveImages.LiveImageCache.FetchAll | integration/visual-audit.ts:155-175 | over any sequence of requests sharing the cache, every answer is the uncached one |
| ScoreMerge.MergeScores | integration/visual-baseline.ts:250-266 | the map-building loop yields the kept entries and the replacements in canonical order, and throws exactly for an entry without a key |
| ScoreMerge.MergeIsKeyedOverride | integration/visual-baseline.ts:250-266 | seen through any key, a merge holds the replacements of that key if there are any and the existing entries otherwise; the result is sorted |
| ScoreMerge.FixtureMergeIsFixtureOverride | integration/visual-baseline.ts:355-373 | replacing a fixture leaves exactly the new scores in it and every other fixture as it was |
| ScoreMerge.MergeIsIdempotent | integration/visual-baseline.ts:250-266 | merging the same scores twice equals merging them once |
| ScoreMerge.FixtureMergeIsIdempotent | integration/visual-baseline.ts:355-373 | so does replacing a fixture twice |
| ScoreMerge.DisjointMergesCommute | integration/visual-baseline.ts:171-196 | merges of disjoint keys commute as sequences |
| Canonical.CanonFacts | integration/visual-benchmark-runner.ts:1117-1144 | canonicalising an entry is idempotent and keeps its key and score |
| Canonical.CanonicalFilesAreStable | integration/visual-benchmark-runner.ts:1164-1188 | a list in stored form is sorted, canonical, and unchanged by any later load or save |
| History.RunKeepsSuffix | integration/visual-benchmark-history.ts:360-391 | over any run of appends the stored entries are the latest of everything appended, in order, and as many as the limits allow |
| History.RemainingClosedForm | integration/visual-benchmark-history.ts:360-391 | the length that remains: no limit exceeded by more than the later appends, and one of the bounds attained |
| History.SaveThenLoadIsNormalisation | integration/visual-benchmark-history.ts:268-358 | a save followed by a load is one normalisation, idempotent and length-preserving |
| History.VisualRunIsWindow | integration/visual-benchmark-history.ts:360-391 | the visual history is that window over its normalised entries |
| History.VisualRunIsBounded | integration/visual-benchmark-history.ts:360-391 | after an accepted append it holds between one entry and the hard cap |
| History.CompositeRunIsWindow | integration/composite-quality.ts:849-898 | the composite history is the same window over its entries as given, with the same bounds |
| ArtifactTree.SavedExactly | integration/visual-benchmark-runner.ts:2161-2332 | after a save the four files hold the screenshot, reference, diff and report given and are absent otherwise, the manifest tells ids, names, score and time, the per-browser leftovers are gone, and every other path is as it was |
| ArtifactTree.SaveThenAt | integration/visual-benchmark-runner.ts:2161-2332 | the entry a save returns is the one a load of its directory finds |
| ArtifactLayout.LoadListsLayout | integration/visual-benchmark-runner.ts:1833-1925 | with the root clear, loading lists each visible slot of any screens layout once, by screen and viewport: a screen with an artifact of its own shows only that one |
| ArtifactLayout.ArtifactsInOrder | integration/visual-benchmark-runner.ts:1870-1900 | listed artifacts come by screen, then by viewport |
| PersistPhase.LastRunTree.Save | integration/visual-benchmark-runner.ts:2161-2332 | a save stores exactly what it was given, images included, and reports it; or it leaves the tree alone when an id is not allowed |
| PersistPhase.LastRunTree.DeleteLegacyRoot | integration/visual-benchmark-runner.ts:1698-1718 | afterwards nothing at the fixture root hides the screens layout, every screen slot of the fixture still shows what it showed, and other fixtures are untouched |
| PersistPhase.CleanedExactly | integration/visual-benchmark-runner.ts:1698-1718 | cleaning removes the five root files and everything below viewports/ of the given fixtures, and nothing else |
| PersistPhase.LastRunTree.CleanUp | integration/visual-benchmark-runner.ts:3897-3956 | cleaning fixtures one by one, in any order, cleans exactly those fixtures |
| PersistPhase.LastRunTree.Persist | integration/visual-benchmark-runner.ts:3897-3956 | the counting, cleaning and saving loops leave the specified tree, also when a save throws |
| PersistPhase.LastRunTree.Load | integration/visual-benchmark-runner.ts:1833-1925 | the shadowing chain of the load, as specified, errors included |
| PersistPhase.CountPerFixture | integration/visual-benchmark-runner.ts:3897-3956 | the counting loop counts the entries of each fixture |
| ReadYourWrites.ScreensReadBack | integration/visual-benchmark-runner.ts:1642-1680 | after a run, whatever layout the fixture had below screens/: one artifact per visible slot is listed, every slot of the run holds its artifact, every other remaining slot keeps the one it had, nothing of the legacy root survives, and the new layout is one the lemma applies to again |
| ReadYourWrites.ReadYourWritesExactly | integration/visual-benchmark-runner.ts:1833-1925 | what a load lists is what the run reported, each once, by screen and viewport, exactly when every older slot is covered |
| ReadYourWrites.VisibleIsRunExactly | integration/visual-benchmark-runner.ts:1833-1925 | covered means: written again, or a viewport slot of a screen written as a whole; only then are the visible slots those of the run |
| ReadYourWrites.RunArtifactHiddenExactly | integration/visual-benchmark-runner.ts:1833-1925 | an artifact the run wrote is missing from the load exactly when it belongs to a viewport of a screen that had an artifact of its own |
| ReadYourWrites.RootReadBack | integration/visual-benchmark-runner.ts:1833-1860 | a lone artifact without a viewport is read back from the legacy root, whatever else the tree holds |
| SavedImages.PersistKeepsContents | integration/visual-benchmark-runner.ts:3897-3956 | after the persist phase every artifact of the run holds its own screenshot, and exactly the reference, diff and report it came with |
| SavedImages.ListedImagesAreOwn | integration/visual-benchmark-runner.ts:1720-1786 | the paths of a run's artifact lead to that artifact's own contents, with a path exactly for what it had |
| SavedImages.LoadedArtifactsAreOwn | integration/visual-benchmark-runner.ts:1833-1925 | so whatever a load lists of a run shows the score, time and images of one of its inputs |
| ReadYourWrites.OtherFixturesUnchanged | integration/visual-benchmark-runner.ts:3897-3956 | a run never changes what loading another fixture returns |
| ArtifactReading.ScreenLoadsExactly | integration/visual-benchmark-runner.ts:1833-1880 | loading a screen throws exactly when its id is not allowed, or it has no artifact of its own and some directory below it is not named like a viewport |
| ArtifactReading.ArtifactsLoadExactly | integration/visual-baseline.ts:433-453 | with the fall-back to the whole fixture for a single-screen fixture that has nothing there |
| ArtifactReading.TidyArtifactsLoadExactly | integration/visual-baseline.ts:433-453 | in a tidy tree that is: exactly when the screen id is allowed |
| ArtifactReading.SavesKeepTidy | integration/visual-benchmark-runner.ts:2161-2332 | a save only ever adds directories that can be read back, so trees stay tidy |
| ArtifactReading.PersistKeepsTidy | integration/visual-benchmark-runner.ts:3897-3956 | and so does the persist phase, completed or not |
| BaselineStore.WrittenOnceExactly | integration/visual-benchmark-runner.ts:1946-2055 | at a key a command wrote, the stored list holds exactly the written entry if and only if no kept entry has that key |
| BaselineStore.CommitKeepsAgreement | integration/visual-baseline.ts:821-841 | committing the same scores to baseline and last run keeps every agreement between them and creates one at each written key |
| BaselineDiff.LastAtIsLast | integration/visual-baseline.ts:594-607 | a lookup yields the score of the last entry of the key, and nothing exactly when no entry has it |
| BaselineDiff.ResolutionKeepsKey | integration/visual-baseline.ts:638-661 | the screen the diff resolves for a written entry leads back to that entry's key |
| BaselineDiff.CommittedEntryIsNeutral | integration/visual-baseline.ts:571-584 | such an entry is neutral with delta 0 against the committed list |
| BaselineDiff.UntargetedCommitIsNeutral | integration/visual-baseline.ts:1160-1278 | an untargeted commit stores the same list twice, one entry per written score, every one of them neutral |
| BaselineDiff.RowsExistExactly | integration/visual-baseline.ts:1212-1278 | the rows of a diff can be computed exactly when every entry has metadata and its artifacts load; then there is one row per entry |
| BaselinePlan.PlanMembers | integration/visual-baseline.ts:310-328 | everything an update writes belongs to a targeted fixture and to a screen its metadata declares |
| BaselinePlan.ScoresAreFromCatalog | integration/visual-baseline.ts:330-353 | so every score entry it writes names such a screen |
| Baseline.BaselineKeeper.SavePlanned | integration/visual-baseline.ts:743-797 | the artifact loop saves the planned artifacts in order up to the first failure, an invalid screenshot or a refused id, and collects their scores |
| Baseline.BaselineKeeper.RunTargets | integration/visual-baseline.ts:712-819 | the fixture loop plans and saves each fixture in turn; a failure stops it with the earlier ones in place |
| Baseline.BaselineKeeper.SaveUpdate | integration/visual-baseline.ts:821-858 | both merges, then last run, baseline and history are saved in that order until one throws |
| Baseline.BaselineKeeper.Update | integration/visual-baseline.ts:675-866 | the whole new state and result of an update, failures included; the next rows say what these are |
| UpdateScores.UpdateWritesReports | integration/visual-baseline.ts:538-556 | the scores an update returns are, per target fixture and per target screen in order: none for a skipped screen, one per reported viewport with its id, label and score, otherwise the screen's own score; and nothing else |
| UpdateScores.PlanExistsExactly | integration/visual-baseline.ts:495-536 | a fixture's benchmark is accepted exactly when the fixture is known, its target screens are declared, the executor returns, and every target screen was reported |
| UpdateScores.PlanSavesReported | integration/visual-baseline.ts:758-797 | every artifact an update saves is that of a result reported for its screen |
| UpdateImages.UpdateHoldsResults | integration/visual-baseline.ts:455-493 | after a completed update every result no later one replaced is held with its own score, time, screenshot, diff image and report |
| StoreChanges.UpdateChangesStores | integration/visual-baseline.ts:821-841 | both files then hold what was written and every older entry the update does not replace (all, those of a fixture with several screens, or those of the written keys), once each, in stored form and order |
| StoreChanges.ApprovalChangesStores | integration/visual-baseline.ts:977-1004 | likewise after an approval |
| StoreChanges.StoredOrder | integration/visual-baseline.ts:171-196 | that order is by fixture, screen, viewport and screen name |
| StoreChanges.StoredKeepsEntry | integration/visual-benchmark-runner.ts:1946-1990 | the stored form keeps key, score, label and given name |
| StoreChanges.LegacyEntryIsPlaced | integration/visual-benchmark-runner.ts:1946-1990 | an older entry that names no screen gets its fixture's source node, or the fixture id when the fixture is unknown |
| StoreChanges.BaselineLoadsExactly | integration/visual-benchmark-runner.ts:1992-2034 | a loaded baseline has one entry for each in the file, in canonical form, completed from the metadata when the file is an older one |
| ApprovalMeaning.UpdateIsRecorded | integration/visual-baseline.ts:842-858 | the last history entry holds the update's scores under its own time |
| Baseline.BaselineKeeper.CollectScreen | integration/visual-baseline.ts:894-960 | the artifacts of one screen are taken in order, with the score each replaces; it throws when there is none, or when an image cannot be read or is no valid PNG |
| Baseline.BaselineKeeper.CollectApproval | integration/visual-baseline.ts:889-970 | the approval loop gathers scores, details and the latest run time over every target screen, and throws when a screen does |
| Baseline.BaselineKeeper.Approve | integration/visual-baseline.ts:868-1038 | the whole new state and result of an approval, its list of approvals and its failures included |
| ApprovalMeaning.ApprovalTells | integration/visual-baseline.ts:868-1038 | an approval writes one score per artifact of every target screen in order, each reporting the baseline score it replaces (last of its key, else of the fixture's legacy key, else none) and a readable, valid image; its time is that of the latest artifact, and the last history entry holds its scores under that time |
| ApprovalMeaning.LaterTime | integration/visual-baseline.ts:957-959 | the running time stays the latest |
| Baseline.BaselineKeeper.Diff | integration/visual-baseline.ts:1160-1278 | the rows of the diff and whether any is not neutral; it throws for an invalid target, an unreadable file, no selected entry, missing metadata, or artifacts that do not load |
| DiffMeaning.DiffTells | integration/visual-baseline.ts:1160-1278 | one row per last-run entry of the target, in order: its score against the last baseline score of its key or its fixture's legacy key, delta current minus baseline, improved above the tolerance, degraded below its negative, new exactly when the baseline has neither key, with the first artifact of its viewport; pending exactly when some row is improved, degraded or new |
| DiffMeaning.ScoreRowGrades | integration/visual-baseline.ts:571-584 | on two-decimal scores the delta is exactly current minus baseline, and the grade exactly which exceeds the other by more than the tolerance |
| DiffMeaning.NothingFoundExactly | integration/visual-baseline.ts:594-607 | a lookup fails exactly when the baseline has neither the exact nor the legacy key |
| BaselineRuns.CommittedReloads | integration/visual-benchmark-runner.ts:1992-2034 | files a command wrote load back as written, sorted and complete |
| BaselineRuns.CommitSucceeds | integration/visual-baseline.ts:821-841 | committing complete scores over loadable stores never throws |
| BaselineRuns.SavesReachBothFiles | integration/visual-baseline.ts:821-858 | once both files load, an update or approval writes both; only the history can still throw, and the two save orders end alike |
| BaselineRuns.RunFollowsPlan | integration/visual-baseline.ts:712-819 | a completed run saved exactly the planned writes, in order |
| BaselineRuns.RunsKeepAgreement | integration/visual-baseline.ts:675-1038 | over any run of updates and approvals, successful or not, the files stay loadable and no agreement between baseline and last run is lost |
| UpdateArtifacts.WrittenIsDiffableExactly | integration/visual-baseline.ts:1212-1243 | after an update, the row of a score it wrote exists exactly when the score's screen can be read |
| UpdateArtifacts.ApprovedIsDiffable | integration/visual-baseline.ts:1212-1243 | the rows of approved scores always exist |
| UpdateArtifacts.CommandsKeepTidy | integration/visual-baseline.ts:675-1038 | over any run of commands a tidy tree stays tidy |
| CommandDiffs.UpdateThenDiff | integration/visual-baseline.ts:1160-1278 | after an untargeted update that scored something under distinct keys, the diff can be computed exactly when every screen it wrote can be read; then it has one row per score and nothing is pending |
| CommandDiffs.UpdateThenDiffOnTidyTrees | integration/visual-baseline.ts:1160-1278 | in a tidy tree that is: exactly when every screen id is allowed |
| CommandDiffs.DiffOnTidyTreesExactly | integration/visual-baseline.ts:1160-1278 | any diff over a tidy tree can be computed exactly when its target is valid, both files load, something is selected, and every selected entry has metadata and an allowed screen |
| CommandDiffs.UpdateHoldsOnceExactly | integration/visual-baseline.ts:675-866 | each entry an update wrote is alone at its key in both files exactly when it was merged by key, or no stored entry of another fixture has that key |
| CommandDiffs.UpdateIsNeutral | integration/visual-baseline.ts:675-866 | such an entry is in the last run, and neutral with delta 0 in the diff |
| CommandDiffs.ApprovalHoldsOnceExactly | integration/visual-baseline.ts:868-1038 | the same condition for each entry an approval wrote |
| CommandDiffs.SharedKeyStaysPending | integration/visual-baseline.ts:571-607 | when a replaced fixture writes a score further from one held at the same key than twice the tolerance plus 0.01, no whole diff is clean |
| CommandDiffs.ApprovalIsNeutral | integration/visual-baseline.ts:868-1038 | and what it wrote alone is neutral with delta 0 |
| BaselineRuns.UpdateSucceedsExactly | integration/visual-baseline.ts:675-866 | an update returns exactly when its target is valid, both score files load, every benchmark runs and saves, and the history accepts the entry |
| BaselineRuns.ApproveSucceedsExactly | integration/visual-baseline.ts:868-1038 | an approval returns exactly when its target is declared, both score files load, every target screen has artifacts with usable images, and the history accepts the entry |
| BaselineRuns.HistoryAcceptsExactly | integration/visual-benchmark-history.ts:317-391 | the history accepts an entry exactly when it can be read, the limit is in range, the time is not blank and every id is allowed |
| HistoryRuns.HistoryOfRun | integration/visual-benchmark-history.ts:317-391 | over any run of commands, failed ones included, the loaded history is the latest part of the old history and the entries of the commands that returned, cut to the configured size |
| HistoryRuns.UnreadableHistoryBlocks | integration/visual-benchmark-history.ts:317-391 | an unreadable history is never changed, and no command returns while it is |
| FirstUpdate.FirstUpdateSucceeds | integration/visual-baseline.ts:675-866 | the first update of a one-fixture repository returns its one score for every node id that is not blank |
| FirstUpdate.FirstDiffOnTidyTrees | integration/visual-baseline.ts:1160-1278 | the diff after it can be computed exactly when the node id is an allowed screen id |
| FirstUpdate.InstanceNodesBreakTheDiff | integration/visual-baseline.ts:1234-1239 | the node id of an instance child makes the update succeed and the diff throw |
| CommandDiffs.ApartFixturesAreUnshared | integration/visual-benchmark-runner.ts:1146-1162 | stored fixtures whose ids do not continue the written one never share its keys |
| CollidingKeys.ClashExists | integration/visual-benchmark-runner.ts:1146-1162 | two screens of different fixtures with one key |
| CollidingKeys.ContinuationIsNotEnough | integration/visual-benchmark-runner.ts:1146-1162 | two fixtures whose ids continue each other, with screens whose keys differ |
| CollidingKeys.WrittenScoreIsNotAlone | integration/visual-baseline.ts:355-373 | whenever two such screens clash, replacing one fixture succeeds and leaves both scores at the key |
| CollidingKeys.DiffStaysPending | integration/visual-baseline.ts:1160-1278 | and no diff afterwards is clean while the tolerance is below 39 |
| UpdateThenApprove.UpdateThenApproveExactly | integration/visual-baseline.ts:433-453 | after an update with one result and no viewport, an approval finds exactly the artifact just saved, holding the reported screenshot, unless a single-screen fixture has older artifacts of its screen: then it finds those |
| UpdateThenApprove.ApprovalRepeatsUpdateExactly | integration/visual-baseline.ts:868-1038 | so it writes the update's own score from the update's own image exactly in the other cases |
| BaselineStore.KeyedScopesAreFresh | integration/visual-baseline.ts:250-266 | merging key by key never keeps a written key |
| CanonicalJson.CanonicalFormDecides | integration/visual-benchmark.helpers.ts:141-157 | two parsed documents have equal canonical forms exactly when they are equal up to key order at every level, `__proto__` aside |
| CanonicalJson.LookupsSurvive | integration/visual-benchmark.helpers.ts:141-157 | a canonical object holds exactly the visible keys, each with the canonical value |
| CanonicalJson.PathsSurvive | integration/visual-benchmark.helpers.ts:141-157 | a path of keys and positions leads to the canonical form of what it led to before, at any depth |
| CanonicalJson.StableIsIdempotent | integration/visual-benchmark.helpers.ts:141-157 | canonicalising twice changes nothing, and keys come out sorted |
| CanonicalJson.ProtoIsInvisible | integration/visual-benchmark.update.ts:938-940 | a difference under `__proto__` alone is not seen by the drift check |
| Aggregate.ComputeAggregateScore | integration/visual-benchmark.helpers.ts:670-701 | both branches compute the rounded weighted mean with an undeclared weight counting as one; errors exactly for no screens or a non-positive weight |
| Aggregate.PlainMean | integration/visual-benchmark.helpers.ts:683-686 | the unweighted branch is the weighted mean of unit weights |
| Aggregate.MeanBalances | integration/visual-benchmark.helpers.ts:670-701 | the mean is where the scores balance, each pulling by its weight or by one |
| Aggregate.NormalizeWeights | integration/visual-quality-config.ts:374-408 | the weights over their sum, or the specified error |
| Aggregate.NormalizedWeightsSumToOne | integration/visual-quality-config.ts:374-408 | normalised weights sum to 1 |
| Aggregate.NormalizedWeightsKeepProportions | integration/visual-quality-config.ts:374-408 | they are positive and, times the sum, the declared weights |
| Aggregate.ComputeViewportAggregate | integration/visual-benchmark.execution.ts:983-1013 | the viewport loop computes the specified aggregate, errors included |
| Aggregate.PathsAgree | integration/visual-benchmark.execution.ts:983-1013 | for two or more viewports weighted all or not at all, both aggregates coincide, errors included |
| Aggregate.SingleViewportAgreesExactly | integration/visual-benchmark.execution.ts:995-997 | for one viewport they coincide exactly on two-decimal scores |
| Aggregate.AggregateIsBounded | integration/visual-benchmark.helpers.ts:670-701 | the aggregate lies between the rounded extremes and within 0.005 of the exact mean |
| Aggregate.OrderIsIrrelevant | integration/visual-benchmark.helpers.ts:670-701 | permuting the screens changes neither value nor error |
| Aggregate.ScalingIsIrrelevant | integration/visual-benchmark.helpers.ts:670-701 | multiplying all weights by a positive factor changes neither value nor error |
| Deltas.BuildScreenAggregates | integration/visual-benchmark-runner.ts:416-454 | the grouping loops yield the screens in order of first appearance with the rounded mean of each |
| Deltas.ComputeOverall | integration/visual-benchmark-runner.ts:2517-2565 | the overall values, over all current screens and over the screens both sides have |
| Deltas.ComputeDeltas | integration/visual-benchmark-runner.ts:2455-2575 | the whole comparison, errors included |
| Deltas.DeltasTell | integration/visual-benchmark-runner.ts:2455-2516 | each delta is the current score minus the last baseline score of its key, up, down or level as it leaves the tolerance, unavailable without one |
| Deltas.OverallDeltaTells | integration/visual-benchmark-runner.ts:2536-2565 | the overall delta is the current minus the baseline mean over the screens both sides have, present exactly when there are any |
| Deltas.SelfComparisonIsLevel | integration/visual-benchmark-runner.ts:2455-2575 | scores compared with the baseline saved from them: every delta 0 and level, equal overall values, overall delta 0 |
| Deltas.ExtraBaselineScreensAreIgnored | integration/visual-benchmark-runner.ts:2536-2565 | dropping the entries of screens the current scores lack from any baseline, wherever they stand, changes no overall value |
| Regression.Detect | integration/visual-benchmark-regression.ts:73-158 | the summaries and alerts of all candidates in order, or the configuration error |
| Regression.SummariesReport | integration/visual-benchmark-regression.ts:79-139 | each summary has the change, its direction and the percent of a positive baseline lost |
| Regression.AlertsWarn | integration/visual-benchmark-regression.ts:141-154 | each alert is about one candidate's drop in percent and names the limit it exceeds |
| Regression.RaisingScoresNeverAlerts | integration/visual-benchmark-regression.ts:110-155 | raising current scores never makes a position alert and never adds an alert |
| Regression.AlertsOnTheGrid | integration/visual-benchmark-regression.ts:110-155 | on two-decimal scores an alert means exactly a drop beyond the tolerance in points and the limit in percent of a positive baseline |
| Regression.FreshBaselineRaisesNoAlert | integration/visual-benchmark-runner.ts:3804-3818 | scores compared with the baseline saved from them raise no alert under any configuration |
| Indexing.BuildIndex | integration/visual-benchmark-ab.ts:276-284 | filling the map leaves each key's last entry, keys in order of first appearance |
| Indexing.MergeKeys | integration/visual-benchmark-ab.ts:447-449 | the set of all keys in insertion order, the first side first |
| AbCompare.ComputeStatistics | integration/visual-benchmark-ab.ts:303-362 | the one-pass loop computes the counts, sums, means and extremes |
| AbCompare.CountsPartition | integration/visual-benchmark-ab.ts:303-362 | improved, degraded, neutral and unavailable entries add up to the total, compared and unavailable too |
| AbCompare.BestIsExtreme | integration/visual-benchmark-ab.ts:323-329 | the best improvement is the largest improving delta, absent exactly when nothing improved |
| AbCompare.WorstIsExtreme | integration/visual-benchmark-ab.ts:330-335 | the worst regression is the smallest degrading delta, absent exactly when nothing degraded |
| AbCompare.SanitizedKeepsKey | integration/visual-benchmark-ab.ts:415-426 | sanitising an entry's ids keeps its key |
| AbCompare.JoinEntries | integration/visual-benchmark-ab.ts:450-484 | the join loop yields one entry per key, each B against A, or throws for an id that is not allowed |
| AbCompare.Compare | integration/visual-benchmark-ab.ts:442-524 | every entry has each side's last score of its key, delta B minus A, improved when B exceeds A by more than the tolerance and degraded when A exceeds B, exactly so on two-decimal scores; the overall delta is overall B minus overall A |
| AbCompare.FullOuterJoin | integration/visual-benchmark-ab.ts:447-485 | exactly one entry per key of either side, with each side's last score, and a delta exactly when both have one |
| AbCompare.ShownFromA | integration/visual-benchmark-ab.ts:450-484 | names and labels come from side A, and from side B only for a key A lacks |
| AbCompare.EntriesInOrder | integration/visual-benchmark-ab.ts:286-301 | entries come by fixture, screen and viewport |
| AbCompare.StatisticsReport | integration/visual-benchmark-ab.ts:303-362 | the reported means are over compared and improving entries, and every figure is rounded to two decimals |
| AbSwap.SwapExchangesCounts | integration/visual-benchmark-ab.ts:253-362 | on two-decimal scores, swapping the sides exchanges improved with degraded and keeps the other counts |
| AbSwap.SwapNegatesNetChange | integration/visual-benchmark-ab.ts:303-362 | and negates the net change |
| AbSwap.SwapExchangesExtremes | integration/visual-benchmark-ab.ts:303-362 | and turns the worst regression into the best improvement |
| AbSwap.SwapMirrorsEntries | integration/visual-benchmark-ab.ts:450-484 | and mirrors every entry: scores exchanged, delta negated, indicator reversed |
| AbSwap.RoundingIsOddExactly | integration/visual-benchmark-ab.ts:250-251 | rounding commutes with negation exactly away from ties |
| AbSwap.IndicatorMirrorsExactly | integration/visual-benchmark-ab.ts:253-267 | the indicator mirrors exactly when no negative tolerance exceeds the change |
| Percentile.PercentileHasRank | integration/paste-delta-benchmark.ts:337-349 | the percentile is the one element with at least ceil(n*p) values at or below it and fewer than max(1, ceil(n*p)) below it |
| Percentile.PercentileIsMonotone | integration/paste-delta-benchmark.ts:337-349 | it grows with p |
| Percentile.SummaryIsOrdered | integration/paste-delta-benchmark.ts:351-363 | min <= p50 <= p80 <= max and min <= mean <= max, after rounding |
| Percentile.SummaryIsAccurate | integration/paste-delta-benchmark.ts:351-363 | each figure is within half a thousandth of the extreme, mean or percentile it is called |
| Percentile.MeanBalances | integration/paste-delta-benchmark.ts:337-342 | the mean is where the durations balance |
| CompositeQuality.WeightsSumToAboutOne | integration/composite-quality.ts:126-186 | each resolved weight is within 0.00005 of its exact share, and they sum to 1, or to 1.0001 exactly at a tie |
| CompositeQuality.WeightsAreRoundedShares | integration/composite-quality.ts:126-186 | every accepted configuration resolves to a share in 0..1 and its complement, rounded |
| CompositeQuality.SharesOfConfiguration | integration/composite-quality.ts:126-186 | the visual share is the visual weight over both, a missing weight complements the other, and without any it is three fifths |
| CompositeQuality.RefusedExactly | integration/composite-quality.ts:143-180 | refused exactly for a weight outside 0..1 or two zero weights |
| CompositeQuality.TiesOccur | integration/composite-quality.ts:182-185 | a configuration whose weights sum to 1.0001 |
| CompositeQuality.CompositeIsBounded | integration/composite-quality.ts:188-241 | a composite lies between the rounded scores, up to the factor 1.0001 at a tie |
| CompositeQuality.CompositeIsAccurate | integration/composite-quality.ts:188-241 | and within 0.015 of the exact visual share of the visual score plus the rest of the performance score |
| CompositeQuality.MissingDimensionCountsAlike | integration/composite-quality.ts:205-230 | away from ties, leaving a dimension out scores the same as counting the other score for both, and always within 0.02 of it |
| PixelCanvas.Fill | integration/visual-benchmark-ab.ts:755-765 | every pixel gets the colour, opaque |
| PixelCanvas.SafeBox | integration/visual-benchmark.execution.ts:550-565 | a crop box is clamped to a non-empty box inside the source |
| PixelCanvas.SafeBoxKeepsInnerBoxes | integration/visual-benchmark.execution.ts:550-565 | it is left alone exactly when it already is one |
| PixelCanvas.SafeBoxIsNearest | integration/visual-benchmark.execution.ts:550-565 | any other box starts at the nearest pixel of the source and keeps its extent as far as it fits |
| PixelCanvas.Crop | integration/visual-benchmark.execution.ts:550-565 | the crop is a verbatim copy of that box |
| PixelCanvas.NormalizeToCanvas | integration/visual-benchmark.execution.ts:567-592 | requested size, verbatim top-left overlap, transparent rest, and a warning exactly when clipped |
| ThreeWayDiff.ComputeDivergenceRatio | integration/visual-benchmark-ab.ts:767-785 | the running extremes give the largest side over the smallest |
| ThreeWayDiff.ExtremesAreAttained | integration/visual-benchmark-ab.ts:767-785 | those extremes bound every side and are sides |
| ThreeWayDiff.DivergenceIsPairwise | integration/visual-benchmark-ab.ts:767-785 | the test accepts exactly when no side exceeds any other by more than the limit |
| ThreeWayDiff.PlaceholderIsTight | integration/visual-benchmark-ab.ts:849-862 | for non-empty images the placeholder is the least size covering them, and the fallback size is never used |
| ThreeWayDiff.PanelsFit | integration/visual-benchmark-ab.ts:866-886 | the three panels lie inside the canvas, do not overlap, and are centred up to one row |
| ThreeWayDiff.PanelsInOrder | integration/visual-benchmark-ab.ts:866-886 | reference, output A and output B from left to right, one gap apart, each of its source's size |
| ThreeWayDiff.RefusedExactly | integration/visual-benchmark-ab.ts:735-879 | refused exactly when an image is empty or above 4,194,304 pixels, none is present, the sides are too far apart, or the canvas would exceed 16,777,216 pixels |
| ThreeWayDiff.DrawAt | integration/visual-benchmark-ab.ts:880-883 | drawing a source fills its panel verbatim and touches nothing else |
| ThreeWayDiff.DrawPanels | integration/visual-benchmark-ab.ts:866-886 | after all three draws each panel still shows its source and the rest is background |
| ThreeWayDiff.Compose | integration/visual-benchmark-ab.ts:787-888 | a mosaic of at most 16,777,216 pixels showing each present source, placeholders for the others and opaque background elsewhere; refused exactly for the specified reasons, checked in order |
| FetchRetry.FetchWithRetry | integration/visual-benchmark.update.ts:283-331 | it stops at the first final outcome or after maxRetries + 1 calls, returns or throws by the last outcome, and sleeps once per non-final 429 |
| FetchRetry.CallCountIsUnique | integration/visual-benchmark.update.ts:283-331 | those conditions determine the number of calls |
| FetchRetry.WaitsAreBounded | integration/visual-benchmark.update.ts:218-234 | one wait per rate-limited attempt, each at most a minute |
| FetchRetry.TotalSleepIsBounded | integration/visual-benchmark.update.ts:265-331 | at most a minute per allowed retry in all |
| FetchRetry.SuccessExactly | integration/visual-benchmark.update.ts:283-331 | it succeeds exactly when an allowed attempt is ok and nothing final precedes it |
| FetchRetry.StatusesDecide | integration/visual-benchmark.update.ts:283-331 | 2xx succeeds, 429 is waited for, other 4xx are final, everything else is tried again |
| FetchRetry.BudgetOnlyExtends | integration/visual-benchmark.update.ts:283-331 | a larger budget never loses a success |
| FetchRetry.ServerDelayIsHonoured | integration/visual-benchmark.update.ts:218-234 | a server that asks for n seconds gets them, up to a minute |
| FetchRetry.BackoffDoublesToTheCap | integration/visual-benchmark.update.ts:218-234 | otherwise the first wait is a second, waits double, and from the seventh attempt on they are capped at a minute |
| MockServer.PortIsIgnored | integration/mcp-mock-server.ts:161-167 | a host is admitted exactly when what precedes its first colon is the loopback address |
| MockServer.RejectionsInOrder | integration/mcp-mock-server.ts:290-349 | 403 for a foreign host, then 405 for a method other than POST, 400 for a body without a tool name, 404 for an unknown tool |
| MockServer.FailuresSayWhy | integration/mcp-mock-server.ts:185-266 | what each failing scenario answers, and that a rate limit always says when to come back |
| MockServer.MockMcpServer.SetScenario | integration/mcp-mock-server.ts:439-444 | unknown tools are refused; otherwise the tool starts a fresh budget |
| MockServer.MockMcpServer.Reset | integration/mcp-mock-server.ts:445-447 | every tool is forgotten |
| MockServer.MockMcpServer.ShouldApplyFailure | integration/mcp-mock-server.ts:173-183 | spends one failure while the budget lasts; no budget never runs out |
| MockServer.MockMcpServer.HandleRequest | integration/mcp-mock-server.ts:185-349 | rejections in order without any effect on budgets; otherwise the reply the history calls for, other tools untouched |
| MockServer.ScenarioHolds | integration/mcp-mock-server.ts:436-448 | a scenario stays until the tool is set again or the server reset, and only the tool's own accepted requests count |
| MockServer.NthRequestFailsExactly | integration/mcp-mock-server.ts:173-266 | the n-th such request fails exactly when the budget is absent or n is within it |
| MockServer.FailuresAreTheBudgetSpent | integration/mcp-mock-server.ts:173-183 | the failures caused are exactly the budget spent, never more than failTimes |
| MockServer.ResetHeals | integration/mcp-mock-server.ts:445-447 | after a reset every tool succeeds |
| Utf8Size.Utf8ByteLength | plugin/code.ts:238-256 | the loop computes the number of octets of the UTF-8 encoding (section 3 of RFC 3629), three for a lone surrogate |
| Utf8Size.EncodeRoundTrip | plugin/code.ts:245-254 | the octets of a code point decode to it, the lead octet announces their number and the others are continuation octets |
| Utf8Size.EncodingIsShortest | plugin/code.ts:245-254 | no shorter sequence of octets stands for the code point |
| Utf8Size.StringRoundTrip | plugin/code.ts:238-256 | the octets of a string determine the string |
| Utf8Size.SizeIsBounded | plugin/code.ts:238-256 | n units take between n and 3n octets |
| Utf8Size.AsciiIsExact | plugin/code.ts:238-256 | and exactly n when all are ASCII, and only then |
| Utf8Size.SizeOfConcat | plugin/code.ts:238-256 | sizes add up, except that joining a split surrogate pair saves two octets |

## Left out

- The file system, JSON text, zod schemas, the PNG codec and HTTP itself: the model starts from parsed values, decoded rasters and arbitrary outcomes.
- Floating-point error and number printing: scores and weights are reals.
- The details of `localeCompare` and the integer-first key order of JavaScript objects: any linear order on strings stands for both.
- Log messages, tables, Markdown and CLI parsing, wall-clock times, metadata updates (`capturedAt`, viewport size) and the status command.
- Ages and display names in diff rows, and the names and labels repeated in the list of approvals.
- Writing reference images and fixture metadata: the model knows when an image is refused, but not the files themselves, nor a disk that fails while they, or any others, are written.
- Baseline.BaselineKeeper.Update: a fixture id that is not in normal form is treated as unknown, where the original would look it up after trimming; metadata is assumed to be what its loader guarantees (allowed fixture ids, screen ids that are not blank).
- ReadYourWrites.ReadYourWritesExactly: a run with allowed ids and one artifact per fixture, screen and viewport is presumed, and no run writes both a screen as a whole and its viewports. The older layout is arbitrary.
- UpdateThenApprove.ApprovalRepeatsUpdateExactly: results with viewports are left to the theorems about screens layouts.
- Empty directories: the tree lists a directory only while something is in it.
- The artifacts of pairwise browser comparisons, manifest modes and thresholds.
- Explicit screen aggregates passed to `computeVisualBenchmarkDeltas`: Deltas models the values derived from the scores.
- Deltas.ComputeDeltas: the error for ids that are not allowed is raised before any delta is computed, where the original raises it at the first such entry; no state is involved.
- AbCompare.Compare: labels and warnings of the two configurations.
- AbSwap.SwapMirrorsEntries: the order of the swapped entries and the display metadata, which come from whichever side is first.
- ThreeWayDiff.Compose: the byte-size limit of the inputs, and a raster is addressed by row and column instead of one flat byte buffer; gaps are whole and not negative.
- PixelCanvas.Bitblt: stands for the copy of the PNG library, which is not part of this model.
- MockServer.MockMcpServer.HandleRequest: payload contents and the streaming of request bodies; `failTimes` is a whole number. Dispatch is atomic here, as the budget is read and spent without yielding in the original.
- FetchRetry.FetchWithRetry: an exception thrown by the sleep itself.
- The snapshot cache of the visual audit, which has the same shape as the image cache.
- Threshold resolution in layers, which checks the order of warn and fail thresholds per layer only.
- The lighthouse performance score, the customer-board pipeline, cross-browser consistency, storybook capture and the release scripts.
