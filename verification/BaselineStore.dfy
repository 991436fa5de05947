/** Stored baseline and last-run scores: how they are loaded, how a command commits freshly written
    scores to both, and how the two are compared. */
module BaselineStore {
  import opened Basics
  import opened StableSort
  import opened Ids
  import opened ScoreKeys
  import opened ScoreMerge
  import opened Canonical
  import opened ArtifactTree

  // ---- Fixture metadata ------------------------------------------------------------------------

  datatype Screen = Screen(screenId: string, screenName: string)

  /** Fixture metadata; no declared screens stands for the single-screen (version 1) form. */
  datatype Metadata = Metadata(sourceNodeId: string, sourceNodeName: string, screens: seq<Screen>)

  type Catalog = map<string, Metadata>

  /** enumerateFixtureScreens. */
  function EnumerateScreens(m: Metadata): (r: seq<Screen>)
    ensures r != []
  {
    if m.screens != [] then m.screens else [Screen(m.sourceNodeId, m.sourceNodeName)]
  }

  /** What the metadata loader guarantees: directory names are normalised fixture ids, ids are not blank. */
  ghost predicate ValidCatalog(catalog: Catalog) {
    forall f :: f in catalog ==>
      (FixtureId(f) == Ok(f) && forall s :: s in EnumerateScreens(catalog[f]) ==> Trim(s.screenId) != [])
  }

  /** What the commands take as given: the order of strings, the fixtures and their metadata, the
      regression configuration, the order of directory listings, and which images are valid PNGs. */
  datatype Setting = Setting(
    c: Collation, catalog: Catalog, fixtureIds: seq<string>, tolerance: real, historySize: int,
    listing: Listing, isPng: nat -> bool)

  function FindScreen(screens: seq<Screen>, screenId: string): Option<Screen> {
    if screens == [] then None
    else if screens[0].screenId == screenId then Some(screens[0])
    else FindScreen(screens[1..], screenId)
  }

  // ---- Files -----------------------------------------------------------------------------------

  datatype BaselineFile = BaselineFile(version: int, scores: seq<ScoreEntry>)

  /** normalizeScoreEntryWithMetadata: an entry without a screen gets the fixture's source node. */
  function WithMetadata(catalog: Catalog, e: ScoreEntry): ScoreEntry {
    var canonical := Canon(e);
    var provided := NonBlank(e.screenId);
    var context := ScreenContext(catalog, canonical.fixtureId, provided.GetOr(canonical.fixtureId));
    var screenId := if provided.Some? then provided
                    else if context.Some? then Some(context.value.screenId)
                    else Some(canonical.fixtureId);
    var screenName := if NonBlank(e.screenName).Some? then NonBlank(e.screenName)
                      else if context.Some? then NonBlank(Some(context.value.screenName))
                      else None;
    canonical.(screenId := screenId, screenName := screenName)
  }

  function ScreenContext(catalog: Catalog, f: string, screenId: string): Option<Screen> {
    if f !in catalog then None
    else if FindScreen(catalog[f].screens, screenId).Some? then FindScreen(catalog[f].screens, screenId)
    else Some(Screen(catalog[f].sourceNodeId, catalog[f].sourceNodeName))
  }

  function AllWithMetadata(catalog: Catalog, scores: seq<ScoreEntry>): seq<ScoreEntry> {
    if scores == [] then []
    else AllWithMetadata(catalog, scores[..|scores| - 1]) + [WithMetadata(catalog, scores[|scores| - 1])]
  }

  /** normalizeScoresWithMetadata: what both save functions write. */
  function SavedScores(c: Collation, catalog: Catalog, scores: seq<ScoreEntry>): Result<seq<ScoreEntry>> {
    if FixturesAllowed(scores) then SortCanonical(c, AllWithMetadata(catalog, scores)) else Err("fixture id")
  }

  /** loadVisualBenchmarkBaseline(...)?.scores ?? []. */
  function LoadedBaseline(c: Collation, catalog: Catalog, file: Option<BaselineFile>): Result<seq<ScoreEntry>> {
    match file
    case None => Ok([])
    case Some(f) => if f.version == 3 then SortCanonical(c, f.scores) else SavedScores(c, catalog, f.scores)
  }

  /** loadVisualBenchmarkLastRun(...)?.scores ?? []. */
  function LoadedLastRun(c: Collation, file: Option<seq<ScoreEntry>>): Result<seq<ScoreEntry>> {
    match file
    case None => Ok([])
    case Some(scores) => SortCanonical(c, scores)
  }

  // ---- Committing written scores ---------------------------------------------------------------

  /** Which stored scores a command replaces: everything, or those of one fixture. */
  datatype Scope = Everything | Fixture(fixtureId: string, replaceAllScreens: bool)

  /** The scores before saving: written over stored, in canonical order. */
  function MergedInScope(c: Collation, stored: seq<ScoreEntry>, written: seq<ScoreEntry>, scope: Scope): Result<seq<ScoreEntry>> {
    match scope
    case Everything => Ok(SortScores(c, written))
    case Fixture(f, all) => MergedForFixture(c, stored, written, f, all)
  }

  /** The scores a command stores after writing `written` over `stored`. */
  function Committed(c: Collation, catalog: Catalog, stored: seq<ScoreEntry>, written: seq<ScoreEntry>, scope: Scope)
    : Result<seq<ScoreEntry>>
  {
    var merged :- MergedInScope(c, stored, written, scope);
    SavedScores(c, catalog, merged)
  }

  /** The stored entries a scope keeps. */
  function Kept(stored: seq<ScoreEntry>, written: seq<ScoreEntry>, scope: Scope): seq<ScoreEntry> {
    match scope
    case Everything => []
    case Fixture(f, true) => Filter(FixtureOutside(NormalFixture(f)), stored)
    case Fixture(_, false) => Filter(KeyOutside(Keys(written)), stored)
  }

  lemma CommittedIsKeptPlusWritten(
      c: Collation, catalog: Catalog, stored: seq<ScoreEntry>, written: seq<ScoreEntry>, scope: Scope)
    requires Committed(c, catalog, stored, written, scope).Ok?
    ensures Committed(c, catalog, stored, written, scope)
         == SavedScores(c, catalog, SortScores(c, Kept(stored, written, scope) + written))
  {
    if scope == Everything {
      assert [] + written == written;
    }
  }

  /** An entry as commands write it: for a fixture of the catalogue, naming its screen. */
  ghost predicate Complete(e: ScoreEntry) {
    FixtureId(e.fixtureId).Ok? && NonBlank(e.screenId).Some?
  }

  lemma MetadataKeepsKey(catalog: Catalog, e: ScoreEntry)
    requires Complete(e)
    ensures KeyOf(WithMetadata(catalog, e)) == KeyOf(e) && WithMetadata(catalog, e).score == e.score
    ensures Complete(WithMetadata(catalog, e)) && NonBlank(WithMetadata(catalog, e).screenId) == NonBlank(e.screenId)
    ensures WithMetadata(catalog, e).fixtureId == NormalFixture(e.fixtureId)
  {
    CanonFacts(e);
    FixtureIdIsIdempotent(e.fixtureId);
    NonBlankFacts(e.screenId);
    NonBlankFacts(e.viewportId);
  }

  /** The form in which an entry ends up in a file. */
  function Stored(catalog: Catalog, e: ScoreEntry): ScoreEntry {
    Canon(WithMetadata(catalog, e))
  }

  function StoredAll(catalog: Catalog, scores: seq<ScoreEntry>): seq<ScoreEntry> {
    if scores == [] then []
    else StoredAll(catalog, scores[..|scores| - 1]) + [Stored(catalog, scores[|scores| - 1])]
  }

  lemma StoredKeepsKey(catalog: Catalog, e: ScoreEntry)
    requires Complete(e)
    ensures KeyOf(Stored(catalog, e)) == KeyOf(e) && Stored(catalog, e).score == e.score
    ensures Stored(catalog, e).fixtureId == NormalFixture(e.fixtureId)
    ensures Stored(catalog, e).screenId == NonBlank(e.screenId)
    ensures Stored(catalog, e).viewportId == NonBlank(e.viewportId)
    ensures IsCanonical(Stored(catalog, e))
  {
    MetadataKeepsKey(catalog, e);
    CanonFacts(WithMetadata(catalog, e));
    FixtureIdIsIdempotent(e.fixtureId);
    NonBlankFacts(e.screenId);
    NonBlankFacts(e.viewportId);
  }

  lemma CanonAllSnoc(scores: seq<ScoreEntry>, e: ScoreEntry)
    ensures CanonAll(scores + [e]) == CanonAll(scores) + [Canon(e)]
  {
  }

  lemma AllowedSnoc(scores: seq<ScoreEntry>, e: ScoreEntry)
    requires FixturesAllowed(scores) && FixtureId(e.fixtureId).Ok?
    ensures FixturesAllowed(scores + [e])
  {
  }

  /** Saving complete entries sorts their stored forms. */
  lemma SavedIsStored(c: Collation, catalog: Catalog, scores: seq<ScoreEntry>)
    requires forall e :: e in scores ==> Complete(e)
    ensures FixturesAllowed(AllWithMetadata(catalog, scores))
    ensures CanonAll(AllWithMetadata(catalog, scores)) == StoredAll(catalog, scores)
    ensures SavedScores(c, catalog, scores) == Ok(SortScores(c, StoredAll(catalog, scores)))
  {
    WithMetadataIsStored(catalog, scores);
    CompleteIsAllowed(scores);
  }

  lemma CompleteIsAllowed(scores: seq<ScoreEntry>)
    requires forall e :: e in scores ==> Complete(e)
    ensures FixturesAllowed(scores)
  {
  }

  lemma {:induction false} WithMetadataIsStored(catalog: Catalog, scores: seq<ScoreEntry>)
    requires forall e :: e in scores ==> Complete(e)
    ensures FixturesAllowed(AllWithMetadata(catalog, scores))
    ensures CanonAll(AllWithMetadata(catalog, scores)) == StoredAll(catalog, scores)
  {
    if scores != [] {
      var init, last := scores[..|scores| - 1], scores[|scores| - 1];
      assert last in scores && forall e :: e in init ==> e in scores;
      WithMetadataIsStored(catalog, init);
      MetadataKeepsKey(catalog, last);
      AllowedSnoc(AllWithMetadata(catalog, init), WithMetadata(catalog, last));
      CanonAllSnoc(AllWithMetadata(catalog, init), WithMetadata(catalog, last));
    }
  }

  lemma StoredAllSnoc(catalog: Catalog, scores: seq<ScoreEntry>, e: ScoreEntry)
    ensures StoredAll(catalog, scores + [e]) == StoredAll(catalog, scores) + [Stored(catalog, e)]
  {
    assert (scores + [e])[..|scores|] == scores;
  }

  lemma KeyTestSurvives(catalog: Catalog, key: Result<string>, e: ScoreEntry)
    requires Complete(e)
    ensures KeyIs(key)(Stored(catalog, e)) == KeyIs(key)(e)
  {
    StoredKeepsKey(catalog, e);
  }

  lemma FilterStored(catalog: Catalog, scores: seq<ScoreEntry>, key: Result<string>)
    requires forall e :: e in scores ==> Complete(e)
    ensures Filter(KeyIs(key), StoredAll(catalog, scores)) == StoredAll(catalog, Filter(KeyIs(key), scores))
  {
    forall e | e in scores
      ensures KeyIs(key)(Stored(catalog, e)) == KeyIs(key)(e)
    {
      KeyTestSurvives(catalog, key, e);
    }
    FilterStoredBy(catalog, KeyIs(key), scores);
  }

  /** The test cannot tell an entry from its stored form. */
  predicate Survives(catalog: Catalog, p: ScoreEntry -> bool, scores: seq<ScoreEntry>) {
    forall e :: e in scores ==> p(Stored(catalog, e)) == p(e)
  }

  lemma SurvivesSnoc(catalog: Catalog, p: ScoreEntry -> bool, scores: seq<ScoreEntry>)
    requires scores != [] && Survives(catalog, p, scores)
    ensures Survives(catalog, p, scores[..|scores| - 1])
    ensures p(Stored(catalog, scores[|scores| - 1])) == p(scores[|scores| - 1])
    ensures scores == scores[..|scores| - 1] + [scores[|scores| - 1]]
  {
    assert scores[|scores| - 1] in scores;
  }

  lemma {:induction false} FilterStoredBy(catalog: Catalog, p: ScoreEntry -> bool, scores: seq<ScoreEntry>)
    requires Survives(catalog, p, scores)
    ensures Filter(p, StoredAll(catalog, scores)) == StoredAll(catalog, Filter(p, scores))
  {
    if scores != [] {
      var init, last := scores[..|scores| - 1], scores[|scores| - 1];
      SurvivesSnoc(catalog, p, scores);
      FilterStoredBy(catalog, p, init);
      FilterStoredStep(catalog, p, init, last, StoredAll(catalog, init));
    }
  }

  lemma FilterStoredStep(catalog: Catalog, p: ScoreEntry -> bool, init: seq<ScoreEntry>, last: ScoreEntry, stored: seq<ScoreEntry>)
    requires p(Stored(catalog, last)) == p(last)
    requires Filter(p, stored) == StoredAll(catalog, Filter(p, init))
    ensures Filter(p, stored + [Stored(catalog, last)]) == StoredAll(catalog, Filter(p, init + [last]))
  {
    FilterSnoc(p, stored, Stored(catalog, last));
    FilterSnoc(p, init, last);
    if p(last) {
      StoredAllSnoc(catalog, Filter(p, init), last);
    } else {
      assert Filter(p, init) + [] == Filter(p, init) && Filter(p, stored) + [] == Filter(p, stored);
    }
  }

  /** Seen through one key, saving puts what is at that key into its stored form. */
  lemma SavedAtKey(c: Collation, catalog: Catalog, scores: seq<ScoreEntry>, key: Result<string>)
    requires forall e :: e in scores ==> Complete(e)
    ensures SavedScores(c, catalog, scores).Ok?
    ensures Filter(KeyIs(key), SavedScores(c, catalog, scores).value)
         == SortScores(c, StoredAll(catalog, Filter(KeyIs(key), scores)))
  {
    SavedIsStored(c, catalog, scores);
    EntryOrderIsTotal(c);
    FilterSort(EntryOrder(c), KeyIs(key), StoredAll(catalog, scores));
    FilterStored(catalog, scores, key);
  }

  // ---- What a commit leaves at each key --------------------------------------------------------

  ghost predicate UniqueKeys(scores: seq<ScoreEntry>) {
    forall i, j :: 0 <= i < j < |scores| ==> KeyOf(scores[i]) != KeyOf(scores[j])
  }

  ghost predicate AllComplete(scores: seq<ScoreEntry>) {
    forall e :: e in scores ==> Complete(e)
  }

  /** No kept entry has the key of a written one. */
  ghost predicate Fresh(kept: seq<ScoreEntry>, written: seq<ScoreEntry>) {
    forall e :: e in kept ==> KeyOf(e) !in Keys(written)
  }

  /** Merging key by key never keeps a written key; nor does replacing everything. */
  lemma KeyedScopesAreFresh(stored: seq<ScoreEntry>, written: seq<ScoreEntry>, scope: Scope)
    requires scope.Fixture? ==> !scope.replaceAllScreens
    ensures Fresh(Kept(stored, written, scope), written)
  {
    FilterMembers(KeyOutside(Keys(written)), stored);
  }

  lemma FilterUnique(written: seq<ScoreEntry>, w: ScoreEntry)
    requires UniqueKeys(written) && w in written
    ensures Filter(KeyIs(KeyOf(w)), written) == [w]
  {
    var k :| 0 <= k < |written| && written[k] == w;
    FilterOnly(KeyIs(KeyOf(w)), written, k);
  }

  lemma SortSingleton(c: Collation, e: ScoreEntry)
    ensures SortScores(c, [e]) == [e]
  {
    SortFixesSorted(EntryOrder(c), [e]);
  }

  /** What a commit shows at a key depends on what was kept and written there, and on nothing else. */
  lemma CommittedAtKey(c: Collation, catalog: Catalog, stored: seq<ScoreEntry>, written: seq<ScoreEntry>, scope: Scope,
                       key: Result<string>)
    requires Committed(c, catalog, stored, written, scope).Ok?
    requires AllComplete(stored) && AllComplete(written)
    ensures Filter(KeyIs(key), Committed(c, catalog, stored, written, scope).value)
         == SortScores(c, StoredAll(catalog,
              SortScores(c, Filter(KeyIs(key), Kept(stored, written, scope)) + Filter(KeyIs(key), written))))
  {
    var kept := Kept(stored, written, scope);
    CommittedIsKeptPlusWritten(c, catalog, stored, written, scope);
    KeptIsComplete(stored, written, scope);
    EntryOrderIsTotal(c);
    SortFacts(EntryOrder(c), kept + written);
    SavedAtKey(c, catalog, SortScores(c, kept + written), key);
    SortedConcatFilter(c, KeyIs(key), kept, written);
  }

  lemma KeptIsComplete(stored: seq<ScoreEntry>, written: seq<ScoreEntry>, scope: Scope)
    requires AllComplete(stored)
    ensures AllComplete(Kept(stored, written, scope))
  {
    if scope.Fixture? {
      FilterMembers(KeyOutside(Keys(written)), stored);
      FilterMembers(FixtureOutside(NormalFixture(scope.fixtureId)), stored);
    }
  }

  /** No entry has the key. */
  ghost predicate KeyIsFree(scores: seq<ScoreEntry>, key: Result<string>) {
    forall e :: e in scores ==> KeyOf(e) != key
  }

  lemma FreeKeyFilters(scores: seq<ScoreEntry>, key: Result<string>)
    ensures Filter(KeyIs(key), scores) == [] <==> KeyIsFree(scores, key)
  {
    FilterMembers(KeyIs(key), scores);
    EmptyOrInhabited(Filter(KeyIs(key), scores));
  }

  lemma StoredLength(c: Collation, catalog: Catalog, scores: seq<ScoreEntry>)
    ensures |SortScores(c, StoredAll(catalog, SortScores(c, scores)))| == |scores|
  {
    StoredAllLength(catalog, SortScores(c, scores));
  }

  lemma {:induction false} StoredAllLength(catalog: Catalog, scores: seq<ScoreEntry>)
    ensures |StoredAll(catalog, scores)| == |scores|
  {
    if scores != [] {
      StoredAllLength(catalog, scores[..|scores| - 1]);
    }
  }

  lemma StoredSingleton(c: Collation, catalog: Catalog, w: ScoreEntry)
    ensures SortScores(c, StoredAll(catalog, SortScores(c, [w]))) == [Stored(catalog, w)]
  {
    SortSingleton(c, w);
    StoredAllSnoc(catalog, [], w);
    assert [] + [w] == [w] && [] + [Stored(catalog, w)] == [Stored(catalog, w)];
    SortSingleton(c, Stored(catalog, w));
  }

  /** At a written key the committed store holds exactly the written entry, once, when no kept entry
      shares the key, and only then. */
  lemma WrittenOnceExactly(
      c: Collation, catalog: Catalog, stored: seq<ScoreEntry>, written: seq<ScoreEntry>, scope: Scope, w: ScoreEntry)
    requires Committed(c, catalog, stored, written, scope).Ok?
    requires AllComplete(stored) && AllComplete(written) && UniqueKeys(written) && w in written
    ensures Filter(KeyIs(KeyOf(w)), Committed(c, catalog, stored, written, scope).value) == [Stored(catalog, w)]
        <==> KeyIsFree(Kept(stored, written, scope), KeyOf(w))
  {
    var kept := Filter(KeyIs(KeyOf(w)), Kept(stored, written, scope));
    CommittedAtKey(c, catalog, stored, written, scope, KeyOf(w));
    FilterUnique(written, w);
    FreeKeyFilters(Kept(stored, written, scope), KeyOf(w));
    StoredLength(c, catalog, kept + [w]);
    if kept == [] {
      assert [] + [w] == [w];
      StoredSingleton(c, catalog, w);
    }
  }

  /** Baseline and last run agree at a key: they hold the same entries there. */
  ghost predicate AgreeAt(a: seq<ScoreEntry>, b: seq<ScoreEntry>, key: Result<string>) {
    Filter(KeyIs(key), a) == Filter(KeyIs(key), b)
  }

  lemma KeptAtKey(stored: seq<ScoreEntry>, written: seq<ScoreEntry>, scope: Scope, key: Result<string>)
    ensures Filter(KeyIs(key), Kept(stored, written, scope))
         == Kept(Filter(KeyIs(key), stored), written, scope)
  {
    if scope.Fixture? {
      FilterSwap(KeyOutside(Keys(written)), KeyIs(key), stored);
      FilterSwap(FixtureOutside(NormalFixture(scope.fixtureId)), KeyIs(key), stored);
    }
  }

  /** Committing the same scores to both stores keeps every agreement, and creates agreement at every
      written key unless a whole fixture is replaced over stores that share keys across fixtures. */
  lemma CommitKeepsAgreement(
      c: Collation, catalog: Catalog, a: seq<ScoreEntry>, b: seq<ScoreEntry>, written: seq<ScoreEntry>, scope: Scope,
      key: Result<string>)
    requires Committed(c, catalog, a, written, scope).Ok? && Committed(c, catalog, b, written, scope).Ok?
    requires AllComplete(a) && AllComplete(b) && AllComplete(written)
    requires AgreeAt(a, b, key)
          || (key in Keys(written) && Fresh(Kept(a, written, scope), written) && Fresh(Kept(b, written, scope), written))
    ensures AgreeAt(Committed(c, catalog, a, written, scope).value, Committed(c, catalog, b, written, scope).value, key)
  {
    CommittedAtKey(c, catalog, a, written, scope, key);
    CommittedAtKey(c, catalog, b, written, scope, key);
    if AgreeAt(a, b, key) {
      KeptAtKey(a, written, scope, key);
      KeptAtKey(b, written, scope, key);
    } else {
      FilterNone(KeyIs(key), Kept(a, written, scope));
      FilterNone(KeyIs(key), Kept(b, written, scope));
    }
  }
}
