/** Two fixtures whose ids continue each other: an update that replaces all screens of one of them can
    write a score under a key the other one already uses. */
module CollidingKeys {
  import opened Basics
  import opened StableSort
  import opened Ids
  import opened ScoreKeys
  import opened ScoreMerge
  import opened Canonical
  import opened ArtifactTree
  import opened History
  import opened BaselineStore
  import opened BaselineDiff
  import opened BaselinePlan
  import opened Baseline
  import opened BaselineRuns
  import opened CommandDiffs

  const RESULT := ViewportResult(None, None, 90.0, 0, None, None)

  /** Screen s of fixture f and screen t of fixture g have one key; u is another screen of f. */
  datatype Clash = Clash(f: string, s: string, u: string, g: string, t: string) {
    predicate Valid() {
      && FixtureId(f) == Ok(f) && FixtureId(g) == Ok(g) && f != g
      && NonBlank(Some(s)) == Some(s) && NonBlank(Some(t)) == Some(t) && NonBlank(Some(u)).Some? && s != u
      && ScreenId(s).Ok? && f + "::" + s == g + "::" + t
    }

    function Screens(): seq<Screen> {
      [Screen(s, "A"), Screen(u, "B")]
    }

    function Catalog(): Catalog {
      map[f := Metadata(s, "A", Screens()), g := Metadata(t, "C", [])]
    }

    function Write(): Write {
      BaselinePlan.Write(f, Screens()[0], true, RESULT)
    }

    function Written(): ScoreEntry {
      ScoreOf(Write())
    }

    /** What is stored before: the one screen of g, with a lower score. */
    function Held(): ScoreEntry {
      ScoreEntry(g, Some(t), None, None, None, 10.0)
    }

    function Stores(): Stores {
      Baseline.Stores(Some(BaselineFile(3, [Held()])), Some([Held()]), None)
    }

    /** An executor that skips the second screen. */
    function Results(): seq<ScreenResult> {
      [ScreenResult(s, false, [], RESULT), ScreenResult(u, true, [], RESULT)]
    }
  }

  predicate TwoFixtures(e: Setting, k: Clash) {
    e.catalog == k.Catalog() && e.historySize == 20 && e.isPng(RESULT.actual)
  }

  predicate Reports(execute: string -> Result<Execution>, k: Clash) {
    execute(k.f) == Ok(PerScreen(k.Results()))
  }

  // ---- There are such fixtures -----------------------------------------------------------------

  lemma {:induction false} FirstCharMissing(s: string, infix: string)
    requires infix != [] && infix[0] !in s
    ensures !Contains(s, infix)
  {
    if s != [] {
      FirstCharMissing(s[1..], infix);
      assert s[0] in s;
    }
  }

  /** An id that every guard accepts as it is. */
  predicate Plain(s: string) {
    s != [] && 's' !in s && forall c :: c in s ==> IsIdChar(c) || c == ':'
  }

  lemma PlainIsAllowed(s: string)
    requires Plain(s)
    ensures FixtureId(s) == Ok(s) && NonBlank(Some(s)) == Some(s) && ScreenId(s) == Ok(s)
  {
    SlashesTurned(s);
    NoSpaceIsTrimmed(s);
    FirstCharMissing(s, "storybook-static");
    FirstCharMissing(s, ".zip");
    FirstCharMissing(s, "..");
    assert s[0] in s;
    ScreenIdAccepts(s);
  }

  lemma PlainClash(k: Clash)
    requires Plain(k.f) && Plain(k.s) && Plain(k.u) && Plain(k.g) && Plain(k.t) && k.f != k.g && k.s != k.u
    requires k.f + "::" + k.s == k.g + "::" + k.t
    ensures k.Valid()
  {
    PlainIsAllowed(k.f);
    PlainIsAllowed(k.s);
    PlainIsAllowed(k.u);
    PlainIsAllowed(k.g);
    PlainIsAllowed(k.t);
  }

  /** Screen "x::x" of fixture "web" and screen "x" of fixture "web::x". */
  lemma ClashExists()
    ensures Clash("web", "x::x", "y", "web::x", "x").Valid()
  {
    assert "web" + "::" + "x::x" == "web::x" + "::" + "x";
    PlainClash(Clash("web", "x::x", "y", "web::x", "x"));
  }

  lemma PlainKeysDiffer(f: string, s: string, g: string, t: string)
    requires Plain(f) && Plain(s) && Plain(g) && Plain(t) && Join(f, s, "default") != Join(g, t, "default")
    ensures ScoreKey(f, Some(s), None) != ScoreKey(g, Some(t), None)
  {
    PlainIsAllowed(f);
    PlainIsAllowed(s);
    PlainIsAllowed(g);
    PlainIsAllowed(t);
  }

  /** Ids that continue each other need not clash: these two screens have keys of their own. */
  lemma ContinuationIsNotEnough()
    ensures Continues("web::x", "web")
    ensures ScoreKey("web::x", Some("login"), None) != ScoreKey("web", Some("home"), None)
  {
    assert "web::x::" == "web" + "::" + "x::";
    assert Join("web::x", "login", "default")[5] == 'x' && Join("web", "home", "default")[5] == 'h';
    PlainKeysDiffer("web::x", "login", "web", "home");
  }

  // ---- The update succeeds ---------------------------------------------------------------------

  lemma KeysAreShared(k: Clash)
    requires k.Valid()
    ensures KeyOf(k.Held()) == KeyOf(k.Written()) == Ok(Join(k.f, k.s, "default"))
  {
    assert Join(k.f, k.s, "default") == k.f + "::" + k.s + "::" + "default";
    assert Join(k.g, k.t, "default") == k.g + "::" + k.t + "::" + "default";
  }

  lemma CatalogIsValid(k: Clash)
    requires k.Valid()
    ensures ValidCatalog(k.Catalog())
  {
    assert EnumerateScreens(k.Catalog()[k.f]) == k.Screens() && EnumerateScreens(k.Catalog()[k.g]) == [Screen(k.t, "C")];
  }

  lemma ResultsFound(a: ScreenResult, b: ScreenResult)
    requires a.screenId != b.screenId
    ensures ResultFor([a, b], a.screenId) == Some(a) && ResultFor([a, b], b.screenId) == Some(b)
  {
    assert [a, b][..1] == [a];
  }

  lemma FirstScreenIsWritten(f: string, m: Metadata, execution: Execution, first: Screen)
    requires |EnumerateScreens(m)| > 1
    requires ScreenOutcome(m, 2, execution, first) == Ok(ScreenResult(first.screenId, false, [], RESULT))
    ensures FixtureWrites(f, m, execution, 2, [first]) == Ok([Write(f, first, true, RESULT)])
  {
    var w := Write(f, first, true, RESULT);
    assert [first][..0] == [] && [RESULT][..0] == [];
    assert RESULT.(viewportId := None, viewportLabel := None) == RESULT;
    assert WritesOf(f, first, true, [RESULT]) == [] + [w];
    assert FixtureWrites(f, m, execution, 2, []) == Ok([]);
    assert [] + [w] == [w];
  }

  lemma SkippedScreenAddsNothing(f: string, m: Metadata, execution: Execution, first: Screen, second: Screen)
    requires ScreenOutcome(m, 2, execution, second) == Ok(ScreenResult(second.screenId, true, [], RESULT))
    requires FixtureWrites(f, m, execution, 2, [first]).Ok?
    ensures FixtureWrites(f, m, execution, 2, [first, second]) == FixtureWrites(f, m, execution, 2, [first])
  {
    var before := FixtureWrites(f, m, execution, 2, [first]).value;
    assert [first, second][..1] == [first];
    assert before + [] == before;
  }

  lemma PlanIsOneWrite(k: Clash, execute: string -> Result<Execution>)
    requires k.Valid() && Reports(execute, k)
    ensures PlanFixture(k.Catalog(), k.f, None, execute) == Ok([k.Write()])
  {
    var m, execution := k.Catalog()[k.f], PerScreen(k.Results());
    assert EnumerateScreens(m) == k.Screens();
    ResultsFound(k.Results()[0], k.Results()[1]);
    FirstScreenIsWritten(k.f, m, execution, k.Screens()[0]);
    SkippedScreenAddsNothing(k.f, m, execution, k.Screens()[0], k.Screens()[1]);
    assert k.Screens() == [k.Screens()[0], k.Screens()[1]];
  }

  lemma RunSucceeds(e: Setting, k: Clash, tree: Tree, execute: string -> Result<Execution>)
    requires k.Valid() && TwoFixtures(e, k) && Reports(execute, k)
    ensures UpdateRun(e, tree, Some(k.f), None, execute, "t").1 == Ok([k.Write()])
  {
    var w := k.Write();
    PlanIsOneWrite(k, execute);
    assert Saved(tree, InputOf(w, "t")).Ok?;
    assert [k.f][..0] == [] && [w][..0] == [] && [] + [w] == [w];
    assert SaveWrites(e.isPng, tree, [], "t") == (tree, true);
    assert SaveWrites(e.isPng, tree, [w], "t").1;
    assert RunFixtures(e, tree, [], None, execute, "t") == (tree, Ok([]));
  }

  lemma HeldIsLoaded(e: Setting, k: Clash)
    requires k.Valid()
    ensures LoadedBaseline(e.c, e.catalog, k.Stores().baseline) == Ok([k.Held()]) && LoadedLastRun(e.c, k.Stores().lastRun) == Ok([k.Held()])
  {
    assert Canon(k.Held()) == k.Held();
    assert CanonAll([k.Held()]) == [k.Held()];
    SortSingleton(e.c, k.Held());
  }

  lemma ScoresAreOne(w: Write)
    ensures ScoresOf([w]) == [ScoreOf(w)]
  {
    assert [w][..0] == [] && [] + [ScoreOf(w)] == [ScoreOf(w)] && ScoresOf([]) == [];
  }

  lemma HistoryAccepts(c: Collation, k: Clash)
    requires k.Valid()
    ensures HistoryAfter(c, None, "t", [k.Written()], 20).Ok?
  {
    NoSpaceIsTrimmed("t");
    assert Normalizable(k.Written());
    HistoryAcceptsExactly(c, None, "t", [k.Written()], 20);
  }

  lemma UpdateReturns(e: Setting, k: Clash, tree: Tree, execute: string -> Result<Execution>)
    requires k.Valid() && TwoFixtures(e, k) && Reports(execute, k)
    ensures ValidCatalog(e.catalog) && Loadable(e.c, e.catalog, k.Stores())
    ensures Updated(e, k.Stores(), tree, Some(k.f), None, execute, "t").scores == Ok([k.Written()])
    ensures UpdateScope(e.catalog, Some(k.f), None) == Fixture(k.f, true)
  {
    CatalogIsValid(k);
    HeldIsLoaded(e, k);
    RunSucceeds(e, k, tree, execute);
    ScoresAreOne(k.Write());
    HistoryAccepts(e.c, k);
    UpdateSucceedsExactly(e, k.Stores(), tree, Some(k.f), None, execute, "t");
    UpdateCommits(e, k.Stores(), tree, Some(k.f), None, execute, "t");
  }

  // ---- And the key is shared -------------------------------------------------------------------

  /** The update succeeds, but the score it wrote is not the only one at its key. */
  lemma WrittenScoreIsNotAlone(e: Setting, k: Clash, tree: Tree, execute: string -> Result<Execution>, outcome: Outcome)
    requires k.Valid() && TwoFixtures(e, k) && Reports(execute, k)
    requires outcome == Updated(e, k.Stores(), tree, Some(k.f), None, execute, "t")
    ensures outcome.scores == Ok([k.Written()]) && !HeldOnce(e, outcome.stores, k.Written())
  {
    UpdateReturns(e, k, tree, execute);
    HeldIsLoaded(e, k);
    KeysAreShared(k);
    assert k.Held() in [k.Held()];
    UpdateHoldsOnceExactly(e, k.Stores(), tree, Some(k.f), None, execute, "t", outcome, k.Written());
  }

  /** And no diff computed afterwards is clean, unless the tolerance is large. */
  lemma DiffStaysPending(e: Setting, k: Clash, tree: Tree, execute: string -> Result<Execution>, outcome: Outcome)
    requires k.Valid() && TwoFixtures(e, k) && Reports(execute, k) && e.tolerance < 39.0
    requires outcome == Updated(e, k.Stores(), tree, Some(k.f), None, execute, "t")
    ensures var diff := Diffed(e, outcome.stores, outcome.tree, None, None); diff.Ok? ==> Pending(diff.value)
  {
    UpdateReturns(e, k, tree, execute);
    HeldIsLoaded(e, k);
    HeldIsFar(e, k);
    UpdateCommitsWritten(e, k, tree, execute);
    SharedKeyStaysPending(e, k.Stores(), [k.Written()], k.f, outcome.stores, outcome.tree, k.Held(), k.Written());
  }

  lemma UpdateCommitsWritten(e: Setting, k: Clash, tree: Tree, execute: string -> Result<Execution>)
    requires k.Valid() && TwoFixtures(e, k) && Reports(execute, k)
    ensures Loadable(e.c, e.catalog, k.Stores()) && AllFromCatalog(e.catalog, [k.Written()])
    ensures BothCommitted(e.c, e.catalog, k.Stores(), [k.Written()], Fixture(k.f, true),
                          Updated(e, k.Stores(), tree, Some(k.f), None, execute, "t").stores)
  {
    UpdateReturns(e, k, tree, execute);
    UpdateSucceedsExactly(e, k.Stores(), tree, Some(k.f), None, execute, "t");
    UpdateCommits(e, k.Stores(), tree, Some(k.f), None, execute, "t");
  }

  lemma HeldIsFar(e: Setting, k: Clash)
    requires k.Valid() && TwoFixtures(e, k) && e.tolerance < 39.0
    ensures FarApart(e, k.Held(), k.Written()) && k.Held().fixtureId != NormalFixture(k.f)
    ensures k.Held() in [k.Held()] && k.Written() in [k.Written()]
  {
    KeysAreShared(k);
    assert Screen(k.t, "C") in EnumerateScreens(k.Catalog()[k.g]);
    assert k.Screens()[0] in EnumerateScreens(k.Catalog()[k.f]);
  }
}
