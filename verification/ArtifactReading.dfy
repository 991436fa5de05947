/** When loading artifacts succeeds: exactly when every id involved is allowed, and every directory
    name that gets listed can be read as one. */
module ArtifactReading {
  import opened Basics
  import opened StableSort
  import opened Ids
  import opened ScreenIdCodec
  import opened ArtifactTree
  import opened PersistPhase
  import opened BaselineDiff

  // ---- One screen ------------------------------------------------------------------------------

  /** Every listed name can be read as a viewport id. */
  predicate ReadableNames(names: set<string>) {
    forall n :: n in names ==> OptionalViewport(Some(n)).Ok?
  }

  /** The screen's id is allowed, and its directory holds its own artifact or only viewport names. */
  predicate ScreenReadable(tree: Tree, f: string, screenId: string) {
    && OptionalScreen(Some(screenId)).Ok?
    && var dir := Directory(f, OptionalScreen(Some(screenId)).value, None);
       dir in tree.manifests || ReadableNames(ChildDirs(tree, dir))
  }

  lemma {:induction false} CollectedExactly(tree: Tree, f: string, screenId: Option<string>, names: seq<string>)
    requires FixtureId(f).Ok? && OptionalScreen(screenId).Ok?
    ensures Collected(tree, f, screenId, names).Ok? <==> forall n :: n in names ==> OptionalViewport(Some(n)).Ok?
  {
    if names != [] {
      var init, last := names[..|names| - 1], names[|names| - 1];
      CollectedExactly(tree, f, screenId, init);
      assert names == init + [last] && last in names && forall n :: n in init ==> n in names;
      assert ArtifactDir(f, screenId, Some(last)).Ok? <==> OptionalViewport(Some(last)).Ok?;
    }
  }

  lemma FromViewportsExactly(c: Collation, listing: Listing, tree: Tree, f: string, screenId: Option<string>, dir: Path)
    requires FixtureId(f).Ok? && OptionalScreen(screenId).Ok?
    ensures FromViewports(c, listing, tree, f, screenId, dir).Ok? <==> ReadableNames(ChildDirs(tree, dir))
  {
    var names := listing(ChildDirs(tree, dir));
    assert forall n :: n in names <==> n in ChildDirs(tree, dir);
    CollectedExactly(tree, f, screenId, names);
  }

  /** A screen loads exactly when it is readable. */
  lemma ScreenLoadsExactly(c: Collation, listing: Listing, tree: Tree, f: string, screenId: string)
    requires FixtureId(f) == Ok(f)
    ensures LoadedScreen(c, listing, tree, f, screenId).Ok? <==> ScreenReadable(tree, f, screenId)
  {
    if OptionalScreen(Some(screenId)).Ok? {
      var dir := Directory(f, OptionalScreen(Some(screenId)).value, None);
      assert ArtifactDir(f, Some(screenId), None) == Ok(dir);
      FromViewportsExactly(c, listing, tree, f, Some(screenId), dir);
    }
  }

  /** Only the trimmed id counts. */
  lemma ScreensAreReadTrimmed(c: Collation, listing: Listing, tree: Tree, f: string, a: string, b: string)
    requires NonBlank(Some(a)) == NonBlank(Some(b))
    ensures LoadedScreen(c, listing, tree, f, a) == LoadedScreen(c, listing, tree, f, b)
    ensures ScreenReadable(tree, f, a) == ScreenReadable(tree, f, b)
  {
    var names := if ArtifactDir(f, Some(a), None).Ok? then listing(ChildDirs(tree, ArtifactDir(f, Some(a), None).value)) else [];
    assert ArtifactDir(f, Some(a), None) == ArtifactDir(f, Some(b), None);
    CollectedReadsTrimmed(tree, f, a, b, names);
  }

  lemma {:induction false} CollectedReadsTrimmed(tree: Tree, f: string, a: string, b: string, names: seq<string>)
    requires NonBlank(Some(a)) == NonBlank(Some(b))
    ensures Collected(tree, f, Some(a), names) == Collected(tree, f, Some(b), names)
  {
    if names != [] {
      CollectedReadsTrimmed(tree, f, a, b, names[..|names| - 1]);
      assert ArtifactDir(f, Some(a), Some(names[|names| - 1])) == ArtifactDir(f, Some(b), Some(names[|names| - 1]));
    }
  }

  // ---- A whole fixture -------------------------------------------------------------------------

  predicate TokenReadable(tree: Tree, f: string, token: string) {
    FromToken(token).Ok? && ScreenReadable(tree, f, FromToken(token).value)
  }

  /** Every token decodes to a readable screen. */
  predicate TokensReadable(tree: Tree, f: string, tokens: seq<string>) {
    forall t :: t in tokens ==> TokenReadable(tree, f, t)
  }

  lemma TokensSnoc(tree: Tree, f: string, init: seq<string>, last: string)
    ensures TokensReadable(tree, f, init + [last]) <==> TokensReadable(tree, f, init) && TokenReadable(tree, f, last)
  {
    assert last in init + [last] && forall t :: t in init ==> t in init + [last];
  }

  lemma {:induction false} ScreensLoadExactly(c: Collation, listing: Listing, tree: Tree, f: string, tokens: seq<string>)
    requires FixtureId(f) == Ok(f)
    ensures LoadedScreens(c, listing, tree, f, tokens).Ok? <==> TokensReadable(tree, f, tokens)
  {
    if tokens != [] {
      var init, last := tokens[..|tokens| - 1], tokens[|tokens| - 1];
      ScreensLoadExactly(c, listing, tree, f, init);
      assert tokens == init + [last];
      TokensSnoc(tree, f, init, last);
      if FromToken(last).Ok? {
        ScreenLoadsExactly(c, listing, tree, f, FromToken(last).value);
      }
    }
  }

  /** A root artifact ends the search; otherwise root viewports must be readable, and when there are
      none, so must every screen. */
  predicate FixtureReadable(c: Collation, listing: Listing, tree: Tree, f: string) {
    || [f] in tree.manifests
    || (ReadableNames(ChildDirs(tree, [f, "viewports"]))
        && (FromViewports(c, listing, tree, f, None, [f, "viewports"]) != Ok([])
            || TokensReadable(tree, f, listing(ChildDirs(tree, [f, "screens"])))))
  }

  lemma FixtureLoadsExactly(c: Collation, listing: Listing, tree: Tree, f: string)
    requires FixtureId(f) == Ok(f)
    ensures Loaded(c, listing, tree, f).Ok? <==> FixtureReadable(c, listing, tree, f)
  {
    assert ArtifactDir(f, None, None) == Ok([f]);
    assert [f] + ["viewports"] == [f, "viewports"] && [f] + ["screens"] == [f, "screens"];
    FromViewportsExactly(c, listing, tree, f, None, [f, "viewports"]);
    ScreensLoadExactly(c, listing, tree, f, listing(ChildDirs(tree, [f, "screens"])));
  }

  /** The artifacts of a screen load exactly when the screen is readable and, should a single-screen
      fixture have none there, the fixture is. */
  lemma ArtifactsLoadExactly(c: Collation, listing: Listing, tree: Tree, f: string, screenId: string, screens: nat)
    requires FixtureId(f) == Ok(f)
    ensures ArtifactsForScreen(c, listing, tree, f, screenId, screens).Ok?
        <==> ScreenReadable(tree, f, screenId)
             && (LoadedScreen(c, listing, tree, f, screenId) == Ok([]) && screens == 1 ==> FixtureReadable(c, listing, tree, f))
  {
    ScreenLoadsExactly(c, listing, tree, f, screenId);
    FixtureLoadsExactly(c, listing, tree, f);
  }

  // ---- Trees that only saves have written ------------------------------------------------------

  predicate DecodableNames(names: set<string>) {
    forall n :: n in names ==> FromToken(n).Ok?
  }

  /** Every directory below a screens directory is named by a token, and every directory below a
      viewports directory or a screen's own directory by a viewport. */
  ghost predicate Tidy(tree: Tree) {
    && (forall f, token :: ReadableNames(ChildDirs(tree, [f, "screens", token])))
    && (forall f :: ReadableNames(ChildDirs(tree, [f, "viewports"])))
    && (forall f :: DecodableNames(ChildDirs(tree, [f, "screens"])))
  }

  lemma TidyScreensAreReadable(tree: Tree, f: string, screenId: string)
    requires Tidy(tree) && Trim(screenId) != []
    ensures ScreenReadable(tree, f, screenId) <==> ScreenId(screenId).Ok?
  {
    TrimFacts(screenId);
    TrimFacts(Trim(screenId));
    ScreenIdAccepts(screenId);
    ScreenIdAccepts(Trim(screenId));
    if ScreenId(screenId).Ok? {
      var token := Encode(OptionalScreen(Some(screenId)).value.value);
      assert Directory(f, OptionalScreen(Some(screenId)).value, None) == [f, "screens", token];
    }
  }

  lemma TokensAreScreens(token: string)
    requires FromToken(token).Ok?
    ensures Trim(FromToken(token).value) != [] && ScreenId(FromToken(token).value).Ok?
  {
    var id := FromToken(token).value;
    var decoded := if '~' !in Trim(token) then ReplaceChar(Trim(token), '_', ":") else Decode(Trim(token)).value;
    ScreenIdAccepts(decoded);
    ScreenIdAccepts(id);
    NoSpaceIsTrimmed(id);
  }

  lemma TidyTokensAreReadable(tree: Tree, f: string, tokens: seq<string>)
    requires Tidy(tree) && forall t :: t in tokens ==> FromToken(t).Ok?
    ensures TokensReadable(tree, f, tokens)
  {
    forall t | t in tokens
      ensures TokenReadable(tree, f, t)
    {
      TokensAreScreens(t);
      TidyScreensAreReadable(tree, f, FromToken(t).value);
    }
  }

  lemma TidyFixturesAreReadable(c: Collation, listing: Listing, tree: Tree, f: string)
    requires Tidy(tree)
    ensures FixtureReadable(c, listing, tree, f)
  {
    var tokens := listing(ChildDirs(tree, [f, "screens"]));
    assert DecodableNames(ChildDirs(tree, [f, "screens"]));
    assert forall t :: t in tokens <==> t in ChildDirs(tree, [f, "screens"]);
    TidyTokensAreReadable(tree, f, tokens);
  }

  /** In a tidy tree the artifacts of a screen load exactly when its id is allowed. */
  lemma TidyArtifactsLoadExactly(c: Collation, listing: Listing, tree: Tree, f: string, screenId: string, screens: nat)
    requires FixtureId(f) == Ok(f) && Tidy(tree) && Trim(screenId) != []
    ensures ArtifactsForScreen(c, listing, tree, f, screenId, screens).Ok? <==> ScreenId(screenId).Ok?
  {
    ArtifactsLoadExactly(c, listing, tree, f, screenId, screens);
    TidyScreensAreReadable(tree, f, screenId);
    TidyFixturesAreReadable(c, listing, tree, f);
  }

  lemma ChildBelow(base: Path, dir: Path, x: string)
    requires base <= dir + [x] && |base| < |dir|
    ensures base < dir && (dir + [x])[|base|] == dir[|base|]
  {
    assert base == (dir + [x])[..|base|] == dir[..|base|];
  }

  /** q makes n a sub-directory of base. */
  predicate Shows(tree: Tree, base: Path, n: string, q: Path) {
    && base <= q && |q| > |base| && q[|base|] == n
    && (q in tree.manifests || (q in tree.blobs && |q| > |base| + 1))
  }

  lemma ChildIsShown(tree: Tree, base: Path, n: string)
    ensures n in ChildDirs(tree, base) <==> exists q :: Shows(tree, base, n, q)
  {
    if n in ChildDirs(tree, base) {
      var q :| (q in tree.manifests && Under(base, q) && |q| > |base| && q[|base|] == n)
            || (q in tree.blobs && Under(base, q) && |q| > |base| + 1 && q[|base|] == n);
      assert Shows(tree, base, n, q);
    }
    if q :| Shows(tree, base, n, q) {
      assert Under(base, q);
    }
  }

  lemma NewChildIsBelow(tree: Tree, dir: Path, input: Input, m: Manifest, base: Path, n: string, q: Path)
    requires Shows(SaveAt(tree, dir, input, m), base, n, q) && !Shows(tree, base, n, q)
    ensures base < dir && n == dir[|base|]
  {
    if q in SaveAt(tree, dir, input, m).manifests {
      assert q == dir || q in tree.manifests;
    }
    if q != dir {
      NewFile(tree, dir, input, m, q);
      ChildBelow(base, dir, q[|dir|]);
    }
  }

  lemma NewChildren(tree: Tree, dir: Path, input: Input, m: Manifest, base: Path, n: string)
    requires n in ChildDirs(SaveAt(tree, dir, input, m), base)
    ensures n in ChildDirs(tree, base) || (base < dir && n == dir[|base|])
  {
    ChildIsShown(SaveAt(tree, dir, input, m), base, n);
    ChildIsShown(tree, base, n);
    var q :| Shows(SaveAt(tree, dir, input, m), base, n, q);
    if !Shows(tree, base, n, q) {
      NewChildIsBelow(tree, dir, input, m, base, n, q);
    }
  }

  lemma NewFile(tree: Tree, dir: Path, input: Input, m: Manifest, q: Path)
    requires q in SaveAt(tree, dir, input, m).blobs && q !in tree.blobs
    ensures |q| == |dir| + 1 && q == dir + [q[|dir|]]
  {
  }

  /** Where a save can show a new sub-directory: on the way to the directory it saves to. */
  lemma NewViewportIsAllowed(tree: Tree, input: Input, base: Path, n: string)
    requires Saved(tree, input).Ok? && n in ChildDirs(Saved(tree, input).value, base) && n !in ChildDirs(tree, base)
    requires |base| == 3 || (|base| == 2 && base[1] == "viewports")
    ensures OptionalViewport(Some(n)).Ok?
  {
    var dir := ArtifactDir(input.fixtureId, input.screenId, input.viewportId).value;
    NewChildren(tree, dir, input, ManifestOf(input).value, base, n);
    if |base| == 3 {
      assert |dir| == 4 && n == dir[3];
    } else {
      assert dir[1] == base[1] && |dir| == 3 && n == dir[2];
    }
    SavedViewportIsReadable(input);
  }

  lemma NewTokenIsAllowed(tree: Tree, input: Input, base: Path, n: string)
    requires Saved(tree, input).Ok? && n in ChildDirs(Saved(tree, input).value, base) && n !in ChildDirs(tree, base)
    requires |base| == 2 && base[1] == "screens"
    ensures FromToken(n).Ok?
  {
    var dir := ArtifactDir(input.fixtureId, input.screenId, input.viewportId).value;
    NewChildren(tree, dir, input, ManifestOf(input).value, base, n);
    assert dir[1] == base[1] && OptionalScreen(input.screenId).value.Some? && n == dir[2];
    SavedTokenDecodes(input);
  }

  /** Saves keep a tree tidy. */
  lemma SavesKeepTidy(tree: Tree, input: Input)
    requires Tidy(tree) && Saved(tree, input).Ok?
    ensures Tidy(Saved(tree, input).value)
  {
    var after := Saved(tree, input).value;
    forall f, token, n | n in ChildDirs(after, [f, "screens", token])
      ensures OptionalViewport(Some(n)).Ok?
    {
      assert ReadableNames(ChildDirs(tree, [f, "screens", token]));
      if n !in ChildDirs(tree, [f, "screens", token]) {
        NewViewportIsAllowed(tree, input, [f, "screens", token], n);
      }
    }
    forall f, n | n in ChildDirs(after, [f, "viewports"])
      ensures OptionalViewport(Some(n)).Ok?
    {
      assert ReadableNames(ChildDirs(tree, [f, "viewports"]));
      if n !in ChildDirs(tree, [f, "viewports"]) {
        NewViewportIsAllowed(tree, input, [f, "viewports"], n);
      }
    }
    forall f, n | n in ChildDirs(after, [f, "screens"])
      ensures FromToken(n).Ok?
    {
      assert DecodableNames(ChildDirs(tree, [f, "screens"]));
      if n !in ChildDirs(tree, [f, "screens"]) {
        NewTokenIsAllowed(tree, input, [f, "screens"], n);
      }
    }
  }

  lemma SavedTokenDecodes(input: Input)
    requires OptionalScreen(input.screenId).Ok? && OptionalScreen(input.screenId).value.Some?
    ensures FromToken(Encode(OptionalScreen(input.screenId).value.value)).Ok?
  {
    var id := OptionalScreen(input.screenId).value.value;
    ScreenIdAccepts(NonBlank(input.screenId).value);
    ScreenIdAccepts(id);
    RoundTrip(id);
  }

  lemma SavedViewportIsReadable(input: Input)
    requires OptionalViewport(input.viewportId).Ok? && OptionalViewport(input.viewportId).value.Some?
    ensures OptionalViewport(Some(OptionalViewport(input.viewportId).value.value)).Ok?
  {
    var v := NonBlank(input.viewportId).value;
    NonBlankFacts(input.viewportId);
    TrimFacts(input.viewportId.value);
    ViewportIdAccepts(v);
    TrimFacts(v);
  }

  lemma EmptyTreeIsTidy()
    ensures Tidy(Tree(map[], map[]))
  {
  }

  lemma CleaningShowsNothingNew(tree: Tree, fixtures: set<string>, base: Path, n: string)
    requires n in ChildDirs(CleanRoots(tree, fixtures), base)
    ensures n in ChildDirs(tree, base)
  {
    ChildIsShown(CleanRoots(tree, fixtures), base, n);
    var q :| Shows(CleanRoots(tree, fixtures), base, n, q);
    assert Shows(tree, base, n, q);
    ChildIsShown(tree, base, n);
  }

  lemma CleaningKeepsTidy(tree: Tree, fixtures: set<string>)
    requires Tidy(tree)
    ensures Tidy(CleanRoots(tree, fixtures))
  {
    forall base: Path, n: string | n in ChildDirs(CleanRoots(tree, fixtures), base)
      ensures n in ChildDirs(tree, base)
    {
      CleaningShowsNothingNew(tree, fixtures, base, n);
    }
    assert forall f, token :: ReadableNames(ChildDirs(tree, [f, "screens", token]));
    assert forall f :: ReadableNames(ChildDirs(tree, [f, "viewports"])) && DecodableNames(ChildDirs(tree, [f, "screens"]));
  }

  /** So does the persist phase of a run, whether it completes or not. */
  lemma {:induction false} PersistedSavesKeepTidy(tree: Tree, entries: seq<Input>, done: seq<Input>)
    requires Tidy(tree)
    ensures Tidy(SaveAll(tree, entries, done).0)
  {
    if done != [] {
      PersistedSavesKeepTidy(tree, entries, done[..|done| - 1]);
      var before := SaveAll(tree, entries, done[..|done| - 1]).0;
      if Saved(before, Placed(entries, done[|done| - 1])).Ok? {
        SavesKeepTidy(before, Placed(entries, done[|done| - 1]));
      }
    }
  }

  lemma PersistKeepsTidy(tree: Tree, entries: seq<Input>)
    requires Tidy(tree)
    ensures Tidy(Persisted(tree, entries).0)
  {
    CleaningKeepsTidy(tree, NeedCleanup(entries));
    PersistedSavesKeepTidy(CleanRoots(tree, NeedCleanup(entries)), entries, entries);
  }
}
