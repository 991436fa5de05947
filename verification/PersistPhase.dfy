/** The persist phase of a benchmark run, and what any later load of a fixture finds. */
module PersistPhase {
  import opened Basics
  import opened StableSort
  import opened Ids
  import opened ScreenIdCodec
  import opened ArtifactTree
  import opened ArtifactLayout

  // ---- Specification ---------------------------------------------------------------------------

  function OfFixture(f: string): Input -> bool {
    (e: Input) => e.fixtureId == f
  }

  function Count(entries: seq<Input>, f: string): nat {
    |Filter(OfFixture(f), entries)|
  }

  predicate HasViewport(e: Input) {
    e.viewportId.Some? && e.viewportId.value != ""
  }

  /** Fixtures that leave the legacy root layout: several artifacts, or one with a viewport. */
  function NeedCleanup(entries: seq<Input>): set<string> {
    set e | e in entries && (Count(entries, e.fixtureId) > 1 || HasViewport(e)) :: e.fixtureId
  }

  /** What deleteLegacyRootLastRunArtifacts removes of a fixture: the five root files and viewports/. */
  predicate LegacyFile(fixtures: set<string>, p: Path) {
    && p != [] && p[0] in fixtures
    && ((|p| >= 2 && p[1] == "viewports")
        || (|p| == 2 && p[1] in {"actual.png", "reference.png", "diff.png", "manifest.json", "report.json"}))
  }

  function CleanRoots(tree: Tree, fixtures: set<string>): Tree {
    Tree(map d | d in tree.manifests && !LegacyFile(fixtures, d + ["manifest.json"]) :: tree.manifests[d],
         map p | p in tree.blobs && !LegacyFile(fixtures, p) :: tree.blobs[p])
  }

  /** A lone artifact without a viewport forgets its screen, and so lands at the fixture root. */
  function Placed(entries: seq<Input>, e: Input): Input {
    if Count(entries, e.fixtureId) > 1 || e.viewportId.Some? then e else e.(screenId := None)
  }

  /** Saves in order until the first one that throws. */
  function SaveAll(tree: Tree, entries: seq<Input>, done: seq<Input>): (Tree, bool) {
    if done == [] then (tree, true)
    else
      var (before, ok) := SaveAll(tree, entries, done[..|done| - 1]);
      if !ok then (before, false)
      else match Saved(before, Placed(entries, done[|done| - 1]))
        case Ok(after) => (after, true)
        case Err(_) => (before, false)
  }

  function Persisted(tree: Tree, entries: seq<Input>): (Tree, bool) {
    SaveAll(CleanRoots(tree, NeedCleanup(entries)), entries, entries)
  }

  // ---- What cleaning does ----------------------------------------------------------------------

  lemma CleanKeepsSlot(tree: Tree, fixtures: set<string>, f: string, s: Slot)
    ensures At(CleanRoots(tree, fixtures), SlotDir(f, s)) == At(tree, SlotDir(f, s))
    ensures SlotDir(f, s) in CleanRoots(tree, fixtures).manifests <==> SlotDir(f, s) in tree.manifests
  {
    SlotDirParts(f, s);
    var d := SlotDir(f, s);
    assert d[1] == d[..3][1] == "screens";
    assert !LegacyFile(fixtures, d + ["manifest.json"]) && !LegacyFile(fixtures, d + ["reference.png"])
        && !LegacyFile(fixtures, d + ["diff.png"]) && !LegacyFile(fixtures, d + ["report.json"]);
  }

  lemma CleanKeepsLayout(tree: Tree, fixtures: set<string>, f: string, slots: set<Slot>)
    requires Layout(tree, f, slots)
    ensures Layout(CleanRoots(tree, fixtures), f, slots)
  {
    forall s | s in slots ensures SlotDir(f, s) in CleanRoots(tree, fixtures).manifests {
      CleanKeepsSlot(tree, fixtures, f, s);
    }
  }

  lemma CleanClearsRoot(tree: Tree, fixtures: set<string>, f: string)
    requires f in fixtures
    ensures RootClear(CleanRoots(tree, fixtures), f)
  {
    assert LegacyFile(fixtures, [f] + ["manifest.json"]);
    forall q: Path | [f, "viewports"] < q ensures LegacyFile(fixtures, q) && LegacyFile(fixtures, q + ["manifest.json"]) {
      assert q[0] == f && q[1] == "viewports";
      assert (q + ["manifest.json"])[0] == f && (q + ["manifest.json"])[1] == "viewports";
    }
  }

  /** Cleaning removes exactly the legacy files: the root manifest, the four files beside it and everything
      below viewports/, of the given fixtures only. */
  lemma CleanedExactly(tree: Tree, fixtures: set<string>, p: Path)
    ensures var legacy := p != [] && p[0] in fixtures
              && (p[1..] == ["actual.png"] || p[1..] == ["reference.png"] || p[1..] == ["diff.png"] || p[1..] == ["report.json"]
                  || p[1..] == ["manifest.json"] || ["viewports"] <= p[1..]);
            if legacy then p !in CleanRoots(tree, fixtures).blobs
            else (p in CleanRoots(tree, fixtures).blobs <==> p in tree.blobs)
                 && (p in tree.blobs ==> CleanRoots(tree, fixtures).blobs[p] == tree.blobs[p])
    ensures var gone := p != [] && p[0] in fixtures && (|p| == 1 || p[1] == "viewports");
            if gone then p !in CleanRoots(tree, fixtures).manifests
            else (p in CleanRoots(tree, fixtures).manifests <==> p in tree.manifests)
                 && (p in tree.manifests ==> CleanRoots(tree, fixtures).manifests[p] == tree.manifests[p])
  {
    if p != [] {
      var q := p + ["manifest.json"];
      assert q[0] == p[0] && (|p| >= 2 ==> q[1] == p[1]) && (|p| == 1 ==> q[1] == "manifest.json");
      if |p| == 2 {
        assert p[1..] == [p[1]];
      }
      if |p| >= 2 {
        assert ["viewports"] <= p[1..] <==> p[1] == "viewports";
      }
    }
  }

  lemma CleanElsewhere(tree: Tree, fixtures: set<string>, f: string)
    requires f !in fixtures
    ensures SameFixture(tree, CleanRoots(tree, fixtures), f)
  {
  }

  // ---- The tree as an object -------------------------------------------------------------------

  class LastRunTree {
    const collation: Collation
    const listing: Listing
    var tree: Tree

    constructor (collation: Collation, listing: Listing)
      ensures tree == Tree(map[], map[]) && this.collation == collation && this.listing == listing
    {
      this.collation := collation;
      this.listing := listing;
      tree := Tree(map[], map[]);
    }

    method DeleteLegacyRoot(fixtureId: string)
      requires FixtureId(fixtureId) == Ok(fixtureId)
      modifies this
      ensures tree == CleanRoots(old(tree), {fixtureId})
      ensures RootClear(tree, fixtureId)
      ensures forall s :: At(tree, SlotDir(fixtureId, s)) == At(old(tree), SlotDir(fixtureId, s))
      ensures forall f :: f != fixtureId ==> SameFixture(old(tree), tree, f)
    {
      tree := CleanRoots(tree, {fixtureId});
      CleanClearsRoot(old(tree), {fixtureId}, fixtureId);
      forall s
        ensures At(tree, SlotDir(fixtureId, s)) == At(old(tree), SlotDir(fixtureId, s))
      {
        CleanKeepsSlot(old(tree), {fixtureId}, fixtureId, s);
      }
      forall f | f != fixtureId
        ensures SameFixture(old(tree), tree, f)
      {
        CleanElsewhere(old(tree), {fixtureId}, f);
      }
    }

    method Save(input: Input) returns (entry: Result<Artifact>)
      modifies this
      ensures entry.Ok? <==> Saved(old(tree), input).Ok?
      ensures tree == if entry.Ok? then Saved(old(tree), input).value else old(tree)
      ensures entry.Ok? ==> var dir := ArtifactDir(input.fixtureId, input.screenId, input.viewportId).value;
                            At(tree, dir) == Some(entry.value) && StoresInput(old(tree), tree, dir, input)
    {
      var dir := ArtifactDir(input.fixtureId, input.screenId, input.viewportId);
      var manifest := ManifestOf(input);
      if dir.Err? || manifest.Err? {
        return Err("id not allowed");
      }
      SaveThenAt(tree, dir.value, input, manifest.value);
      SavedExactly(tree, input);
      tree := SaveAt(tree, dir.value, input, manifest.value);
      return Ok(SavedEntry(dir.value, input, manifest.value));
    }

    /** loadVisualBenchmarkLastRunArtifacts, called without a screen. */
    method Load(fixtureId: string) returns (artifacts: Result<seq<Artifact>>)
      ensures artifacts == Loaded(collation, listing, tree, fixtureId)
    {
      var root := ArtifactDir(fixtureId, None, None);
      if root.Err? {
        return Err(root.error);
      }
      var legacy := At(tree, root.value);
      if legacy.Some? {
        return Ok([legacy.value]);
      }
      var viewports := FromViewports(collation, listing, tree, fixtureId, None, root.value + ["viewports"]);
      if viewports.Err? || viewports.value != [] {
        return viewports;
      }
      var tokens := listing(ChildDirs(tree, root.value + ["screens"]));
      var found := [];
      for i := 0 to |tokens|
        invariant LoadedScreens(collation, listing, tree, fixtureId, tokens[..i]) == Ok(found)
      {
        assert tokens[..i + 1][..i] == tokens[..i] && tokens[..i + 1][i] == tokens[i];
        var screenId := FromToken(tokens[i]);
        var screen := if screenId.Err? then Err(screenId.error)
                      else LoadedScreen(collation, listing, tree, fixtureId, screenId.value);
        if screen.Err? {
          FailureIsFinal(collation, listing, tree, fixtureId, tokens, i + 1);
          return Err(screen.error);
        }
        found := found + screen.value;
      }
      assert tokens[..|tokens|] == tokens;
      return Ok(Sort(ArtifactOrder(collation), found));
    }

    /** Removes the legacy root layout of every fixture in the set, in any order. */
    method CleanUp(fixtures: set<string>)
      requires forall f :: f in fixtures ==> FixtureId(f) == Ok(f)
      modifies this
      ensures tree == CleanRoots(old(tree), fixtures)
    {
      var pending := fixtures;
      CleanNothing(tree);
      while pending != {}
        invariant pending <= fixtures && tree == CleanRoots(old(tree), fixtures - pending)
        decreases pending
      {
        var fixtureId :| fixtureId in pending;
        ghost var cleaned := fixtures - pending;
        CleanMore(old(tree), cleaned, {fixtureId});
        DeleteLegacyRoot(fixtureId);
        pending := pending - {fixtureId};
        assert cleaned + {fixtureId} == fixtures - pending;
      }
      assert fixtures - pending == fixtures;
    }

    /** The persist phase: count, clean the roots that change layout, save every artifact. */
    method Persist(entries: seq<Input>) returns (ok: bool)
      requires forall e :: e in entries ==> FixtureId(e.fixtureId) == Ok(e.fixtureId)
      modifies this
      ensures (tree, ok) == Persisted(old(tree), entries)
    {
      var entriesPerFixture := CountPerFixture(entries);
      var cleanup: set<string> :=
        set e | e in entries && (entriesPerFixture[e.fixtureId] > 1 || HasViewport(e)) :: e.fixtureId;
      assert cleanup == NeedCleanup(entries);
      CleanUp(cleanup);
      ghost var start := tree;
      for i := 0 to |entries|
        invariant SaveAll(start, entries, entries[..i]) == (tree, true)
      {
        var e := entries[i];
        assert entries[..i + 1][..i] == entries[..i];
        var isMultiScreen := entriesPerFixture[e.fixtureId] > 1;
        var saved := Save(if isMultiScreen || e.viewportId.Some? then e else e.(screenId := None));
        if saved.Err? {
          FailedSaveIsFinal(start, entries, i + 1);
          return false;
        }
      }
      assert entries[..|entries|] == entries;
      return true;
    }
  }

  method CountPerFixture(entries: seq<Input>) returns (counts: map<string, nat>)
    ensures forall e :: e in entries ==> e.fixtureId in counts && counts[e.fixtureId] == Count(entries, e.fixtureId)
  {
    counts := map[];
    for i := 0 to |entries|
      invariant forall f :: (if f in counts then counts[f] else 0) == Count(entries[..i], f)
    {
      var f := entries[i].fixtureId;
      assert entries[..i + 1] == entries[..i] + [entries[i]];
      CountSnoc(entries[..i], entries[i]);
      counts := counts[f := (if f in counts then counts[f] else 0) + 1];
    }
    assert entries[..|entries|] == entries;
    forall e | e in entries ensures e.fixtureId in counts {
      CountPositive(entries, e);
    }
  }

  // ---- Lemmas for the loops --------------------------------------------------------------------

  lemma CountSnoc(entries: seq<Input>, e: Input)
    ensures forall f :: Count(entries + [e], f) == Count(entries, f) + if e.fixtureId == f then 1 else 0
  {
    forall f ensures Count(entries + [e], f) == Count(entries, f) + if e.fixtureId == f then 1 else 0 {
      FilterSnoc(OfFixture(f), entries, e);
    }
  }

  lemma CountPositive(entries: seq<Input>, e: Input)
    requires e in entries
    ensures Count(entries, e.fixtureId) >= 1
  {
    FilterMembers(OfFixture(e.fixtureId), entries);
    assert e in Filter(OfFixture(e.fixtureId), entries);
  }

  lemma CleanNothing(tree: Tree)
    ensures CleanRoots(tree, {}) == tree
  {
  }

  lemma CleanMore(tree: Tree, a: set<string>, b: set<string>)
    ensures CleanRoots(CleanRoots(tree, a), b) == CleanRoots(tree, a + b)
  {
  }

  lemma {:induction false} FailureIsFinal(
      c: Collation, listing: Listing, tree: Tree, f: string, tokens: seq<string>, i: nat)
    requires i <= |tokens| && LoadedScreens(c, listing, tree, f, tokens[..i]).Err?
    ensures LoadedScreens(c, listing, tree, f, tokens) == LoadedScreens(c, listing, tree, f, tokens[..i])
    decreases |tokens| - i
  {
    if i == |tokens| {
      assert tokens[..i] == tokens;
    } else {
      assert tokens[..i + 1][..i] == tokens[..i];
      FailureIsFinal(c, listing, tree, f, tokens, i + 1);
    }
  }

  lemma {:induction false} FailedSaveIsFinal(tree: Tree, entries: seq<Input>, i: nat)
    requires i <= |entries| && !SaveAll(tree, entries, entries[..i]).1
    ensures SaveAll(tree, entries, entries) == SaveAll(tree, entries, entries[..i])
    decreases |entries| - i
  {
    if i == |entries| {
      assert entries[..i] == entries;
    } else {
      assert entries[..i + 1][..i] == entries[..i];
      FailedSaveIsFinal(tree, entries, i + 1);
    }
  }
}
