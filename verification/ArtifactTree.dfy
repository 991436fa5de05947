/** The last-run artifact tree: where an artifact is saved, how a fixture's artifacts are found again,
    and how the persist phase of a benchmark run switches a fixture between the two layouts. */
module ArtifactTree {
  import opened Basics
  import opened StableSort
  import opened Ids
  import opened ScreenIdCodec

  /** Path segments below the last-run root. */
  type Path = seq<string>

  datatype Manifest = Manifest(
    fixtureId: string, screenId: Option<string>, screenName: Option<string>,
    viewportId: Option<string>, viewportLabel: Option<string>, score: real, ranAt: string)

  /** An artifact to save; image and report contents are opaque numbers. */
  datatype Input = Input(
    fixtureId: string, screenId: Option<string>, screenName: Option<string>,
    viewportId: Option<string>, viewportLabel: Option<string>, score: real, ranAt: string,
    actual: nat, reference: Option<nat>, diff: Option<nat>, report: Option<nat>)

  /** An artifact as loaded: its manifest and the paths of the files beside it. */
  datatype Artifact = Artifact(
    manifest: Manifest, actualImagePath: Path, referenceImagePath: Option<Path>,
    diffImagePath: Option<Path>, reportPath: Option<Path>)

  /** Parsed manifests by directory, every other file by path. */
  datatype Tree = Tree(manifests: map<Path, Manifest>, blobs: map<Path, nat>)

  predicate Under(dir: Path, p: Path) {
    dir <= p
  }

  // ---- Locations -------------------------------------------------------------------------------

  function OptionalScreen(id: Option<string>): Result<Option<string>> {
    match NonBlank(id)
    case None => Ok(None)
    case Some(s) => var allowed :- ScreenId(s); Ok(Some(allowed))
  }

  function OptionalViewport(id: Option<string>): Result<Option<string>> {
    match NonBlank(id)
    case None => Ok(None)
    case Some(v) => var allowed :- ViewportId(v); Ok(Some(allowed))
  }

  /** The directory of a normalised location: the fixture root, or screens/<token>[/<viewport>],
      or viewports/<viewport> when only a viewport is given. */
  function Directory(f: string, screenId: Option<string>, viewportId: Option<string>): Path {
    match (screenId, viewportId)
    case (None, None) => [f]
    case (None, Some(v)) => [f, "viewports", v]
    case (Some(s), None) => [f, "screens", Encode(s)]
    case (Some(s), Some(v)) => [f, "screens", Encode(s), v]
  }

  /** resolveVisualBenchmarkLastRunArtifactPathsInternal. */
  function ArtifactDir(fixtureId: string, screenId: Option<string>, viewportId: Option<string>): Result<Path> {
    var f :- FixtureId(fixtureId);
    var s :- OptionalScreen(screenId);
    var v :- OptionalViewport(viewportId);
    Ok(Directory(f, s, v))
  }

  // ---- Saving ----------------------------------------------------------------------------------

  /** The manifest a save writes, in the form it has once parsed back. */
  function ManifestOf(input: Input): Result<Manifest> {
    var f :- FixtureId(input.fixtureId);
    var s :- OptionalScreen(input.screenId);
    var v :- OptionalViewport(input.viewportId);
    Ok(Manifest(f, s, NonBlank(input.screenName), v, NonBlank(input.viewportLabel), input.score, input.ranAt))
  }

  function Optionally(p: Path, content: Option<nat>): map<Path, nat> {
    if content.Some? then map[p := content.value] else map[]
  }

  /** The files a save removes before it writes: leftovers of a previous artifact in the same place. */
  predicate Superseded(dir: Path, p: Path) {
    || Under(dir + ["browsers"], p) || Under(dir + ["pairwise"], p)
    || p == dir + ["reference.png"] || p == dir + ["diff.png"] || p == dir + ["report.json"]
  }

  function SaveAt(tree: Tree, dir: Path, input: Input, manifest: Manifest): Tree {
    var manifests := map d | d in tree.manifests && !Superseded(dir, d) :: tree.manifests[d];
    var blobs := map p | p in tree.blobs && !Superseded(dir, p) :: tree.blobs[p];
    Tree(manifests[dir := manifest],
         blobs[dir + ["actual.png"] := input.actual]
         + Optionally(dir + ["reference.png"], input.reference)
         + Optionally(dir + ["diff.png"], input.diff)
         + Optionally(dir + ["report.json"], input.report))
  }

  /** saveVisualBenchmarkLastRunArtifact. */
  function Saved(tree: Tree, input: Input): Result<Tree> {
    var dir :- ArtifactDir(input.fixtureId, input.screenId, input.viewportId);
    var manifest :- ManifestOf(input);
    Ok(SaveAt(tree, dir, input, manifest))
  }

  function Present(blobs: map<Path, nat>, p: Path): Option<Path> {
    if p in blobs then Some(p) else None
  }

  /** loadVisualBenchmarkLastRunArtifactAtLocation, for a resolved directory. */
  function At(tree: Tree, dir: Path): Option<Artifact> {
    if dir !in tree.manifests then None
    else Some(Artifact(tree.manifests[dir], dir + ["actual.png"], Present(tree.blobs, dir + ["reference.png"]),
                       Present(tree.blobs, dir + ["diff.png"]), Present(tree.blobs, dir + ["report.json"])))
  }

  /** The entry a save returns to its caller. */
  function SavedEntry(dir: Path, input: Input, manifest: Manifest): Artifact {
    Artifact(manifest, dir + ["actual.png"],
             if input.reference.Some? then Some(dir + ["reference.png"]) else None,
             if input.diff.Some? then Some(dir + ["diff.png"]) else None,
             if input.report.Some? then Some(dir + ["report.json"]) else None)
  }

  /** What a save reports is what a load of that directory finds: optional files of an earlier
      artifact never shine through. */
  lemma SaveThenAt(tree: Tree, dir: Path, input: Input, manifest: Manifest)
    ensures At(SaveAt(tree, dir, input, manifest), dir) == Some(SavedEntry(dir, input, manifest))
  {
    NamesDiffer(dir, "actual.png", "reference.png");
    NamesDiffer(dir, "actual.png", "diff.png");
    NamesDiffer(dir, "actual.png", "report.json");
    NamesDiffer(dir, "diff.png", "reference.png");
    NamesDiffer(dir, "diff.png", "report.json");
    NamesDiffer(dir, "reference.png", "report.json");
  }

  lemma NamesDiffer(dir: Path, a: string, b: string)
    requires a != b
    ensures dir + [a] != dir + [b]
  {
    assert (dir + [a])[|dir|] == a && (dir + [b])[|dir|] == b;
  }

  // ---- What a save stores ----------------------------------------------------------------------

  /** The file holds the content given, and is absent when none was. */
  predicate HoldsFile(tree: Tree, p: Path, content: Option<nat>) {
    if content.Some? then p in tree.blobs && tree.blobs[p] == content.value else p !in tree.blobs
  }

  /** The four files of an artifact hold the images and the report it was saved with. */
  predicate HoldsContents(tree: Tree, dir: Path, input: Input) {
    && HoldsFile(tree, dir + ["actual.png"], Some(input.actual))
    && HoldsFile(tree, dir + ["reference.png"], input.reference)
    && HoldsFile(tree, dir + ["diff.png"], input.diff)
    && HoldsFile(tree, dir + ["report.json"], input.report)
  }

  /** The manifest tells what was saved: ids and names without surrounding blanks, score and time as given. */
  predicate HoldsManifest(tree: Tree, dir: Path, input: Input) {
    && dir in tree.manifests
    && var m := tree.manifests[dir];
       && FixtureId(input.fixtureId) == Ok(m.fixtureId) && m.screenId == NonBlank(input.screenId) && m.viewportId == NonBlank(input.viewportId)
       && m.screenName == NonBlank(input.screenName) && m.viewportLabel == NonBlank(input.viewportLabel)
       && m.score == input.score && m.ranAt == input.ranAt
  }

  /** An accepted id is the trimmed one. */
  lemma TrimmedIdsAreKept(screenId: Option<string>, viewportId: Option<string>)
    ensures OptionalScreen(screenId).Ok? ==> OptionalScreen(screenId).value == NonBlank(screenId)
    ensures OptionalViewport(viewportId).Ok? ==> OptionalViewport(viewportId).value == NonBlank(viewportId)
  {
    if NonBlank(screenId).Some? {
      TrimFacts(screenId.value);
      ScreenIdAccepts(NonBlank(screenId).value);
      TrimFacts(NonBlank(screenId).value);
    }
    if NonBlank(viewportId).Some? {
      TrimFacts(viewportId.value);
      ViewportIdAccepts(NonBlank(viewportId).value);
      TrimFacts(NonBlank(viewportId).value);
    }
  }

  lemma SaveHoldsContents(tree: Tree, dir: Path, input: Input, m: Manifest)
    ensures HoldsContents(SaveAt(tree, dir, input, m), dir, input)
  {
    SaveHoldsScreenshot(tree, dir, input, m);
    SaveHoldsReference(tree, dir, input, m);
    SaveHoldsDiff(tree, dir, input, m);
    SaveHoldsReport(tree, dir, input, m);
  }

  lemma SaveHoldsScreenshot(tree: Tree, dir: Path, input: Input, m: Manifest)
    ensures HoldsFile(SaveAt(tree, dir, input, m), dir + ["actual.png"], Some(input.actual))
  {
    NamesApart(dir, "actual.png");
  }

  lemma SaveHoldsReference(tree: Tree, dir: Path, input: Input, m: Manifest)
    ensures HoldsFile(SaveAt(tree, dir, input, m), dir + ["reference.png"], input.reference)
  {
    NamesApart(dir, "reference.png");
  }

  lemma SaveHoldsDiff(tree: Tree, dir: Path, input: Input, m: Manifest)
    ensures HoldsFile(SaveAt(tree, dir, input, m), dir + ["diff.png"], input.diff)
  {
    NamesApart(dir, "diff.png");
  }

  lemma SaveHoldsReport(tree: Tree, dir: Path, input: Input, m: Manifest)
    ensures HoldsFile(SaveAt(tree, dir, input, m), dir + ["report.json"], input.report)
  {
    NamesApart(dir, "report.json");
  }

  lemma NamesApart(dir: Path, name: string)
    ensures dir + [name] == dir + ["actual.png"] <==> name == "actual.png"
    ensures dir + [name] == dir + ["reference.png"] <==> name == "reference.png"
    ensures dir + [name] == dir + ["diff.png"] <==> name == "diff.png"
    ensures dir + [name] == dir + ["report.json"] <==> name == "report.json"
  {
    assert (dir + [name])[|dir|] == name;
    assert (dir + ["actual.png"])[|dir|] == "actual.png" && (dir + ["reference.png"])[|dir|] == "reference.png";
    assert (dir + ["diff.png"])[|dir|] == "diff.png" && (dir + ["report.json"])[|dir|] == "report.json";
  }

  /** A path a save neither writes nor removes: outside the four files and the per-browser leftovers. */
  predicate Outside(dir: Path, p: Path) {
    && !(dir + ["browsers"] <= p) && !(dir + ["pairwise"] <= p) && p != dir
    && p != dir + ["actual.png"] && p != dir + ["reference.png"] && p != dir + ["diff.png"] && p != dir + ["report.json"]
  }

  /** Two trees hold the same manifest and the same file at a path. */
  predicate SameAt(t: Tree, u: Tree, p: Path) {
    && (p in t.manifests <==> p in u.manifests) && (p in t.manifests && p in u.manifests ==> t.manifests[p] == u.manifests[p])
    && (p in t.blobs <==> p in u.blobs) && (p in t.blobs && p in u.blobs ==> t.blobs[p] == u.blobs[p])
  }

  lemma SaveKeepsOutside(tree: Tree, dir: Path, input: Input, m: Manifest, p: Path)
    requires Outside(dir, p)
    ensures SameAt(SaveAt(tree, dir, input, m), tree, p)
  {
  }

  /** The save stored what it was given, at the given place. */
  ghost predicate StoresInput(before: Tree, after: Tree, dir: Path, input: Input) {
    && HoldsContents(after, dir, input) && HoldsManifest(after, dir, input)
    && (forall p: Path :: dir + ["browsers"] <= p || dir + ["pairwise"] <= p ==> p !in after.manifests && p !in after.blobs)
    && forall p: Path :: Outside(dir, p) ==> SameAt(after, before, p)
  }

  /** After a save its directory holds what was given to it, the per-browser leftovers are gone, and
      everything else is as it was. */
  lemma SavedExactly(tree: Tree, input: Input)
    requires Saved(tree, input).Ok?
    ensures StoresInput(tree, Saved(tree, input).value, ArtifactDir(input.fixtureId, input.screenId, input.viewportId).value, input)
  {
    var dir, m := ArtifactDir(input.fixtureId, input.screenId, input.viewportId).value, ManifestOf(input).value;
    SaveHoldsContents(tree, dir, input, m);
    SaveHoldsManifest(tree, dir, input, m);
    forall p: Path | dir + ["browsers"] <= p || dir + ["pairwise"] <= p
      ensures p !in SaveAt(tree, dir, input, m).manifests && p !in SaveAt(tree, dir, input, m).blobs
    {
      LeftoversAreGone(tree, dir, input, m, p);
    }
    forall p: Path | Outside(dir, p)
      ensures SameAt(SaveAt(tree, dir, input, m), tree, p)
    {
      SaveKeepsOutside(tree, dir, input, m, p);
    }
  }

  lemma SaveHoldsManifest(tree: Tree, dir: Path, input: Input, m: Manifest)
    requires ManifestOf(input) == Ok(m)
    ensures HoldsManifest(SaveAt(tree, dir, input, m), dir, input)
  {
    TrimmedIdsAreKept(input.screenId, input.viewportId);
  }

  lemma LeftoversAreGone(tree: Tree, dir: Path, input: Input, m: Manifest, p: Path)
    requires dir + ["browsers"] <= p || dir + ["pairwise"] <= p
    ensures p !in SaveAt(tree, dir, input, m).manifests && p !in SaveAt(tree, dir, input, m).blobs
  {
    assert p[|dir|] == "browsers" || p[|dir|] == "pairwise";
    assert forall name: string :: (dir + [name])[|dir|] == name;
  }

  // ---- Loading ---------------------------------------------------------------------------------

  ghost predicate Enumerates(listing: set<string> -> seq<string>) {
    forall s :: Distinct(listing(s)) && forall x :: x in listing(s) <==> x in s
  }

  ghost function AnyListing(s: set<string>): (r: seq<string>)
    ensures Distinct(r) && forall x :: x in r <==> x in s
  {
    if s == {} then []
    else
      var x :| x in s;
      [x] + AnyListing(s - {x})
  }

  /** The order in which readdir reports names: unknown, but each name once. */
  type Listing = listing: set<string> -> seq<string> | Enumerates(listing)
    ghost witness s => AnyListing(s)

  /** The sub-directories of dir. */
  function ChildDirs(tree: Tree, dir: Path): set<string> {
    (set d | d in tree.manifests && Under(dir, d) && |d| > |dir| :: d[|dir|])
    + (set p | p in tree.blobs && Under(dir, p) && |p| > |dir| + 1 :: p[|dir|])
  }

  function ScreenOf(a: Artifact): string {
    a.manifest.screenId.GetOr("")
  }

  function ViewportOf(a: Artifact): string {
    a.manifest.viewportId.GetOr("")
  }

  predicate ArtifactAtMost(c: Collation, a: Artifact, b: Artifact) {
    if ScreenOf(a) != ScreenOf(b) then c(ScreenOf(a), ScreenOf(b)) else c(ViewportOf(a), ViewportOf(b))
  }

  function ArtifactOrder(c: Collation): (Artifact, Artifact) -> bool {
    (a, b) => ArtifactAtMost(c, a, b)
  }

  predicate ViewportAtMost(c: Collation, a: Artifact, b: Artifact) {
    c(ViewportOf(a), ViewportOf(b))
  }

  function ViewportOrder(c: Collation): (Artifact, Artifact) -> bool {
    (a, b) => ViewportAtMost(c, a, b)
  }

  /** The artifacts found in the named viewport directories, in the order of the names. */
  function Collected(tree: Tree, fixtureId: string, screenId: Option<string>, names: seq<string>)
    : Result<seq<Artifact>>
  {
    if names == [] then Ok([])
    else
      var rest :- Collected(tree, fixtureId, screenId, names[..|names| - 1]);
      var dir :- ArtifactDir(fixtureId, screenId, Some(names[|names| - 1]));
      Ok(rest + match At(tree, dir) case Some(a) => [a] case None => [])
  }

  /** loadArtifactEntriesFromViewportDirectory. */
  function FromViewports(c: Collation, listing: Listing, tree: Tree, fixtureId: string, screenId: Option<string>, baseDir: Path)
    : Result<seq<Artifact>>
  {
    var found :- Collected(tree, fixtureId, screenId, listing(ChildDirs(tree, baseDir)));
    Ok(Sort(ViewportOrder(c), found))
  }

  /** loadVisualBenchmarkLastRunArtifacts for one screen: its own artifact shadows its viewports. */
  function LoadedScreen(c: Collation, listing: Listing, tree: Tree, fixtureId: string, screenId: string)
    : Result<seq<Artifact>>
  {
    var dir :- ArtifactDir(fixtureId, Some(screenId), None);
    match At(tree, dir)
    case Some(direct) => Ok([direct])
    case None => FromViewports(c, listing, tree, fixtureId, Some(screenId), dir)
  }

  function LoadedScreens(c: Collation, listing: Listing, tree: Tree, fixtureId: string, tokens: seq<string>)
    : Result<seq<Artifact>>
  {
    if tokens == [] then Ok([])
    else
      var rest :- LoadedScreens(c, listing, tree, fixtureId, tokens[..|tokens| - 1]);
      var screenId :- FromToken(tokens[|tokens| - 1]);
      var found :- LoadedScreen(c, listing, tree, fixtureId, screenId);
      Ok(rest + found)
  }

  /** loadVisualBenchmarkLastRunArtifacts for a fixture: a root artifact shadows root viewports,
      which shadow the screens. */
  function Loaded(c: Collation, listing: Listing, tree: Tree, fixtureId: string): Result<seq<Artifact>> {
    var root :- ArtifactDir(fixtureId, None, None);
    match At(tree, root)
    case Some(legacy) => Ok([legacy])
    case None =>
      var viewports :- FromViewports(c, listing, tree, fixtureId, None, root + ["viewports"]);
      if viewports != [] then Ok(viewports)
      else
        var found :- LoadedScreens(c, listing, tree, fixtureId, listing(ChildDirs(tree, root + ["screens"])));
        Ok(Sort(ArtifactOrder(c), found))
  }
}
