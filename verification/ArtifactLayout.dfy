/** Which artifacts of a fixture a load can see: the screens layout is summarised by the slots that
    hold an artifact, and loading returns exactly one artifact per slot. */
module ArtifactLayout {
  import opened Basics
  import opened StableSort
  import opened Ids
  import opened ScreenIdCodec
  import opened ArtifactTree

  datatype Slot = Slot(screenId: string, viewportId: Option<string>)

  function SlotDir(f: string, slot: Slot): Path {
    Directory(f, Some(slot.screenId), slot.viewportId)
  }

  predicate AllowedSlot(slot: Slot) {
    AllowedScreen(slot.screenId) && (slot.viewportId.Some? ==> AllowedViewport(slot.viewportId.value))
  }

  /** A screen either has one artifact of its own or artifacts per viewport. */
  predicate Unmixed(slots: set<Slot>) {
    forall a, b :: a in slots && b in slots && a.screenId == b.screenId && a.viewportId.None? ==> a == b
  }

  /** A viewport slot is hidden by an artifact of the screen itself. */
  predicate Shadowed(slots: set<Slot>, s: Slot) {
    s.viewportId.Some? && Slot(s.screenId, None) in slots
  }

  /** The slots a load can see. */
  function Visible(slots: set<Slot>): set<Slot> {
    set s | s in slots && !Shadowed(slots, s)
  }

  /** Below screens/, the tree of fixture f holds artifacts at exactly these slots. */
  ghost predicate Layout(tree: Tree, f: string, slots: set<Slot>) {
    && (forall s :: s in slots ==> AllowedSlot(s) && SlotDir(f, s) in tree.manifests)
    && (forall d :: d in tree.manifests && Under([f, "screens"], d) ==> exists s :: s in slots && d == SlotDir(f, s))
    && (forall p :: p in tree.blobs && Under([f, "screens"], p)
          ==> exists s :: s in slots && SlotDir(f, s) < p)
  }

  /** Nothing at the fixture root hides the screens layout. */
  ghost predicate RootClear(tree: Tree, f: string) {
    && [f] !in tree.manifests
    && (forall d :: d in tree.manifests ==> !([f, "viewports"] < d))
    && (forall p :: p in tree.blobs ==> !([f, "viewports"] < p))
  }

  /** A load succeeds with exactly these artifacts, each once, by screen and viewport. */
  ghost predicate Lists(c: Collation, r: Result<seq<Artifact>>, tree: Tree, f: string, slots: set<Slot>) {
    && r.Ok?
    && Sorted(ArtifactOrder(c), r.value)
    && Distinct(r.value)
    && forall a :: a in r.value <==> exists s :: s in slots && At(tree, SlotDir(f, s)) == Some(a)
  }

  // ---- Fixtures apart --------------------------------------------------------------------------

  /** Fixtures occupy disjoint parts of the tree. */
  ghost predicate SameFixture(t: Tree, u: Tree, f: string) {
    && (forall d: Path :: d != [] && d[0] == f ==> (d in t.manifests <==> d in u.manifests))
    && (forall d: Path :: d != [] && d[0] == f && d in t.manifests ==> t.manifests[d] == u.manifests[d])
    && (forall p: Path :: p != [] && p[0] == f ==> (p in t.blobs <==> p in u.blobs))
    && (forall p: Path :: p != [] && p[0] == f && p in t.blobs ==> t.blobs[p] == u.blobs[p])
  }

  lemma SameFixtureIsReflexive(t: Tree, f: string)
    ensures SameFixture(t, t, f)
  {
  }

  lemma SameFixtureIsTransitive(t: Tree, u: Tree, v: Tree, f: string)
    requires SameFixture(t, u, f) && SameFixture(u, v, f)
    ensures SameFixture(t, v, f)
  {
  }

  // ---- Tokens and slots ------------------------------------------------------------------------

  lemma SlotDirParts(f: string, s: Slot)
    ensures |SlotDir(f, s)| == (if s.viewportId.Some? then 4 else 3)
    ensures SlotDir(f, s)[..3] == [f, "screens", Encode(s.screenId)]
    ensures s.viewportId.Some? ==> SlotDir(f, s)[3] == s.viewportId.value
  {
  }

  lemma EncodeSeparates(a: string, b: string)
    requires AllowedScreen(a) && AllowedScreen(b)
    ensures Encode(a) == Encode(b) <==> a == b
    ensures FromToken(Encode(a)) == Ok(a)
  {
    ScreenIdAccepts(a);
    ScreenIdAccepts(b);
    NoSpaceIsTrimmed(a);
    NoSpaceIsTrimmed(b);
    RoundTrip(a);
    RoundTrip(b);
  }

  lemma SlotDirsSeparate(f: string, a: Slot, b: Slot)
    requires AllowedSlot(a) && AllowedSlot(b)
    ensures SlotDir(f, a) == SlotDir(f, b) <==> a == b
    ensures SlotDir(f, a) <= SlotDir(f, b) ==> a.screenId == b.screenId && (a == b || a.viewportId.None?)
  {
    SlotDirParts(f, a);
    SlotDirParts(f, b);
    EncodeSeparates(a.screenId, b.screenId);
    if SlotDir(f, a) <= SlotDir(f, b) {
      assert SlotDir(f, a)[2] == SlotDir(f, b)[2];
    }
  }

  lemma SlotResolves(f: string, s: Slot)
    requires FixtureId(f) == Ok(f) && AllowedSlot(s)
    ensures ArtifactDir(f, Some(s.screenId), s.viewportId) == Ok(SlotDir(f, s))
    ensures ArtifactDir(f, Some(s.screenId), None) == Ok([f, "screens", Encode(s.screenId)])
  {
    NoSpaceIsTrimmed(s.screenId);
    ScreenIdAccepts(s.screenId);
    if s.viewportId.Some? {
      NoSpaceIsTrimmed(s.viewportId.value);
      ViewportIdAccepts(s.viewportId.value);
    }
  }

  // ---- Directory listings ----------------------------------------------------------------------

  function Tokens(slots: set<Slot>): set<string> {
    set s | s in slots :: Encode(s.screenId)
  }

  /** Whatever makes n a sub-directory lies in the directory of some slot. */
  lemma ChildHasSlot(tree: Tree, f: string, slots: set<Slot>, dir: Path, n: string) returns (q: Path, s: Slot)
    requires Layout(tree, f, slots) && Under([f, "screens"], dir) && n in ChildDirs(tree, dir)
    ensures s in slots && SlotDir(f, s) <= q && dir <= q && |q| > |dir| && q[|dir|] == n
  {
    q :| (q in tree.manifests || q in tree.blobs) && Under(dir, q) && |q| > |dir| && q[|dir|] == n;
    assert Under([f, "screens"], q);
    s :| s in slots && SlotDir(f, s) <= q;
  }

  lemma SlotIsChild(tree: Tree, f: string, slots: set<Slot>, dir: Path, s: Slot)
    requires Layout(tree, f, slots) && s in slots && dir < SlotDir(f, s)
    ensures SlotDir(f, s)[|dir|] in ChildDirs(tree, dir)
  {
  }

  lemma ScreenDirectories(tree: Tree, f: string, slots: set<Slot>)
    requires Layout(tree, f, slots)
    ensures ChildDirs(tree, [f, "screens"]) == Tokens(slots)
  {
    var dir := [f, "screens"];
    forall n | n in ChildDirs(tree, dir) ensures n in Tokens(slots) {
      var q, s := ChildHasSlot(tree, f, slots, dir, n);
      SlotDirParts(f, s);
      assert q[2] == SlotDir(f, s)[..3][2];
    }
    forall n | n in Tokens(slots) ensures n in ChildDirs(tree, dir) {
      var s :| s in slots && Encode(s.screenId) == n;
      SlotDirParts(f, s);
      SlotIsChild(tree, f, slots, dir, s);
    }
  }

  function Viewports(slots: set<Slot>, screenId: string): set<string> {
    set s | s in slots && s.screenId == screenId && s.viewportId.Some? :: s.viewportId.value
  }

  lemma ViewportDirectories(tree: Tree, f: string, slots: set<Slot>, screenId: string)
    requires Layout(tree, f, slots) && AllowedScreen(screenId) && Slot(screenId, None) !in slots
    ensures ChildDirs(tree, [f, "screens", Encode(screenId)]) == Viewports(slots, screenId)
  {
    var dir := [f, "screens", Encode(screenId)];
    forall n | n in ChildDirs(tree, dir) ensures n in Viewports(slots, screenId) {
      var q, s := ChildHasSlot(tree, f, slots, dir, n);
      SlotDirParts(f, s);
      assert q[2] == SlotDir(f, s)[..3][2];
      EncodeSeparates(s.screenId, screenId);
      assert s == Slot(screenId, s.viewportId);
      assert s.viewportId.Some?;
      assert q[3] == SlotDir(f, s)[3];
    }
    forall n | n in Viewports(slots, screenId) ensures n in ChildDirs(tree, dir) {
      var s :| s in slots && s.screenId == screenId && s.viewportId == Some(n);
      SlotDirParts(f, s);
      SlotIsChild(tree, f, slots, dir, s);
    }
  }

  // ---- Loading a layout ------------------------------------------------------------------------

  lemma ArtifactOrdersAreTotal(c: Collation)
    ensures TotalPreorder(ArtifactOrder(c)) && TotalPreorder(ViewportOrder(c))
  {
    var leq, byViewport := ArtifactOrder(c), ViewportOrder(c);
    forall a, b ensures leq(a, b) || leq(b, a) ensures byViewport(a, b) || byViewport(b, a) {
    }
    forall a, b, d | leq(a, b) && leq(b, d) ensures leq(a, d) {
    }
    forall a, b, d | byViewport(a, b) && byViewport(b, d) ensures byViewport(a, d) {
    }
  }

  /** Listed artifacts come in the order of their screens, and within a screen of their viewports. */
  lemma ArtifactsInOrder(c: Collation, artifacts: seq<Artifact>, i: nat, j: nat)
    requires Sorted(ArtifactOrder(c), artifacts) && i < j < |artifacts|
    ensures var a, b := artifacts[i].manifest, artifacts[j].manifest;
            && c(a.screenId.GetOr(""), b.screenId.GetOr(""))
            && (a.screenId.GetOr("") == b.screenId.GetOr("") ==> c(a.viewportId.GetOr(""), b.viewportId.GetOr("")))
  {
    assert ArtifactOrder(c)(artifacts[i], artifacts[j]);
    assert c(ScreenOf(artifacts[i]), ScreenOf(artifacts[i]));
  }

  /** An artifact remembers the directory it was found in. */
  lemma SameArtifactSameSlot(tree: Tree, f: string, a: Artifact, s: Slot, t: Slot)
    requires AllowedSlot(s) && AllowedSlot(t)
    requires At(tree, SlotDir(f, s)) == Some(a) == At(tree, SlotDir(f, t))
    ensures s == t
  {
    var d, e := SlotDir(f, s), SlotDir(f, t);
    assert d == a.actualImagePath[..|a.actualImagePath| - 1] == e;
    SlotDirsSeparate(f, s, t);
  }

  lemma CollectedSnoc(tree: Tree, f: string, screenId: string, init: seq<string>, n: string, before: seq<Artifact>)
    requires FixtureId(f) == Ok(f) && AllowedScreen(screenId) && AllowedViewport(n)
    requires Collected(tree, f, Some(screenId), init) == Ok(before)
    requires SlotDir(f, Slot(screenId, Some(n))) in tree.manifests
    ensures Collected(tree, f, Some(screenId), init + [n])
         == Ok(before + [At(tree, SlotDir(f, Slot(screenId, Some(n)))).value])
  {
    SlotResolves(f, Slot(screenId, Some(n)));
    assert (init + [n])[..|init|] == init;
  }

  /** The artifacts at the named viewports of a screen. */
  ghost predicate Matches(tree: Tree, f: string, screenId: string, names: seq<string>, arts: seq<Artifact>) {
    |arts| == |names|
    && forall i :: 0 <= i < |names| ==> At(tree, SlotDir(f, Slot(screenId, Some(names[i])))) == Some(arts[i])
  }

  lemma {:induction false} CollectedSlots(tree: Tree, f: string, screenId: string, names: seq<string>)
    requires FixtureId(f) == Ok(f) && AllowedScreen(screenId)
    requires forall n :: n in names ==> AllowedViewport(n) && SlotDir(f, Slot(screenId, Some(n))) in tree.manifests
    ensures var r := Collected(tree, f, Some(screenId), names);
            r.Ok? && Matches(tree, f, screenId, names, r.value)
  {
    if names != [] {
      var init, n := names[..|names| - 1], names[|names| - 1];
      assert names == init + [n] && n in names && forall m :: m in init ==> m in names;
      CollectedSlots(tree, f, screenId, init);
      CollectedSnoc(tree, f, screenId, init, n, Collected(tree, f, Some(screenId), init).value);
    }
  }

  /** a is the artifact of one of the slots of screenId. */
  ghost predicate OfScreen(tree: Tree, f: string, slots: set<Slot>, screenId: string, a: Artifact) {
    exists s :: s in slots && s.screenId == screenId && At(tree, SlotDir(f, s)) == Some(a)
  }

  lemma ViewportArtifacts(c: Collation, listing: Listing, tree: Tree, f: string, slots: set<Slot>, screenId: string)
    requires FixtureId(f) == Ok(f) && Layout(tree, f, slots) && AllowedScreen(screenId)
    requires Slot(screenId, None) !in slots
    ensures var dir := [f, "screens", Encode(screenId)];
            var r := FromViewports(c, listing, tree, f, Some(screenId), dir);
            r.Ok? && Distinct(r.value) && forall a :: a in r.value <==> OfScreen(tree, f, slots, screenId, a)
  {
    ViewportDirectories(tree, f, slots, screenId);
    var names := listing(Viewports(slots, screenId));
    forall n | n in names ensures Slot(screenId, Some(n)) in slots {
      var s :| s in slots && s.screenId == screenId && s.viewportId == Some(n);
      assert s == Slot(screenId, Some(n));
    }
    CollectedSlots(tree, f, screenId, names);
    var found := Collected(tree, f, Some(screenId), names).value;
    forall i, j | 0 <= i < j < |found| ensures found[i] != found[j] {
      if found[i] == found[j] {
        SameArtifactSameSlot(tree, f, found[i], Slot(screenId, Some(names[i])), Slot(screenId, Some(names[j])));
      }
    }
    forall a ensures a in found <==> OfScreen(tree, f, slots, screenId, a) {
      if a in found {
        var i :| 0 <= i < |found| && found[i] == a;
        assert At(tree, SlotDir(f, Slot(screenId, Some(names[i])))) == Some(a);
      }
      if s :| s in slots && s.screenId == screenId && At(tree, SlotDir(f, s)) == Some(a) {
        assert s.viewportId.value in names;
        var i :| 0 <= i < |names| && names[i] == s.viewportId.value;
        assert Slot(screenId, Some(names[i])) == s && found[i] == a;
      }
    }
    ArtifactOrdersAreTotal(c);
    SortFacts(ViewportOrder(c), found);
    SortKeepsDistinct(ViewportOrder(c), found);
  }

  lemma VisibleOfScreen(tree: Tree, f: string, slots: set<Slot>, screenId: string, a: Artifact)
    ensures Slot(screenId, None) in slots ==>
              (OfScreen(tree, f, Visible(slots), screenId, a) <==> At(tree, SlotDir(f, Slot(screenId, None))) == Some(a))
    ensures Slot(screenId, None) !in slots ==>
              (OfScreen(tree, f, Visible(slots), screenId, a) <==> OfScreen(tree, f, slots, screenId, a))
  {
    var own := Slot(screenId, None);
    if own in slots {
      assert own in Visible(slots);
      forall s | s in Visible(slots) && s.screenId == screenId
        ensures s == own
      {
        assert !Shadowed(slots, s);
      }
    } else {
      forall s | s in slots && s.screenId == screenId
        ensures s in Visible(slots)
      {
        assert !Shadowed(slots, s);
      }
    }
  }

  lemma NoDirectArtifact(tree: Tree, f: string, slots: set<Slot>, screenId: string)
    requires Layout(tree, f, slots) && AllowedScreen(screenId) && Slot(screenId, None) !in slots
    ensures [f, "screens", Encode(screenId)] !in tree.manifests
  {
    var dir := [f, "screens", Encode(screenId)];
    if dir in tree.manifests {
      assert Under([f, "screens"], dir);
      var s :| s in slots && SlotDir(f, s) == dir;
      SlotDirParts(f, s);
      EncodeSeparates(s.screenId, screenId);
      assert false;
    }
  }

  /** A screen's own artifact is all a load of the screen shows; without one, its viewports are. */
  lemma ScreenIsListed(c: Collation, listing: Listing, tree: Tree, f: string, slots: set<Slot>, screenId: string)
    requires FixtureId(f) == Ok(f) && Layout(tree, f, slots) && AllowedScreen(screenId)
    ensures var r := LoadedScreen(c, listing, tree, f, screenId);
            r.Ok? && Distinct(r.value) && forall a :: a in r.value <==> OfScreen(tree, f, Visible(slots), screenId, a)
  {
    SlotResolves(f, Slot(screenId, None));
    assert SlotDir(f, Slot(screenId, None)) == [f, "screens", Encode(screenId)];
    forall a
      ensures Slot(screenId, None) in slots ==>
                (OfScreen(tree, f, Visible(slots), screenId, a) <==> At(tree, SlotDir(f, Slot(screenId, None))) == Some(a))
      ensures Slot(screenId, None) !in slots ==>
                (OfScreen(tree, f, Visible(slots), screenId, a) <==> OfScreen(tree, f, slots, screenId, a))
    {
      VisibleOfScreen(tree, f, slots, screenId, a);
    }
    if Slot(screenId, None) !in slots {
      NoDirectArtifact(tree, f, slots, screenId);
      ViewportArtifacts(c, listing, tree, f, slots, screenId);
    }
  }

  /** a is the artifact of a slot whose token is among the given ones. */
  ghost predicate OfTokens(tree: Tree, f: string, slots: set<Slot>, tokens: seq<string>, a: Artifact) {
    exists s :: s in slots && Encode(s.screenId) in tokens && At(tree, SlotDir(f, s)) == Some(a)
  }

  lemma {:induction false} TokenArtifacts(
      c: Collation, listing: Listing, tree: Tree, f: string, slots: set<Slot>, tokens: seq<string>)
    requires FixtureId(f) == Ok(f) && Layout(tree, f, slots)
    requires Distinct(tokens) && forall t :: t in tokens ==> t in Tokens(slots)
    ensures var r := LoadedScreens(c, listing, tree, f, tokens);
            r.Ok? && Distinct(r.value) && forall a :: a in r.value <==> OfTokens(tree, f, Visible(slots), tokens, a)
  {
    if tokens != [] {
      var init, token := tokens[..|tokens| - 1], tokens[|tokens| - 1];
      assert tokens == init + [token];
      assert forall t :: t in tokens <==> t in init || t == token;
      TokenArtifacts(c, listing, tree, f, slots, init);
      assert token in Tokens(slots);
      var s0 :| s0 in slots && Encode(s0.screenId) == token;
      EncodeSeparates(s0.screenId, s0.screenId);
      ScreenIsListed(c, listing, tree, f, slots, s0.screenId);
      JoinScreens(tree, f, Visible(slots), init, s0.screenId,
                  LoadedScreens(c, listing, tree, f, init).value, LoadedScreen(c, listing, tree, f, s0.screenId).value);
    }
  }

  lemma DistinctConcat<T>(a: seq<T>, b: seq<T>)
    requires Distinct(a) && Distinct(b) && forall x, y :: x in a && y in b ==> x != y
    ensures Distinct(a + b)
  {
    var s := a + b;
    forall i, j | 0 <= i < j < |s| ensures s[i] != s[j] {
      assert i < |a| ==> s[i] in a;
      assert j >= |a| ==> s[j] in b;
    }
  }

  lemma JoinScreens(tree: Tree, f: string, slots: set<Slot>, init: seq<string>, screenId: string,
                    before: seq<Artifact>, found: seq<Artifact>)
    requires AllowedScreen(screenId) && Encode(screenId) !in init && forall s :: s in slots ==> AllowedSlot(s)
    requires Distinct(before) && forall a :: a in before <==> OfTokens(tree, f, slots, init, a)
    requires Distinct(found) && forall a :: a in found <==> OfScreen(tree, f, slots, screenId, a)
    ensures Distinct(before + found)
    ensures forall a :: a in before + found <==> OfTokens(tree, f, slots, init + [Encode(screenId)], a)
  {
    forall a, b | a in before && b in found ensures a != b {
      if a == b {
        var s :| s in slots && Encode(s.screenId) in init && At(tree, SlotDir(f, s)) == Some(a);
        var t :| t in slots && t.screenId == screenId && At(tree, SlotDir(f, t)) == Some(a);
        SameArtifactSameSlot(tree, f, a, s, t);
      }
    }
    DistinctConcat(before, found);
    forall a ensures a in before + found <==> OfTokens(tree, f, slots, init + [Encode(screenId)], a) {
      if s :| s in slots && Encode(s.screenId) in init + [Encode(screenId)] && At(tree, SlotDir(f, s)) == Some(a) {
        EncodeSeparates(s.screenId, screenId);
        assert OfTokens(tree, f, slots, init, a) || OfScreen(tree, f, slots, screenId, a);
      }
    }
  }

  lemma NoRootViewports(c: Collation, listing: Listing, tree: Tree, f: string)
    requires FixtureId(f) == Ok(f) && RootClear(tree, f)
    ensures At(tree, [f]) == None && ArtifactDir(f, None, None) == Ok([f])
    ensures FromViewports(c, listing, tree, f, None, [f] + ["viewports"]) == Ok([])
  {
    var dir := [f] + ["viewports"];
    assert dir == [f, "viewports"];
    assert ChildDirs(tree, dir) == {};
    var none: set<string> := {};
    EmptyOrInhabited(listing(none));
    assert listing(none) == [];
  }

  /** With nothing at the root to hide it, a screens layout is loaded slot for visible slot. */
  lemma LoadListsLayout(c: Collation, listing: Listing, tree: Tree, f: string, slots: set<Slot>)
    requires FixtureId(f) == Ok(f) && RootClear(tree, f) && Layout(tree, f, slots)
    ensures Lists(c, Loaded(c, listing, tree, f), tree, f, Visible(slots))
  {
    NoRootViewports(c, listing, tree, f);
    ScreenDirectories(tree, f, slots);
    assert [f] + ["screens"] == [f, "screens"];
    var tokens := listing(Tokens(slots));
    TokenArtifacts(c, listing, tree, f, slots, tokens);
    var found := LoadedScreens(c, listing, tree, f, tokens).value;
    AllTokensListed(tree, f, slots, tokens);
    ArtifactOrdersAreTotal(c);
    SortFacts(ArtifactOrder(c), found);
    SortKeepsDistinct(ArtifactOrder(c), found);
  }

  lemma AllTokensListed(tree: Tree, f: string, slots: set<Slot>, tokens: seq<string>)
    requires forall t :: t in Tokens(slots) ==> t in tokens
    ensures forall a :: OfTokens(tree, f, Visible(slots), tokens, a)
              <==> exists s :: s in Visible(slots) && At(tree, SlotDir(f, s)) == Some(a)
  {
    forall s | s in Visible(slots)
      ensures Encode(s.screenId) in tokens
    {
      assert Encode(s.screenId) in Tokens(slots);
    }
  }
}
