/** Read-your-writes for the artifact tree: after the persist phase, loading a fixture returns the
    artifacts of that run, together with any older screen artifact the run did not overwrite. */
module ReadYourWrites {
  import opened Basics
  import opened StableSort
  import opened Ids
  import opened ScreenIdCodec
  import opened ArtifactTree
  import opened ArtifactLayout
  import opened PersistPhase

  // ---- Runs ------------------------------------------------------------------------------------

  function SlotOf(e: Input): Slot {
    Slot(e.screenId.GetOr(""), e.viewportId)
  }

  function RunSlots(entries: seq<Input>, f: string): set<Slot> {
    set e | e in entries && e.fixtureId == f :: SlotOf(e)
  }

  /** What a benchmark run produces: allowed ids, and one artifact per fixture, screen and viewport. */
  ghost predicate WellFormedRun(entries: seq<Input>) {
    && (forall e :: e in entries ==> FixtureId(e.fixtureId) == Ok(e.fixtureId) && e.screenId.Some? && AllowedSlot(SlotOf(e)))
    && (forall i, j :: 0 <= i < j < |entries| && entries[i].fixtureId == entries[j].fixtureId
          ==> SlotOf(entries[i]) != SlotOf(entries[j]))
  }

  predicate AtRoot(entries: seq<Input>, e: Input) {
    Count(entries, e.fixtureId) <= 1 && e.viewportId.None?
  }

  function Home(entries: seq<Input>, e: Input): Path {
    if AtRoot(entries, e) then [e.fixtureId] else SlotDir(e.fixtureId, SlotOf(e))
  }

  /** The artifact the run reports for e. */
  ghost function Reported(entries: seq<Input>, e: Input): Artifact
    requires ManifestOf(Placed(entries, e)).Ok?
  {
    SavedEntry(Home(entries, e), e, ManifestOf(Placed(entries, e)).value)
  }

  lemma SavedPlaced(tree: Tree, entries: seq<Input>, e: Input)
    requires WellFormedRun(entries) && e in entries
    ensures ManifestOf(Placed(entries, e)).Ok?
    ensures Saved(tree, Placed(entries, e))
         == Ok(SaveAt(tree, Home(entries, e), e, ManifestOf(Placed(entries, e)).value))
  {
    SlotResolves(e.fixtureId, SlotOf(e));
    assert e.screenId == Some(SlotOf(e).screenId);
    if AtRoot(entries, e) {
      assert Placed(entries, e) == e.(screenId := None);
    }
  }

  // ---- One save --------------------------------------------------------------------------------

  lemma SaveElsewhere(tree: Tree, dir: Path, e: Input, m: Manifest, f: string)
    requires dir != [] && dir[0] != f
    ensures SameFixture(tree, SaveAt(tree, dir, e, m), f)
  {
  }

  lemma SameFixtureSameView(t: Tree, u: Tree, f: string, slots: set<Slot>)
    requires SameFixture(t, u, f)
    ensures RootClear(t, f) ==> RootClear(u, f)
    ensures Layout(t, f, slots) ==> Layout(u, f, slots)
    ensures At(t, [f]) == At(u, [f])
    ensures forall s :: At(t, SlotDir(f, s)) == At(u, SlotDir(f, s))
  {
    forall s ensures At(t, SlotDir(f, s)) == At(u, SlotDir(f, s)) {
      SlotDirParts(f, s);
      assert SlotDir(f, s)[0] == SlotDir(f, s)[..3][0] == f;
    }
  }

  /** A save touches nothing outside its directory. */
  lemma SaveStaysInside(tree: Tree, dir: Path, e: Input, m: Manifest, q: Path)
    requires !(dir <= q)
    ensures q in SaveAt(tree, dir, e, m).manifests <==> q in tree.manifests
    ensures q in tree.manifests ==> SaveAt(tree, dir, e, m).manifests[q] == tree.manifests[q]
    ensures q in SaveAt(tree, dir, e, m).blobs <==> q in tree.blobs
  {
    assert forall x: string :: dir <= dir + [x];
    assert Superseded(dir, q) ==> dir <= q;
  }

  /** The viewport slots a save of s removes with its per-browser leftovers. */
  function Wiped(s: Slot): set<Slot> {
    if s.viewportId.None? then {Slot(s.screenId, Some("browsers")), Slot(s.screenId, Some("pairwise"))} else {}
  }

  /** The slots that hold an artifact after one more save. */
  function WithSlot(slots: set<Slot>, s: Slot): set<Slot> {
    slots - Wiped(s) + {s}
  }

  lemma PrefixOfSnoc(d: Path, n: string, k: Path, x: string)
    requires d + [n] <= k + [x]
    ensures d + [n] <= k || d == k
  {
    if |d| < |k| {
      assert d + [n] == (k + [x])[..|d| + 1] == k[..|d| + 1];
    } else {
      assert d + [n] == k + [x];
      assert d == (d + [n])[..|d|] == (k + [x])[..|k|] == k;
    }
  }

  lemma SnocSplits(d: Path, n: string, k: Path, x: string)
    ensures d + [n] == k + [x] <==> d == k && n == x
  {
    if d + [n] == k + [x] {
      assert d == (d + [n])[..|d|] && k == (k + [x])[..|k|];
      assert (d + [n])[|d|] == n;
    }
  }

  /** A directory that is neither the saved one nor among its leftovers. */
  predicate Untouched(dir: Path, k: Path) {
    k != dir && !Superseded(dir, k)
  }

  lemma UntouchedFiles(dir: Path, k: Path, x: string)
    requires Untouched(dir, k)
    ensures !Superseded(dir, k + [x])
  {
    SnocSplits(dir, "reference.png", k, x);
    SnocSplits(dir, "diff.png", k, x);
    SnocSplits(dir, "report.json", k, x);
    if dir + ["browsers"] <= k + [x] {
      PrefixOfSnoc(dir, "browsers", k, x);
    } else if dir + ["pairwise"] <= k + [x] {
      PrefixOfSnoc(dir, "pairwise", k, x);
    }
  }

  lemma SaveKeepsFile(tree: Tree, dir: Path, e: Input, m: Manifest, k: Path, x: string)
    requires Untouched(dir, k)
    ensures k + [x] in SaveAt(tree, dir, e, m).blobs <==> k + [x] in tree.blobs
    ensures k + [x] in tree.blobs ==> SaveAt(tree, dir, e, m).blobs[k + [x]] == tree.blobs[k + [x]]
  {
    UntouchedFiles(dir, k, x);
    SnocSplits(dir, "actual.png", k, x);
    SnocSplits(dir, "reference.png", k, x);
    SnocSplits(dir, "diff.png", k, x);
    SnocSplits(dir, "report.json", k, x);
  }

  lemma SaveKeepsUntouched(tree: Tree, dir: Path, e: Input, m: Manifest, k: Path)
    requires Untouched(dir, k)
    ensures At(SaveAt(tree, dir, e, m), k) == At(tree, k)
    ensures k in SaveAt(tree, dir, e, m).manifests <==> k in tree.manifests
  {
    SaveKeepsFile(tree, dir, e, m, k, "reference.png");
    SaveKeepsFile(tree, dir, e, m, k, "diff.png");
    SaveKeepsFile(tree, dir, e, m, k, "report.json");
  }

  /** The leftovers of a slot are exactly the slots it wipes. */
  lemma SlotsTouched(f: string, s: Slot, t: Slot)
    requires AllowedSlot(s) && AllowedSlot(t) && s != t
    ensures Untouched(SlotDir(f, s), SlotDir(f, t)) <==> t !in Wiped(s)
  {
    var d, k := SlotDir(f, s), SlotDir(f, t);
    SlotDirParts(f, s);
    SlotDirParts(f, t);
    SlotDirsSeparate(f, s, t);
    if Superseded(d, k) {
      assert d <= k;
      assert t.screenId == s.screenId && s.viewportId.None? && |k| == 4 && k[3] == t.viewportId.value;
      assert k[|d|] == k[3];
      assert '.' !in t.viewportId.value;
      assert k != d + ["reference.png"] && k != d + ["diff.png"] && k != d + ["report.json"];
      assert k[3] == "browsers" || k[3] == "pairwise";
    }
    if t in Wiped(s) {
      assert k == d + [t.viewportId.value];
    }
  }

  lemma OtherSlotKept(tree: Tree, f: string, s: Slot, t: Slot, e: Input, m: Manifest)
    requires AllowedSlot(s) && AllowedSlot(t) && s != t && t !in Wiped(s)
    ensures At(SaveAt(tree, SlotDir(f, s), e, m), SlotDir(f, t)) == At(tree, SlotDir(f, t))
    ensures SlotDir(f, t) in tree.manifests ==> SlotDir(f, t) in SaveAt(tree, SlotDir(f, s), e, m).manifests
  {
    SlotsTouched(f, s, t);
    SaveKeepsUntouched(tree, SlotDir(f, s), e, m, SlotDir(f, t));
  }

  lemma OtherSlotsKept(tree: Tree, f: string, slots: set<Slot>, s: Slot, e: Input, m: Manifest)
    requires Layout(tree, f, slots) && AllowedSlot(s)
    ensures forall t :: t in slots - Wiped(s) && t != s ==>
              At(SaveAt(tree, SlotDir(f, s), e, m), SlotDir(f, t)) == At(tree, SlotDir(f, t))
              && SlotDir(f, t) in SaveAt(tree, SlotDir(f, s), e, m).manifests
  {
    forall t | t in slots - Wiped(s) && t != s
      ensures At(SaveAt(tree, SlotDir(f, s), e, m), SlotDir(f, t)) == At(tree, SlotDir(f, t))
      ensures SlotDir(f, t) in SaveAt(tree, SlotDir(f, s), e, m).manifests
    {
      OtherSlotKept(tree, f, s, t, e, m);
    }
  }

  lemma WipedIsGone(tree: Tree, f: string, s: Slot, t: Slot, e: Input, m: Manifest, p: Path)
    requires t in Wiped(s) && SlotDir(f, t) <= p
    ensures Superseded(SlotDir(f, s), p)
  {
    assert SlotDir(f, t) == SlotDir(f, s) + [t.viewportId.value];
  }

  /** Whatever an older slot held and the save left behind belongs to a slot that remains. */
  lemma SurvivorHasSlot(tree: Tree, f: string, slots: set<Slot>, s: Slot, e: Input, m: Manifest, t: Slot, p: Path)
    requires t in slots && SlotDir(f, t) <= p && !Superseded(SlotDir(f, s), p)
    ensures t in WithSlot(slots, s)
  {
    if t in Wiped(s) {
      WipedIsGone(tree, f, s, t, e, m, p);
    }
  }

  lemma ManifestHasSlot(tree: Tree, f: string, slots: set<Slot>, s: Slot, e: Input, m: Manifest, d: Path)
    requires Layout(tree, f, slots) && d in SaveAt(tree, SlotDir(f, s), e, m).manifests && Under([f, "screens"], d)
    ensures exists t :: t in WithSlot(slots, s) && d == SlotDir(f, t)
  {
    if d == SlotDir(f, s) {
      assert s in WithSlot(slots, s);
    } else {
      assert d in tree.manifests && !Superseded(SlotDir(f, s), d);
      var t :| t in slots && d == SlotDir(f, t);
      SurvivorHasSlot(tree, f, slots, s, e, m, t, d);
    }
  }

  lemma FileHasSlot(tree: Tree, f: string, slots: set<Slot>, s: Slot, e: Input, m: Manifest, p: Path)
    requires Layout(tree, f, slots) && p in SaveAt(tree, SlotDir(f, s), e, m).blobs && Under([f, "screens"], p)
    ensures exists t :: t in WithSlot(slots, s) && SlotDir(f, t) < p
  {
    assert s in WithSlot(slots, s);
    if p in tree.blobs && !Superseded(SlotDir(f, s), p) {
      var t :| t in slots && SlotDir(f, t) < p;
      SurvivorHasSlot(tree, f, slots, s, e, m, t, p);
    } else {
      assert SlotDir(f, s) < p;
    }
  }

  lemma SaveExtendsLayout(tree: Tree, f: string, slots: set<Slot>, s: Slot, e: Input, m: Manifest)
    requires Layout(tree, f, slots) && AllowedSlot(s)
    ensures Layout(SaveAt(tree, SlotDir(f, s), e, m), f, WithSlot(slots, s))
  {
    var after := SaveAt(tree, SlotDir(f, s), e, m);
    OtherSlotsKept(tree, f, slots, s, e, m);
    forall d | d in after.manifests && Under([f, "screens"], d)
      ensures exists t :: t in WithSlot(slots, s) && d == SlotDir(f, t)
    {
      ManifestHasSlot(tree, f, slots, s, e, m, d);
    }
    forall p | p in after.blobs && Under([f, "screens"], p)
      ensures exists t :: t in WithSlot(slots, s) && SlotDir(f, t) < p
    {
      FileHasSlot(tree, f, slots, s, e, m, p);
    }
  }

  /** Saving into a slot adds that slot to the layout, at the cost of the slots it wipes. */
  lemma SaveAddsSlot(tree: Tree, f: string, slots: set<Slot>, s: Slot, e: Input, m: Manifest)
    requires RootClear(tree, f) && Layout(tree, f, slots) && AllowedSlot(s)
    ensures var after := SaveAt(tree, SlotDir(f, s), e, m);
            && RootClear(after, f) && Layout(after, f, WithSlot(slots, s))
            && At(after, SlotDir(f, s)) == Some(SavedEntry(SlotDir(f, s), e, m))
            && forall t :: t in slots - Wiped(s) && t != s ==> At(after, SlotDir(f, t)) == At(tree, SlotDir(f, t))
  {
    SaveThenAt(tree, SlotDir(f, s), e, m);
    OtherSlotsKept(tree, f, slots, s, e, m);
    SaveExtendsLayout(tree, f, slots, s, e, m);
    SaveKeepsRootClear(tree, f, s, e, m);
  }

  lemma SaveKeepsRootClear(tree: Tree, f: string, s: Slot, e: Input, m: Manifest)
    requires RootClear(tree, f)
    ensures RootClear(SaveAt(tree, SlotDir(f, s), e, m), f)
  {
    var dir := SlotDir(f, s);
    SlotDirParts(f, s);
    SaveStaysInside(tree, dir, e, m, [f]);
    assert dir[1] == dir[..3][1] == "screens";
    forall q: Path | q in SaveAt(tree, dir, e, m).manifests || q in SaveAt(tree, dir, e, m).blobs
      ensures !([f, "viewports"] < q)
    {
      if [f, "viewports"] < q {
        assert q[1] == "viewports";
        SaveStaysInside(tree, dir, e, m, q);
      }
    }
  }

  // ---- A whole persist phase -------------------------------------------------------------------

  /** The tree after the first i saves. */
  ghost function After(start: Tree, entries: seq<Input>, i: nat): Tree
    requires i <= |entries|
  {
    SaveAll(start, entries, entries[..i]).0
  }

  lemma {:induction false} SavesSucceed(start: Tree, entries: seq<Input>, i: nat)
    requires WellFormedRun(entries) && i <= |entries|
    ensures SaveAll(start, entries, entries[..i]).1
    ensures i > 0 ==> var e := entries[i - 1];
            ManifestOf(Placed(entries, e)).Ok?
            && After(start, entries, i) == SaveAt(After(start, entries, i - 1), Home(entries, e), e,
                                                  ManifestOf(Placed(entries, e)).value)
  {
    if i > 0 {
      SavesSucceed(start, entries, i - 1);
      assert entries[..i][..i - 1] == entries[..i - 1];
      SavedPlaced(After(start, entries, i - 1), entries, entries[i - 1]);
    }
  }

  lemma HomeStart(entries: seq<Input>, e: Input)
    ensures Home(entries, e) != [] && Home(entries, e)[0] == e.fixtureId
  {
    SlotDirParts(e.fixtureId, SlotOf(e));
    assert SlotDir(e.fixtureId, SlotOf(e))[0] == SlotDir(e.fixtureId, SlotOf(e))[..3][0];
  }

  lemma OtherFixtureStep(start: Tree, entries: seq<Input>, f: string, j: nat)
    requires WellFormedRun(entries) && 0 < j <= |entries| && entries[j - 1].fixtureId != f
    ensures SameFixture(After(start, entries, j - 1), After(start, entries, j), f)
  {
    var e := entries[j - 1];
    SavesSucceed(start, entries, j);
    HomeStart(entries, e);
    SaveElsewhere(After(start, entries, j - 1), Home(entries, e), e, ManifestOf(Placed(entries, e)).value, f);
  }

  ghost predicate StepKeeps(start: Tree, entries: seq<Input>, f: string, k: nat)
    requires 0 < k <= |entries|
  {
    SameFixture(After(start, entries, k - 1), After(start, entries, k), f)
  }

  lemma {:induction false} StepsChain(start: Tree, entries: seq<Input>, f: string, i: nat, j: nat)
    requires i <= j <= |entries|
    requires forall k :: i < k <= j ==> StepKeeps(start, entries, f, k)
    ensures SameFixture(After(start, entries, i), After(start, entries, j), f)
    decreases j
  {
    if i == j {
      SameFixtureIsReflexive(After(start, entries, i), f);
    } else {
      StepsChain(start, entries, f, i, j - 1);
      assert StepKeeps(start, entries, f, j);
      SameFixtureIsTransitive(After(start, entries, i), After(start, entries, j - 1), After(start, entries, j), f);
    }
  }

  /** Saves of other fixtures leave f alone. */
  lemma OtherFixtureKept(start: Tree, entries: seq<Input>, f: string, i: nat, j: nat)
    requires WellFormedRun(entries) && i <= j <= |entries|
    requires forall k :: i <= k < j ==> entries[k].fixtureId != f
    ensures SameFixture(After(start, entries, i), After(start, entries, j), f)
  {
    forall k | i < k <= j
      ensures StepKeeps(start, entries, f, k)
    {
      OtherFixtureStep(start, entries, f, k);
    }
    StepsChain(start, entries, f, i, j);
  }

  /** The slots after a run: its own, and the older ones no screen-level save of it has wiped. */
  function Remaining(slots: set<Slot>, run: set<Slot>): set<Slot> {
    set t | t in slots + run && (t in run || !WipedBy(run, t))
  }

  predicate WipedBy(run: set<Slot>, t: Slot) {
    Slot(t.screenId, None) in run && t in Wiped(Slot(t.screenId, None))
  }

  lemma RemainingNothing(slots: set<Slot>)
    ensures Remaining(slots, {}) == slots
  {
  }

  lemma RemainingGrows(slots: set<Slot>, run: set<Slot>, s: Slot)
    requires Unmixed(run + {s})
    ensures Remaining(slots, run + {s}) == WithSlot(Remaining(slots, run), s)
  {
    forall t
      ensures t in Remaining(slots, run + {s}) <==> t in WithSlot(Remaining(slots, run), s)
    {
      assert s in run + {s};
      assert t in run ==> t in run + {s};
      assert !(t in run && t in Wiped(s));
      assert WipedBy(run + {s}, t) <==> WipedBy(run, t) || t in Wiped(s);
    }
  }

  /** Nothing of fixture f sits at the root, and its slots hold the latest artifacts. */
  ghost predicate Progress(start: Tree, entries: seq<Input>, f: string, slots: set<Slot>, i: nat)
    requires WellFormedRun(entries) && i <= |entries|
  {
    var now, run := After(start, entries, i), RunSlots(entries[..i], f);
    && RootClear(now, f)
    && Layout(now, f, Remaining(slots, run))
    && (forall s :: s in Remaining(slots, run) && s !in run ==> At(now, SlotDir(f, s)) == At(start, SlotDir(f, s)))
    && (forall e :: e in entries[..i] && e.fixtureId == f
          ==> ManifestOf(Placed(entries, e)).Ok? && At(now, SlotDir(f, SlotOf(e))) == Some(Reported(entries, e)))
  }

  lemma SubsetUnmixed(a: set<Slot>, b: set<Slot>)
    requires a <= b && Unmixed(b)
    ensures Unmixed(a)
  {
  }

  lemma RunSlotsSnoc(entries: seq<Input>, f: string, i: nat)
    requires 0 < i <= |entries|
    ensures RunSlots(entries[..i], f)
         == RunSlots(entries[..i - 1], f) + if entries[i - 1].fixtureId == f then {SlotOf(entries[i - 1])} else {}
    ensures RunSlots(entries[..i], f) <= RunSlots(entries, f)
  {
    assert entries[..i] == entries[..i - 1] + [entries[i - 1]];
    assert forall e :: e in entries[..i] <==> e in entries[..i - 1] || e == entries[i - 1];
    assert forall e :: e in entries[..i] ==> e in entries;
  }

  lemma {:induction false} ProgressHolds(start: Tree, entries: seq<Input>, f: string, slots: set<Slot>, i: nat)
    requires WellFormedRun(entries) && i <= |entries|
    requires RootClear(start, f) && Layout(start, f, slots) && Unmixed(RunSlots(entries, f))
    requires forall e :: e in entries && e.fixtureId == f ==> !AtRoot(entries, e)
    ensures Progress(start, entries, f, slots, i)
  {
    if i == 0 {
      assert RunSlots(entries[..0], f) == {};
      RemainingNothing(slots);
    } else {
      ProgressHolds(start, entries, f, slots, i - 1);
      if entries[i - 1].fixtureId == f {
        OwnSave(start, entries, f, slots, i);
      } else {
        OtherSave(start, entries, f, slots, i);
      }
    }
  }

  lemma EarlierMember(entries: seq<Input>, f: string, i: nat, d: Input)
    requires 0 < i <= |entries| && entries[i - 1].fixtureId != f
    requires d in entries[..i] && d.fixtureId == f
    ensures d in entries[..i - 1]
  {
    assert entries[..i] == entries[..i - 1] + [entries[i - 1]];
  }

  lemma OtherSave(start: Tree, entries: seq<Input>, f: string, slots: set<Slot>, i: nat)
    requires WellFormedRun(entries) && 0 < i <= |entries| && entries[i - 1].fixtureId != f
    requires Progress(start, entries, f, slots, i - 1)
    ensures Progress(start, entries, f, slots, i)
  {
    var before, now := After(start, entries, i - 1), After(start, entries, i);
    RunSlotsSnoc(entries, f, i);
    assert RunSlots(entries[..i], f) == RunSlots(entries[..i - 1], f);
    OtherFixtureStep(start, entries, f, i);
    SameFixtureSameView(before, now, f, Remaining(slots, RunSlots(entries[..i], f)));
    forall d | d in entries[..i] && d.fixtureId == f
      ensures ManifestOf(Placed(entries, d)).Ok? && At(now, SlotDir(f, SlotOf(d))) == Some(Reported(entries, d))
    {
      EarlierMember(entries, f, i, d);
    }
  }

  lemma OwnSave(start: Tree, entries: seq<Input>, f: string, slots: set<Slot>, i: nat)
    requires WellFormedRun(entries) && 0 < i <= |entries| && entries[i - 1].fixtureId == f
    requires Unmixed(RunSlots(entries, f)) && !AtRoot(entries, entries[i - 1])
    requires Progress(start, entries, f, slots, i - 1)
    ensures Progress(start, entries, f, slots, i)
  {
    var e := entries[i - 1];
    var before, now := After(start, entries, i - 1), After(start, entries, i);
    var run := RunSlots(entries[..i - 1], f);
    RunSlotsSnoc(entries, f, i);
    assert run + {SlotOf(e)} == RunSlots(entries[..i], f);
    SubsetUnmixed(run + {SlotOf(e)}, RunSlots(entries, f));
    RemainingGrows(slots, run, SlotOf(e));
    SavesSucceed(start, entries, i);
    SaveAddsSlot(before, f, Remaining(slots, run), SlotOf(e), e, ManifestOf(Placed(entries, e)).value);
    forall d | d in entries[..i] && d.fixtureId == f
      ensures ManifestOf(Placed(entries, d)).Ok? && At(now, SlotDir(f, SlotOf(d))) == Some(Reported(entries, d))
    {
      var k :| 0 <= k < i && entries[k] == d;
      if k < i - 1 {
        EarlierRunSlot(entries, f, i, k);
      }
    }
  }

  lemma EarlierRunSlot(entries: seq<Input>, f: string, i: nat, k: nat)
    requires WellFormedRun(entries) && Unmixed(RunSlots(entries, f)) && k < i - 1 && i <= |entries|
    requires entries[i - 1].fixtureId == f == entries[k].fixtureId
    ensures entries[k] in entries[..i - 1] && SlotOf(entries[k]) in RunSlots(entries[..i - 1], f)
    ensures SlotOf(entries[k]) != SlotOf(entries[i - 1]) && SlotOf(entries[k]) !in Wiped(SlotOf(entries[i - 1]))
  {
    assert entries[..i - 1][k] == entries[k];
    assert SlotOf(entries[k]) in RunSlots(entries, f) && SlotOf(entries[i - 1]) in RunSlots(entries, f);
  }

  // ---- Main results ----------------------------------------------------------------------------

  lemma CleanupCovers(entries: seq<Input>, e: Input)
    requires WellFormedRun(entries) && e in entries && !AtRoot(entries, e)
    ensures e.fixtureId in NeedCleanup(entries)
  {
    if e.viewportId.Some? {
      assert AllowedViewport(e.viewportId.value);
    }
  }

  /** Every slot of this run's f holds the artifact the run reported for it. */
  ghost predicate HoldsRun(after: Tree, entries: seq<Input>, f: string) {
    forall e :: e in entries && e.fixtureId == f ==>
      (ManifestOf(Placed(entries, e)).Ok? && At(after, SlotDir(f, SlotOf(e))) == Some(Reported(entries, e)))
  }

  /** The fixture's entries all go to screens/. */
  ghost predicate UsesScreens(entries: seq<Input>, f: string) {
    && (exists e :: e in entries && e.fixtureId == f)
    && (forall e :: e in entries && e.fixtureId == f ==> !AtRoot(entries, e))
  }

  lemma CleanedStart(tree: Tree, entries: seq<Input>, f: string, slots: set<Slot>)
    requires Layout(tree, f, slots) && WellFormedRun(entries) && UsesScreens(entries, f)
    ensures var cleaned := CleanRoots(tree, NeedCleanup(entries)); RootClear(cleaned, f) && Layout(cleaned, f, slots)
  {
    var e :| e in entries && e.fixtureId == f;
    CleanupCovers(entries, e);
    CleanKeepsLayout(tree, NeedCleanup(entries), f, slots);
    CleanClearsRoot(tree, NeedCleanup(entries), f);
  }

  /** The persist phase brings a fixture that uses screens/ from its layout to the remaining one. */
  lemma PersistReaches(tree: Tree, entries: seq<Input>, f: string, slots: set<Slot>)
    requires WellFormedRun(entries) && Layout(tree, f, slots) && Unmixed(RunSlots(entries, f))
    requires UsesScreens(entries, f)
    ensures var cleaned := CleanRoots(tree, NeedCleanup(entries));
            && Persisted(tree, entries) == (After(cleaned, entries, |entries|), true)
            && Progress(cleaned, entries, f, slots, |entries|)
  {
    var cleaned := CleanRoots(tree, NeedCleanup(entries));
    CleanedStart(tree, entries, f, slots);
    ProgressHolds(cleaned, entries, f, slots, |entries|);
    SavesSucceed(cleaned, entries, |entries|);
    assert entries[..|entries|] == entries;
  }

  /** A fixture in the screens layout, whatever it held: loading lists one artifact per visible slot,
      every slot of this run holds this run's artifact, and every other slot that remains keeps the one
      it had. Nothing from the legacy root survives. The layout is again one this lemma applies to. */
  lemma ScreensReadBack(c: Collation, listing: Listing, tree: Tree, entries: seq<Input>, f: string, slots: set<Slot>)
    requires WellFormedRun(entries) && Layout(tree, f, slots) && Unmixed(RunSlots(entries, f))
    requires UsesScreens(entries, f)
    ensures Persisted(tree, entries).1
    ensures var after, remaining := Persisted(tree, entries).0, Remaining(slots, RunSlots(entries, f));
            && Lists(c, Loaded(c, listing, after, f), after, f, Visible(remaining))
            && Layout(after, f, remaining)
            && HoldsRun(after, entries, f)
            && (forall s :: s in remaining && s !in RunSlots(entries, f) ==> At(after, SlotDir(f, s)) == At(tree, SlotDir(f, s)))
  {
    var remaining := Remaining(slots, RunSlots(entries, f));
    PersistReaches(tree, entries, f, slots);
    assert entries[..|entries|] == entries;
    LoadListsLayout(c, listing, Persisted(tree, entries).0, f, remaining);
    forall s | s in remaining && s !in RunSlots(entries, f)
      ensures At(Persisted(tree, entries).0, SlotDir(f, s)) == At(tree, SlotDir(f, s))
    {
      CleanKeepsSlot(tree, NeedCleanup(entries), f, s);
    }
  }

  /** a is one of the artifacts the run reported for f. */
  ghost predicate IsReported(entries: seq<Input>, f: string, a: Artifact) {
    exists e :: e in entries && e.fixtureId == f && ManifestOf(Placed(entries, e)).Ok? && a == Reported(entries, e)
  }

  /** Every older slot was written again, or is a viewport slot whose screen the run wrote as a whole. */
  predicate Covered(slots: set<Slot>, run: set<Slot>) {
    forall s :: s in slots ==> s in run || (s.viewportId.Some? && Slot(s.screenId, None) in run)
  }

  /** Every slot of the run is visible, and nothing else is, exactly when the older slots are covered. */
  lemma VisibleIsRunExactly(slots: set<Slot>, run: set<Slot>)
    requires Unmixed(run)
    ensures Visible(Remaining(slots, run)) == run <==> Covered(slots, run)
  {
    var remaining := Remaining(slots, run);
    if Covered(slots, run) {
      forall s
        ensures s in Visible(remaining) <==> s in run
      {
        var own := Slot(s.screenId, None);
        assert own in remaining ==> own in run;
        assert s in run && own in run ==> s == own;
        assert s in remaining && s !in run ==> own in remaining;
      }
    } else {
      var s :| s in slots && s !in run && !(s.viewportId.Some? && Slot(s.screenId, None) in run);
      var own := Slot(s.screenId, None);
      assert s in remaining;
      if own in slots {
        assert own in remaining && own in Visible(remaining) && own !in run;
      } else {
        assert own !in remaining && s in Visible(remaining);
      }
    }
  }

  /** A slot whose artifact is listed is a visible one. */
  lemma ListedSlotIsVisible(c: Collation, r: Result<seq<Artifact>>, after: Tree, f: string, remaining: set<Slot>, s: Slot)
    requires Lists(c, r, after, f, Visible(remaining)) && Layout(after, f, remaining) && s in remaining
    ensures At(after, SlotDir(f, s)).Some?
    ensures At(after, SlotDir(f, s)).value in r.value <==> s in Visible(remaining)
  {
    var a := At(after, SlotDir(f, s)).value;
    if a in r.value {
      var t :| t in Visible(remaining) && At(after, SlotDir(f, t)) == Some(a);
      SameArtifactSameSlot(after, f, a, s, t);
    }
  }

  /** Exactly when is an artifact of the run itself hidden: when it belongs to a viewport of a screen
      that still has an older artifact of its own. */
  lemma RunArtifactHiddenExactly(c: Collation, listing: Listing, tree: Tree, entries: seq<Input>, f: string, slots: set<Slot>, e: Input)
    requires WellFormedRun(entries) && Layout(tree, f, slots) && Unmixed(RunSlots(entries, f))
    requires UsesScreens(entries, f) && e in entries && e.fixtureId == f
    ensures ManifestOf(Placed(entries, e)).Ok? && Loaded(c, listing, Persisted(tree, entries).0, f).Ok?
    ensures Reported(entries, e) !in Loaded(c, listing, Persisted(tree, entries).0, f).value
        <==> e.viewportId.Some? && Slot(SlotOf(e).screenId, None) in slots
  {
    ScreensReadBack(c, listing, tree, entries, f, slots);
    RunSlotHiddenExactly(slots, RunSlots(entries, f), SlotOf(e));
    ListedSlotIsVisible(c, Loaded(c, listing, Persisted(tree, entries).0, f), Persisted(tree, entries).0, f,
                        Remaining(slots, RunSlots(entries, f)), SlotOf(e));
  }

  lemma RunSlotHiddenExactly(slots: set<Slot>, run: set<Slot>, t: Slot)
    requires Unmixed(run) && t in run
    ensures t in Remaining(slots, run)
    ensures t !in Visible(Remaining(slots, run)) <==> t.viewportId.Some? && Slot(t.screenId, None) in slots
  {
    var own := Slot(t.screenId, None);
    assert own in Remaining(slots, run) <==> own in slots || own in run;
  }

  lemma ReportedSlots(after: Tree, entries: seq<Input>, f: string, s: Slot)
    requires WellFormedRun(entries) && HoldsRun(after, entries, f) && AllowedSlot(s) && At(after, SlotDir(f, s)).Some?
    ensures IsReported(entries, f, At(after, SlotDir(f, s)).value) <==> s in RunSlots(entries, f)
  {
    var a := At(after, SlotDir(f, s)).value;
    if IsReported(entries, f, a) {
      var e :| e in entries && e.fixtureId == f && ManifestOf(Placed(entries, e)).Ok? && a == Reported(entries, e);
      assert At(after, SlotDir(f, SlotOf(e))) == Some(a);
      SameArtifactSameSlot(after, f, a, s, SlotOf(e));
    }
    if s in RunSlots(entries, f) {
      var e :| e in entries && e.fixtureId == f && SlotOf(e) == s;
      assert a == Reported(entries, e);
    }
  }

  /** What is listed is what was reported when the visible slots are those of the run, and only then. */
  lemma ListsRunExactly(c: Collation, r: Result<seq<Artifact>>, after: Tree, entries: seq<Input>, f: string, remaining: set<Slot>)
    requires WellFormedRun(entries) && HoldsRun(after, entries, f) && Layout(after, f, remaining)
    requires Lists(c, r, after, f, Visible(remaining)) && RunSlots(entries, f) <= remaining
    ensures (forall a :: a in r.value <==> IsReported(entries, f, a)) <==> Visible(remaining) == RunSlots(entries, f)
  {
    var run := RunSlots(entries, f);
    if Visible(remaining) == run {
      forall a
        ensures a in r.value <==> IsReported(entries, f, a)
      {
        if a in r.value {
          var s :| s in Visible(remaining) && At(after, SlotDir(f, s)) == Some(a);
          ReportedSlots(after, entries, f, s);
        }
        if IsReported(entries, f, a) {
          var e :| e in entries && e.fixtureId == f && ManifestOf(Placed(entries, e)).Ok? && a == Reported(entries, e);
          assert SlotOf(e) in Visible(remaining);
        }
      }
    } else {
      var s :| s in remaining && (s in Visible(remaining)) != (s in run);
      ListedSlotIsVisible(c, r, after, f, remaining, s);
      ReportedSlots(after, entries, f, s);
    }
  }

  /** Whatever older screens it finds, a run that saves into screens/ is read back exactly (each of its
      artifacts once, by screen and viewport, and nothing else) when every older slot is covered by the
      run, and only then: screens/ is never purged. */
  lemma ReadYourWritesExactly(c: Collation, listing: Listing, tree: Tree, entries: seq<Input>, f: string, slots: set<Slot>)
    requires WellFormedRun(entries) && Layout(tree, f, slots) && Unmixed(RunSlots(entries, f))
    requires UsesScreens(entries, f)
    ensures var r := Loaded(c, listing, Persisted(tree, entries).0, f);
            && r.Ok? && Sorted(ArtifactOrder(c), r.value) && Distinct(r.value)
            && ((forall a :: a in r.value <==> IsReported(entries, f, a)) <==> Covered(slots, RunSlots(entries, f)))
  {
    var run := RunSlots(entries, f);
    ScreensReadBack(c, listing, tree, entries, f, slots);
    VisibleIsRunExactly(slots, run);
    assert run <= Remaining(slots, run);
    ListsRunExactly(c, Loaded(c, listing, Persisted(tree, entries).0, f), Persisted(tree, entries).0, entries, f, Remaining(slots, run));
  }

  /** A lone artifact without a viewport is read back from the legacy root, whatever else the tree holds. */
  lemma RootReadBack(c: Collation, listing: Listing, tree: Tree, entries: seq<Input>, e: Input)
    requires WellFormedRun(entries) && e in entries && AtRoot(entries, e)
    ensures Persisted(tree, entries).1 && ManifestOf(Placed(entries, e)).Ok?
    ensures Loaded(c, listing, Persisted(tree, entries).0, e.fixtureId) == Ok([Reported(entries, e)])
  {
    var k :| 0 <= k < |entries| && entries[k] == e;
    RootSaveSurvives(CleanRoots(tree, NeedCleanup(entries)), entries, k);
    assert entries[..|entries|] == entries;
  }

  lemma RootSaveSurvives(start: Tree, entries: seq<Input>, k: nat)
    requires WellFormedRun(entries) && k < |entries| && AtRoot(entries, entries[k])
    ensures SaveAll(start, entries, entries[..|entries|]).1 && ManifestOf(Placed(entries, entries[k])).Ok?
    ensures At(After(start, entries, |entries|), [entries[k].fixtureId]) == Some(Reported(entries, entries[k]))
  {
    var e, n := entries[k], |entries|;
    forall j | 0 <= j < n && j != k ensures entries[j].fixtureId != e.fixtureId {
      if entries[j].fixtureId == e.fixtureId {
        TwoOfAKind(entries, e.fixtureId, j, k);
      }
    }
    SavesSucceed(start, entries, k + 1);
    SaveThenAt(After(start, entries, k), [e.fixtureId], e, ManifestOf(Placed(entries, e)).value);
    OtherFixtureKept(start, entries, e.fixtureId, k + 1, n);
    SameFixtureSameView(After(start, entries, k + 1), After(start, entries, n), e.fixtureId, {});
    SavesSucceed(start, entries, n);
  }

  lemma TwoOfAKind(entries: seq<Input>, f: string, j: nat, k: nat)
    requires j < |entries| && k < |entries| && j != k
    requires entries[j].fixtureId == f == entries[k].fixtureId
    ensures Count(entries, f) > 1
  {
    var lo, hi := if j < k then j else k, if j < k then k else j;
    assert entries == entries[..hi] + entries[hi..];
    FilterConcat(OfFixture(f), entries[..hi], entries[hi..]);
    assert entries[lo] in entries[..hi] && entries[hi] in entries[hi..];
    FilterMembers(OfFixture(f), entries[..hi]);
    FilterMembers(OfFixture(f), entries[hi..]);
    assert entries[lo] in Filter(OfFixture(f), entries[..hi]);
    assert entries[hi] in Filter(OfFixture(f), entries[hi..]);
  }

  // ---- Fixtures outside the run ----------------------------------------------------------------

  lemma SameListing(t: Tree, u: Tree, f: string, dir: Path)
    requires SameFixture(t, u, f) && dir != [] && dir[0] == f
    ensures At(t, dir) == At(u, dir) && ChildDirs(t, dir) == ChildDirs(u, dir)
  {
    assert forall x: string :: (dir + [x])[0] == f;
    assert forall q: Path :: Under(dir, q) ==> q != [] && q[0] == f;
  }

  lemma ArtifactDirStart(f: string, s: Option<string>, v: Option<string>)
    requires FixtureId(f) == Ok(f) && ArtifactDir(f, s, v).Ok?
    ensures ArtifactDir(f, s, v).value != [] && ArtifactDir(f, s, v).value[0] == f
  {
  }

  lemma {:induction false} SameCollected(t: Tree, u: Tree, f: string, s: Option<string>, names: seq<string>)
    requires SameFixture(t, u, f) && FixtureId(f) == Ok(f)
    ensures Collected(t, f, s, names) == Collected(u, f, s, names)
  {
    if names != [] {
      SameCollected(t, u, f, s, names[..|names| - 1]);
      var dir := ArtifactDir(f, s, Some(names[|names| - 1]));
      if dir.Ok? {
        ArtifactDirStart(f, s, Some(names[|names| - 1]));
        SameListing(t, u, f, dir.value);
      }
    }
  }

  lemma {:induction false} SameScreens(c: Collation, listing: Listing, t: Tree, u: Tree, f: string, tokens: seq<string>)
    requires SameFixture(t, u, f) && FixtureId(f) == Ok(f)
    ensures LoadedScreens(c, listing, t, f, tokens) == LoadedScreens(c, listing, u, f, tokens)
  {
    if tokens != [] {
      SameScreens(c, listing, t, u, f, tokens[..|tokens| - 1]);
      var screenId := FromToken(tokens[|tokens| - 1]);
      if screenId.Ok? && ArtifactDir(f, Some(screenId.value), None).Ok? {
        ArtifactDirStart(f, Some(screenId.value), None);
        var dir := ArtifactDir(f, Some(screenId.value), None).value;
        SameListing(t, u, f, dir);
        SameCollected(t, u, f, Some(screenId.value), listing(ChildDirs(t, dir)));
      }
    }
  }

  /** A load depends on nothing but the fixture's own part of the tree. */
  lemma LoadIsLocal(c: Collation, listing: Listing, t: Tree, u: Tree, f: string)
    requires SameFixture(t, u, f) && FixtureId(f) == Ok(f)
    ensures Loaded(c, listing, t, f) == Loaded(c, listing, u, f)
  {
    SameListing(t, u, f, [f]);
    SameListing(t, u, f, [f] + ["viewports"]);
    SameListing(t, u, f, [f] + ["screens"]);
    SameCollected(t, u, f, None, listing(ChildDirs(t, [f] + ["viewports"])));
    SameScreens(c, listing, t, u, f, listing(ChildDirs(t, [f] + ["screens"])));
  }

  /** A run never changes what loading a fixture outside the run returns. */
  lemma OtherFixturesUnchanged(c: Collation, listing: Listing, tree: Tree, entries: seq<Input>, f: string)
    requires WellFormedRun(entries) && FixtureId(f) == Ok(f) && forall e :: e in entries ==> e.fixtureId != f
    ensures Loaded(c, listing, Persisted(tree, entries).0, f) == Loaded(c, listing, tree, f)
  {
    var cleaned := CleanRoots(tree, NeedCleanup(entries));
    CleanElsewhere(tree, NeedCleanup(entries), f);
    OtherFixtureKept(cleaned, entries, f, 0, |entries|);
    assert entries[..|entries|] == entries;
    SameFixtureIsTransitive(tree, cleaned, Persisted(tree, entries).0, f);
    LoadIsLocal(c, listing, tree, Persisted(tree, entries).0, f);
  }
}
