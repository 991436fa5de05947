/** Score entries, their canonical order, and the merge of freshly written scores into a stored list. */
module ScoreMerge {
  import opened Basics
  import opened Indexing
  import opened StableSort
  import opened Ids
  import opened ScoreKeys

  datatype ScoreEntry = ScoreEntry(
    fixtureId: string, screenId: Option<string>, screenName: Option<string>,
    viewportId: Option<string>, viewportLabel: Option<string>, score: real)

  function KeyOf(e: ScoreEntry): Result<string> {
    ScoreKey(e.fixtureId, e.screenId, e.viewportId)
  }

  /** The score of the last entry with the key; none when no entry has it. */
  ghost predicate IsLastScore<K>(keyed: ScoreEntry -> K, scores: seq<ScoreEntry>, key: K, score: Option<real>) {
    exists x :: IsLast(keyed, scores, key, x) && score == (if x.None? then None else Some(x.value.score))
  }

  // ---- The order of stored scores --------------------------------------------------------------

  /** The comparator of sortScores: fixture, screen, viewport, then screen name; a missing id is "". */
  predicate EntryAtMost(c: Collation, a: ScoreEntry, b: ScoreEntry) {
    if a.fixtureId != b.fixtureId then c(a.fixtureId, b.fixtureId)
    else if a.screenId.GetOr("") != b.screenId.GetOr("") then c(a.screenId.GetOr(""), b.screenId.GetOr(""))
    else if a.viewportId.GetOr("") != b.viewportId.GetOr("") then c(a.viewportId.GetOr(""), b.viewportId.GetOr(""))
    else c(a.screenName.GetOr(""), b.screenName.GetOr(""))
  }

  function EntryOrder(c: Collation): (ScoreEntry, ScoreEntry) -> bool {
    (a, b) => EntryAtMost(c, a, b)
  }

  lemma EntryOrderIsTotal(c: Collation)
    ensures TotalPreorder(EntryOrder(c))
  {
    var leq := EntryOrder(c);
    forall a, b ensures leq(a, b) || leq(b, a) {
    }
    forall a, b, d | leq(a, b) && leq(b, d) ensures leq(a, d) {
      EntryOrderIsTransitive(c, a, b, d);
    }
  }

  lemma EntryOrderIsTransitive(c: Collation, a: ScoreEntry, b: ScoreEntry, d: ScoreEntry)
    requires EntryAtMost(c, a, b) && EntryAtMost(c, b, d)
    ensures EntryAtMost(c, a, d)
  {
  }

  /** Entries that compare equal agree on everything the score key is made of. */
  lemma EquivalentEntriesShareKeys(c: Collation, a: ScoreEntry, b: ScoreEntry)
    requires Equivalent(EntryOrder(c), a, b)
    ensures a.fixtureId == b.fixtureId && KeyOf(a) == KeyOf(b)
  {
    assert Trim("") == "";
  }

  function SortScores(c: Collation, scores: seq<ScoreEntry>): seq<ScoreEntry> {
    Sort(EntryOrder(c), scores)
  }

  // ---- Merging ---------------------------------------------------------------------------------

  function Keys(scores: seq<ScoreEntry>): set<Result<string>> {
    set e | e in scores :: KeyOf(e)
  }

  function KeyOutside(keys: set<Result<string>>): ScoreEntry -> bool {
    e => KeyOf(e) !in keys
  }

  function FixtureOutside(fixtureId: string): ScoreEntry -> bool {
    (e: ScoreEntry) => e.fixtureId != fixtureId
  }

  function KeyIs(key: Result<string>): ScoreEntry -> bool {
    e => KeyOf(e) == key
  }

  function FixtureIs(fixtureId: string): ScoreEntry -> bool {
    (e: ScoreEntry) => e.fixtureId == fixtureId
  }

  /** What mergeScores makes of two lists whose fixture ids are all allowed. */
  function Merged(c: Collation, existing: seq<ScoreEntry>, replacements: seq<ScoreEntry>): seq<ScoreEntry> {
    SortScores(c, Filter(KeyOutside(Keys(replacements)), existing) + replacements)
  }

  function MergedFixture(c: Collation, existing: seq<ScoreEntry>, replacements: seq<ScoreEntry>, fixtureId: string)
    : seq<ScoreEntry>
  {
    SortScores(c, Filter(FixtureOutside(fixtureId), existing) + replacements)
  }

  predicate AllKeyed(scores: seq<ScoreEntry>) {
    forall e :: e in scores ==> KeyOf(e).Ok?
  }

  lemma KeysSnoc(scores: seq<ScoreEntry>, i: nat)
    requires i < |scores|
    ensures Keys(scores[..i + 1]) == Keys(scores[..i]) + {KeyOf(scores[i])}
    ensures AllKeyed(scores[..i + 1]) <==> AllKeyed(scores[..i]) && KeyOf(scores[i]).Ok?
    ensures KeyOf(scores[i]).Err? ==> !AllKeyed(scores)
  {
    assert scores[..i + 1] == scores[..i] + [scores[i]] && scores[i] in scores;
  }

  lemma KeptSnoc(keys: set<Result<string>>, scores: seq<ScoreEntry>, i: nat)
    requires i < |scores|
    ensures Filter(KeyOutside(keys), scores[..i + 1])
         == Filter(KeyOutside(keys), scores[..i]) + (if KeyOf(scores[i]) !in keys then [scores[i]] else [])
  {
    assert scores[..i + 1] == scores[..i] + [scores[i]];
    FilterSnoc(KeyOutside(keys), scores[..i], scores[i]);
  }

  /** mergeScores: index the replacements, keep what they do not cover, append them, sort.
      Computing a key throws for a fixture id that is not allowed. */
  method MergeScores(c: Collation, existing: seq<ScoreEntry>, replacements: seq<ScoreEntry>)
    returns (result: Result<seq<ScoreEntry>>)
    ensures result.Ok? <==> AllKeyed(existing) && AllKeyed(replacements)
    ensures result.Ok? ==> result.value == Merged(c, existing, replacements)
  {
    var index: set<Result<string>> := {};
    for i := 0 to |replacements|
      invariant AllKeyed(replacements[..i]) && index == Keys(replacements[..i])
    {
      KeysSnoc(replacements, i);
      if KeyOf(replacements[i]).Err? {
        return Err("fixture id");
      }
      index := index + {KeyOf(replacements[i])};
    }
    assert replacements[..|replacements|] == replacements;
    var merged := [];
    for i := 0 to |existing|
      invariant AllKeyed(existing[..i]) && merged == Filter(KeyOutside(index), existing[..i])
    {
      KeysSnoc(existing, i);
      KeptSnoc(index, existing, i);
      if KeyOf(existing[i]).Err? {
        return Err("fixture id");
      }
      if KeyOf(existing[i]) !in index {
        merged := merged + [existing[i]];
      }
    }
    assert existing[..|existing|] == existing;
    ghost var kept := merged;
    for i := 0 to |replacements|
      invariant merged == kept + replacements[..i]
    {
      merged := merged + [replacements[i]];
    }
    result := Ok(SortScores(c, merged));
  }

  /** mergeScoresForFixture, as a value. */
  function MergedForFixture(
      c: Collation, existing: seq<ScoreEntry>, replacements: seq<ScoreEntry>,
      fixtureId: string, replaceAllFixtureScreens: bool): Result<seq<ScoreEntry>>
  {
    var normalized :- FixtureId(fixtureId);
    if replaceAllFixtureScreens then Ok(MergedFixture(c, existing, replacements, normalized))
    else if AllKeyed(existing) && AllKeyed(replacements) then Ok(Merged(c, existing, replacements))
    else Err("fixture id")
  }

  // ---- What a merge means ----------------------------------------------------------------------

  lemma SortedConcatFilter(c: Collation, p: ScoreEntry -> bool, a: seq<ScoreEntry>, b: seq<ScoreEntry>)
    ensures Filter(p, SortScores(c, a + b)) == SortScores(c, Filter(p, a) + Filter(p, b))
  {
    EntryOrderIsTotal(c);
    FilterSort(EntryOrder(c), p, a + b);
    FilterConcat(p, a, b);
  }

  lemma SortedMerge(c: Collation, scores: seq<ScoreEntry>)
    ensures Sorted(EntryOrder(c), SortScores(c, scores))
  {
    EntryOrderIsTotal(c);
    SortFacts(EntryOrder(c), scores);
  }

  /** At p, a merge shows the kept entries when p is outside the replacements' reach, and exactly
      the replacements when it is inside. */
  lemma MergeSeenThrough(c: Collation, outside: ScoreEntry -> bool, p: ScoreEntry -> bool,
                         existing: seq<ScoreEntry>, block: seq<ScoreEntry>)
    ensures (forall e :: p(e) ==> outside(e)) && (forall e :: e in block ==> !p(e))
        ==> Filter(p, SortScores(c, Filter(outside, existing) + block)) == SortScores(c, Filter(p, existing))
    ensures (forall e :: p(e) ==> !outside(e))
        ==> Filter(p, SortScores(c, Filter(outside, existing) + block)) == SortScores(c, Filter(p, block))
  {
    var kept := Filter(outside, existing);
    SortedConcatFilter(c, p, kept, block);
    if (forall e :: p(e) ==> outside(e)) && (forall e :: e in block ==> !p(e)) {
      FilterImplied(outside, p, existing);
      FilterNone(p, block);
      assert Filter(p, kept) + [] == Filter(p, existing);
    }
    if forall e :: p(e) ==> !outside(e) {
      FilterMembers(outside, existing);
      FilterNone(p, kept);
      assert [] + Filter(p, block) == Filter(p, block);
    }
  }

  /** Keyed override: at a written key exactly the written entries remain, at any other key exactly
      the existing ones; and the result is sorted. */
  lemma MergeIsKeyedOverride(c: Collation, existing: seq<ScoreEntry>, replacements: seq<ScoreEntry>, key: Result<string>)
    ensures Filter(KeyIs(key), Merged(c, existing, replacements))
         == SortScores(c, Filter(KeyIs(key), if key in Keys(replacements) then replacements else existing))
    ensures Sorted(EntryOrder(c), Merged(c, existing, replacements))
  {
    var outside := KeyOutside(Keys(replacements));
    SortedMerge(c, Filter(outside, existing) + replacements);
    MergeSeenThrough(c, outside, KeyIs(key), existing, replacements);
  }

  /** Replacing a whole fixture keeps every other fixture and leaves exactly the new scores in it. */
  lemma FixtureMergeIsFixtureOverride(
      c: Collation, existing: seq<ScoreEntry>, replacements: seq<ScoreEntry>, f: string, g: string)
    requires forall e :: e in replacements ==> e.fixtureId == f
    ensures Filter(FixtureIs(g), MergedFixture(c, existing, replacements, f))
         == SortScores(c, if f == g then replacements else Filter(FixtureIs(g), existing))
    ensures Sorted(EntryOrder(c), MergedFixture(c, existing, replacements, f))
  {
    SortedMerge(c, Filter(FixtureOutside(f), existing) + replacements);
    MergeSeenThrough(c, FixtureOutside(f), FixtureIs(g), existing, replacements);
    if f == g {
      FilterAll(FixtureIs(g), replacements);
    }
  }

  lemma MergeAfterSort(c: Collation, p: ScoreEntry -> bool, a: seq<ScoreEntry>, b: seq<ScoreEntry>)
    ensures SortScores(c, Filter(p, SortScores(c, a)) + b) == SortScores(c, Filter(p, a) + b)
  {
    EntryOrderIsTotal(c);
    FilterSort(EntryOrder(c), p, a);
    SortAbsorbsSort(EntryOrder(c), Filter(p, a), b);
  }

  /** Writing the same scores twice is writing them once, key by key or for a whole fixture. */
  lemma MergeIsIdempotent(c: Collation, existing: seq<ScoreEntry>, replacements: seq<ScoreEntry>)
    ensures Merged(c, Merged(c, existing, replacements), replacements) == Merged(c, existing, replacements)
  {
    var outside := KeyOutside(Keys(replacements));
    RefilterDropsBlock(c, outside, existing, replacements);
  }

  lemma FixtureMergeIsIdempotent(c: Collation, existing: seq<ScoreEntry>, replacements: seq<ScoreEntry>, f: string)
    requires forall e :: e in replacements ==> e.fixtureId == f
    ensures MergedFixture(c, MergedFixture(c, existing, replacements, f), replacements, f)
         == MergedFixture(c, existing, replacements, f)
  {
    RefilterDropsBlock(c, FixtureOutside(f), existing, replacements);
  }

  lemma RefilterDropsBlock(c: Collation, p: ScoreEntry -> bool, existing: seq<ScoreEntry>, block: seq<ScoreEntry>)
    requires forall e :: e in block ==> !p(e)
    ensures SortScores(c, Filter(p, SortScores(c, Filter(p, existing) + block)) + block)
         == SortScores(c, Filter(p, existing) + block)
  {
    var kept := Filter(p, existing);
    MergeAfterSort(c, p, kept + block, block);
    FilterConcat(p, kept, block);
    FilterMembers(p, existing);
    FilterAll(p, kept);
    FilterNone(p, block);
    assert kept + [] == kept;
  }

  lemma DisjointKeysNeverTie(c: Collation, x: ScoreEntry, y: ScoreEntry, r: seq<ScoreEntry>, q: seq<ScoreEntry>)
    requires Keys(r) !! Keys(q) && x in r && y in q
    ensures !Equivalent(EntryOrder(c), x, y)
  {
    assert KeyOf(x) in Keys(r) && KeyOf(y) in Keys(q);
    if KeyOf(x) == KeyOf(y) {
      assert false;
    }
    if Equivalent(EntryOrder(c), x, y) {
      EquivalentEntriesShareKeys(c, x, y);
    }
  }

  /** Merges that write disjoint keys commute, entry for entry. */
  lemma DisjointMergesCommute(c: Collation, existing: seq<ScoreEntry>, r: seq<ScoreEntry>, q: seq<ScoreEntry>)
    requires Keys(r) !! Keys(q)
    ensures Merged(c, Merged(c, existing, r), q) == Merged(c, Merged(c, existing, q), r)
  {
    var notR, notQ := KeyOutside(Keys(r)), KeyOutside(Keys(q));
    MergeThenMerge(c, existing, r, q);
    MergeThenMerge(c, existing, q, r);
    FilterSwap(notR, notQ, existing);
    EntryOrderIsTotal(c);
    forall x, y | x in r && y in q ensures !Equivalent(EntryOrder(c), x, y) {
      DisjointKeysNeverTie(c, x, y, r, q);
    }
    SortForgetsBlockOrder(EntryOrder(c), Filter(notQ, Filter(notR, existing)), r, q);
  }

  lemma MergeThenMerge(c: Collation, existing: seq<ScoreEntry>, r: seq<ScoreEntry>, q: seq<ScoreEntry>)
    requires Keys(r) !! Keys(q)
    ensures Merged(c, Merged(c, existing, r), q)
         == SortScores(c, Filter(KeyOutside(Keys(q)), Filter(KeyOutside(Keys(r)), existing)) + r + q)
  {
    var notQ := KeyOutside(Keys(q));
    var kept := Filter(KeyOutside(Keys(r)), existing);
    MergeAfterSort(c, notQ, kept + r, q);
    FilterConcat(notQ, kept, r);
    assert forall e :: e in r ==> KeyOf(e) in Keys(r);
    FilterAll(notQ, r);
  }
}
