/** compareVisualBenchmarkResults: two benchmark results joined entry by entry, with statistics. */
module AbCompare {
  import opened Basics
  import opened Sums
  import opened Indexing
  import opened StableSort
  import opened Ids
  import opened ScoreKeys
  import opened ScoreMerge
  import opened Canonical

  datatype AbIndicator = Improved | Degraded | Neutral | Unavailable

  /** indicatorFromDelta. */
  function IndicatorOf(delta: Option<real>, tolerance: real): AbIndicator {
    match delta
    case None => Unavailable
    case Some(d) => if d > tolerance then Improved else if d < -tolerance then Degraded else Neutral
  }

  datatype Entry = Entry(reference: ScoreEntry, scoreA: Option<real>, scoreB: Option<real>, delta: Option<real>, indicator: AbIndicator)

  function Keyed(e: ScoreEntry): string {
    match KeyOf(e) case Ok(key) => key case Err(_) => ""
  }

  // ---- The join --------------------------------------------------------------------------------

  /** sanitizeComparisonEntry; it throws for an id that is present but not allowed. */
  function Sanitized(e: ScoreEntry): Result<ScoreEntry> {
    var f :- FixtureId(e.fixtureId);
    var s :- Checked(ScreenId, e.screenId);
    var v :- Checked(ViewportId, e.viewportId);
    Ok(ScoreEntry(f, s, e.screenName, v, e.viewportLabel, e.score))
  }

  function Checked(guard: string -> Result<string>, id: Option<string>): Result<Option<string>> {
    if id.None? then Ok(None)
    else
      var checked :- guard(id.value);
      Ok(Some(checked))
  }

  lemma SanitizedKeepsKey(e: ScoreEntry)
    requires Sanitized(e).Ok?
    ensures Keyed(Sanitized(e).value) == Keyed(e)
  {
    FixtureIdIsIdempotent(e.fixtureId);
    if e.screenId.Some? {
      ScreenIdAccepts(e.screenId.value);
      TrimFacts(e.screenId.value);
    }
    if e.viewportId.Some? {
      ViewportIdAccepts(e.viewportId.value);
      TrimFacts(e.viewportId.value);
    }
  }

  function ScoreOf(e: Option<ScoreEntry>): Option<real> {
    if e.Some? then Some(e.value.score) else None
  }

  function Change(a: Option<real>, b: Option<real>): Option<real> {
    if a.Some? && b.Some? then Some(RoundToTwoDecimals(b.value - a.value)) else None
  }

  /** Side A's entry for a key, or else side B's. */
  function Reference(a: seq<ScoreEntry>, b: seq<ScoreEntry>, key: string): Option<ScoreEntry> {
    if LastWith(Keyed, a, key).Some? then LastWith(Keyed, a, key) else LastWith(Keyed, b, key)
  }

  const BLANK := ScoreEntry("", None, None, None, None, 0.0)

  /** The joined entry of a key. */
  function EntryAt(a: seq<ScoreEntry>, b: seq<ScoreEntry>, tolerance: real, key: string): Entry {
    var scoreA, scoreB := ScoreOf(LastWith(Keyed, a, key)), ScoreOf(LastWith(Keyed, b, key));
    var delta := Change(scoreA, scoreB);
    var shown := match Sanitized(Reference(a, b, key).GetOr(BLANK)) case Ok(e) => e case Err(_) => BLANK;
    Entry(shown, scoreA, scoreB, delta, IndicatorOf(delta, tolerance))
  }

  function EntriesFor(a: seq<ScoreEntry>, b: seq<ScoreEntry>, tolerance: real, keys: seq<string>): (r: seq<Entry>)
    ensures |r| == |keys|
  {
    if keys == [] then []
    else EntriesFor(a, b, tolerance, keys[..|keys| - 1]) + [EntryAt(a, b, tolerance, keys[|keys| - 1])]
  }

  /** Every reference shown has allowed ids. */
  predicate ReferencesAllowed(a: seq<ScoreEntry>, b: seq<ScoreEntry>, keys: seq<string>) {
    forall key :: key in keys ==> Sanitized(Reference(a, b, key).GetOr(BLANK)).Ok?
  }

  /** sortEntries: fixture, screen, viewport. */
  predicate AtMost(c: Collation, x: Entry, y: Entry) {
    var a, b := x.reference, y.reference;
    if a.fixtureId != b.fixtureId then c(a.fixtureId, b.fixtureId)
    else if a.screenId.GetOr("") != b.screenId.GetOr("") then c(a.screenId.GetOr(""), b.screenId.GetOr(""))
    else c(a.viewportId.GetOr(""), b.viewportId.GetOr(""))
  }

  function Order(c: Collation): (Entry, Entry) -> bool {
    (x, y) => AtMost(c, x, y)
  }

  lemma OrderIsTotal(c: Collation)
    ensures TotalPreorder(Order(c))
  {
    forall x, y, z | AtMost(c, x, y) && AtMost(c, y, z)
      ensures AtMost(c, x, z)
    {
    }
  }

  /** Entries come in the order of their fixtures, then screens, then viewports. */
  lemma EntriesInOrder(c: Collation, entries: seq<Entry>, i: nat, j: nat)
    requires Sorted(Order(c), entries) && i < j < |entries|
    ensures var a, b := entries[i].reference, entries[j].reference;
            && c(a.fixtureId, b.fixtureId)
            && (a.fixtureId == b.fixtureId ==>
                  && c(a.screenId.GetOr(""), b.screenId.GetOr(""))
                  && (a.screenId.GetOr("") == b.screenId.GetOr("") ==> c(a.viewportId.GetOr(""), b.viewportId.GetOr(""))))
  {
    var a, b := entries[i].reference, entries[j].reference;
    assert Order(c)(entries[i], entries[j]);
    assert c(a.fixtureId, a.fixtureId) && c(a.screenId.GetOr(""), a.screenId.GetOr(""));
  }

  function AllKeys(a: seq<ScoreEntry>, b: seq<ScoreEntry>): seq<string> {
    Union(KeysOf(Keyed, a), KeysOf(Keyed, b))
  }

  /** The joined entries in order; an error when some id the comparison reads is not allowed. */
  function Joined(c: Collation, a: seq<ScoreEntry>, b: seq<ScoreEntry>, tolerance: real): Result<seq<Entry>> {
    if !FixturesAllowed(a) || !FixturesAllowed(b) || !ReferencesAllowed(a, b, AllKeys(a, b)) then Err("ids")
    else Ok(Sort(Order(c), EntriesFor(a, b, tolerance, AllKeys(a, b))))
  }

  // ---- What an entry says ----------------------------------------------------------------------

  /** B minus A where both scores are there, and what that means. */
  predicate Compares(tolerance: real, e: Entry) {
    && (e.delta.Some? <==> e.scoreA.Some? && e.scoreB.Some?)
    && (e.delta.Some? ==> IsRounded(e.delta.value, e.scoreB.value - e.scoreA.value))
    && (e.indicator.Unavailable? <==> e.delta.None?)
    && (e.indicator.Improved? <==> e.delta.Some? && e.delta.value > tolerance)
    && (e.indicator.Degraded? <==> e.delta.Some? && e.delta.value <= tolerance && e.delta.value < -tolerance)
  }

  /** On two-decimal scores nothing is lost to rounding: B beats A, or A beats B, by more than the tolerance. */
  predicate ComparesExactly(tolerance: real, e: Entry) {
    e.scoreA.Some? && e.scoreB.Some? && OnGrid(e.scoreA.value) && OnGrid(e.scoreB.value) ==>
      && e.delta == Some(e.scoreB.value - e.scoreA.value)
      && (e.indicator.Improved? <==> e.scoreB.value - e.scoreA.value > tolerance)
      && (e.indicator.Degraded? <==> e.scoreA.value - e.scoreB.value > tolerance)
  }

  /** The entry of a key: each side's last score for it, compared. */
  ghost predicate ComparesWell(a: seq<ScoreEntry>, b: seq<ScoreEntry>, tolerance: real, key: string, e: Entry) {
    && IsLastScore(Keyed, a, key, e.scoreA) && IsLastScore(Keyed, b, key, e.scoreB)
    && Compares(tolerance, e) && (tolerance >= 0.0 ==> ComparesExactly(tolerance, e))
  }

  /** One entry per key, each comparing that key's scores. */
  ghost predicate AllCompare(a: seq<ScoreEntry>, b: seq<ScoreEntry>, tolerance: real, keys: seq<string>, entries: seq<Entry>) {
    |entries| == |keys| && forall i :: 0 <= i < |keys| ==> ComparesWell(a, b, tolerance, keys[i], entries[i])
  }

  lemma LastScoreIsLast(side: seq<ScoreEntry>, key: string)
    ensures IsLastScore(Keyed, side, key, ScoreOf(LastWith(Keyed, side, key)))
  {
    LastWithIsLast(Keyed, side, key);
  }

  lemma ChangeCompares(x: Option<real>, y: Option<real>)
    ensures Change(x, y).Some? <==> x.Some? && y.Some?
    ensures Change(x, y).Some? ==> IsRounded(Change(x, y).value, y.value - x.value)
    ensures Change(x, y).Some? && OnGrid(x.value) && OnGrid(y.value) ==> Change(x, y).value == y.value - x.value
  {
    if x.Some? && y.Some? {
      DifferenceIsRounded(y.value, x.value);
    }
  }

  lemma ChangeIsCompared(shown: ScoreEntry, x: Option<real>, y: Option<real>, tolerance: real)
    ensures var e := Entry(shown, x, y, Change(x, y), IndicatorOf(Change(x, y), tolerance));
            Compares(tolerance, e) && (tolerance >= 0.0 ==> ComparesExactly(tolerance, e))
  {
    ChangeCompares(x, y);
  }

  lemma EntryCompares(a: seq<ScoreEntry>, b: seq<ScoreEntry>, tolerance: real, key: string)
    ensures ComparesWell(a, b, tolerance, key, EntryAt(a, b, tolerance, key))
  {
    LastScoreIsLast(a, key);
    LastScoreIsLast(b, key);
    var e := EntryAt(a, b, tolerance, key);
    ChangeIsCompared(e.reference, e.scoreA, e.scoreB, tolerance);
  }

  lemma {:induction false} EntriesForAt(a: seq<ScoreEntry>, b: seq<ScoreEntry>, tolerance: real, keys: seq<string>, i: nat)
    requires i < |keys|
    ensures EntriesFor(a, b, tolerance, keys)[i] == EntryAt(a, b, tolerance, keys[i])
  {
    if i < |keys| - 1 {
      EntriesForAt(a, b, tolerance, keys[..|keys| - 1], i);
    }
  }

  lemma EntriesCompare(a: seq<ScoreEntry>, b: seq<ScoreEntry>, tolerance: real, keys: seq<string>)
    ensures AllCompare(a, b, tolerance, keys, EntriesFor(a, b, tolerance, keys))
  {
    forall i | 0 <= i < |keys|
      ensures ComparesWell(a, b, tolerance, keys[i], EntriesFor(a, b, tolerance, keys)[i])
    {
      EntriesForAt(a, b, tolerance, keys, i);
      EntryCompares(a, b, tolerance, keys[i]);
    }
  }

  // ---- Statistics ------------------------------------------------------------------------------

  predicate Missing(e: Entry) {
    e.indicator.Unavailable? || e.delta.None?
  }

  predicate Improving(e: Entry) {
    !Missing(e) && e.indicator.Improved?
  }

  predicate Degrading(e: Entry) {
    !Missing(e) && e.indicator.Degraded?
  }

  predicate Level(e: Entry) {
    !Missing(e) && !e.indicator.Improved? && !e.indicator.Degraded?
  }

  predicate Present(e: Entry) {
    !Missing(e)
  }

  function Count(p: Entry -> bool, entries: seq<Entry>): nat {
    if entries == [] then 0 else Count(p, entries[..|entries| - 1]) + (if p(entries[|entries| - 1]) then 1 else 0)
  }

  function DeltaValue(e: Entry): real {
    if Missing(e) then 0.0 else e.delta.value
  }

  function ImprovementValue(e: Entry): real {
    if Improving(e) then e.delta.value else 0.0
  }

  /** The largest delta among the improving entries. */
  function Best(entries: seq<Entry>): Option<real> {
    if entries == [] then None
    else
      var rest, e := Best(entries[..|entries| - 1]), entries[|entries| - 1];
      if Improving(e) && (rest.None? || e.delta.value > rest.value) then Some(e.delta.value) else rest
  }

  /** The smallest delta among the degrading entries. */
  function Worst(entries: seq<Entry>): Option<real> {
    if entries == [] then None
    else
      var rest, e := Worst(entries[..|entries| - 1]), entries[|entries| - 1];
      if Degrading(e) && (rest.None? || e.delta.value < rest.value) then Some(e.delta.value) else rest
  }

  datatype Statistics = Statistics(
    totalEntries: nat, comparedEntries: nat, improved: nat, degraded: nat, neutral: nat, unavailable: nat,
    meanDelta: Option<real>, meanImprovement: Option<real>, best: Option<real>, worst: Option<real>, netChange: real)

  function MeanOf(total: real, count: nat): Option<real> {
    if count == 0 then None else Some(RoundToTwoDecimals(total / count as real))
  }

  function Rounded(x: Option<real>): Option<real> {
    if x.None? then None else Some(RoundToTwoDecimals(x.value))
  }

  function StatisticsOf(entries: seq<Entry>): Statistics {
    Statistics(
      |entries|, Count(Present, entries), Count(Improving, entries), Count(Degrading, entries), Count(Level, entries),
      Count(Missing, entries),
      MeanOf(SumOf(DeltaValue, entries), Count(Present, entries)),
      MeanOf(SumOf(ImprovementValue, entries), Count(Improving, entries)),
      Rounded(Best(entries)), Rounded(Worst(entries)), RoundToTwoDecimals(SumOf(DeltaValue, entries)))
  }

  /** computeStatistics: one pass with running counters, sums and extremes. */
  method ComputeStatistics(entries: seq<Entry>) returns (s: Statistics)
    ensures s == StatisticsOf(entries)
  {
    var compared, improved, degraded, neutral, unavailable := 0, 0, 0, 0, 0;
    var best: Option<real>, worst: Option<real> := None, None;
    var positiveDeltaSum, netChange := 0.0, 0.0;
    for i := 0 to |entries|
      invariant compared == Count(Present, entries[..i]) && improved == Count(Improving, entries[..i])
      invariant degraded == Count(Degrading, entries[..i]) && neutral == Count(Level, entries[..i])
      invariant unavailable == Count(Missing, entries[..i])
      invariant best == Best(entries[..i]) && worst == Worst(entries[..i])
      invariant positiveDeltaSum == SumOf(ImprovementValue, entries[..i]) && netChange == SumOf(DeltaValue, entries[..i])
    {
      assert entries[..i + 1][..i] == entries[..i];
      var entry := entries[i];
      if entry.indicator.Unavailable? || entry.delta.None? {
        unavailable := unavailable + 1;
        continue;
      }
      var delta := entry.delta.value;
      compared := compared + 1;
      netChange := netChange + delta;
      if entry.indicator.Improved? {
        improved := improved + 1;
        positiveDeltaSum := positiveDeltaSum + delta;
        if best.None? || delta > best.value {
          best := Some(delta);
        }
      } else if entry.indicator.Degraded? {
        degraded := degraded + 1;
        if worst.None? || delta < worst.value {
          worst := Some(delta);
        }
      } else {
        neutral := neutral + 1;
      }
    }
    assert entries[..|entries|] == entries;
    return Statistics(
      |entries|, compared, improved, degraded, neutral, unavailable,
      MeanOf(netChange, compared), MeanOf(positiveDeltaSum, improved), Rounded(best), Rounded(worst), RoundToTwoDecimals(netChange));
  }

  /** Every entry is counted once. */
  lemma {:induction false} CountsPartition(entries: seq<Entry>)
    ensures Count(Improving, entries) + Count(Degrading, entries) + Count(Level, entries) + Count(Missing, entries) == |entries|
    ensures Count(Present, entries) + Count(Missing, entries) == |entries|
  {
    if entries != [] {
      CountsPartition(entries[..|entries| - 1]);
    }
  }

  /** m is the largest delta of an improving entry. */
  ghost predicate IsBest(entries: seq<Entry>, m: real) {
    && (exists e :: e in entries && Improving(e) && e.delta.value == m)
    && forall e :: e in entries && Improving(e) ==> e.delta.value <= m
  }

  ghost predicate IsWorst(entries: seq<Entry>, m: real) {
    && (exists e :: e in entries && Degrading(e) && e.delta.value == m)
    && forall e :: e in entries && Degrading(e) ==> e.delta.value >= m
  }

  /** The running extremes are the true ones, and absent exactly when nothing improved or degraded. */
  lemma {:induction false} BestIsExtreme(entries: seq<Entry>)
    ensures Best(entries).None? <==> forall e :: e in entries ==> !Improving(e)
    ensures Best(entries).Some? ==> IsBest(entries, Best(entries).value)
  {
    if entries != [] {
      var init, last := entries[..|entries| - 1], entries[|entries| - 1];
      BestIsExtreme(init);
      assert entries == init + [last] && last in entries && forall e :: e in init ==> e in entries;
    }
  }

  lemma {:induction false} WorstIsExtreme(entries: seq<Entry>)
    ensures Worst(entries).None? <==> forall e :: e in entries ==> !Degrading(e)
    ensures Worst(entries).Some? ==> IsWorst(entries, Worst(entries).value)
  {
    if entries != [] {
      var init, last := entries[..|entries| - 1], entries[|entries| - 1];
      WorstIsExtreme(init);
      assert entries == init + [last] && last in entries && forall e :: e in init ==> e in entries;
    }
  }

  // ---- The comparison --------------------------------------------------------------------------

  datatype Comparison = Comparison(entries: seq<Entry>, overallDelta: Option<real>, statistics: Statistics)

  /** The entries of the given keys, in that order, read off the two indexes. */
  method JoinEntries(a: seq<ScoreEntry>, b: seq<ScoreEntry>, tolerance: real, keys: seq<string>,
                     indexA: map<string, ScoreEntry>, indexB: map<string, ScoreEntry>)
    returns (joined: Result<seq<Entry>>)
    requires forall key :: key in keys ==> key in indexA || key in indexB
    requires forall key :: key in indexA <==> LastWith(Keyed, a, key).Some?
    requires forall key :: key in indexA ==> LastWith(Keyed, a, key) == Some(indexA[key])
    requires forall key :: key in indexB <==> LastWith(Keyed, b, key).Some?
    requires forall key :: key in indexB ==> LastWith(Keyed, b, key) == Some(indexB[key])
    ensures joined == if ReferencesAllowed(a, b, keys) then Ok(EntriesFor(a, b, tolerance, keys)) else Err("ids")
    ensures joined.Ok? ==> AllCompare(a, b, tolerance, keys, joined.value)
  {
    var entries := [];
    for i := 0 to |keys|
      invariant entries == EntriesFor(a, b, tolerance, keys[..i])
      invariant ReferencesAllowed(a, b, keys[..i])
    {
      var key := keys[i];
      assert keys[..i + 1] == keys[..i] + [key] && key in keys;
      assert keys[..i + 1][..i] == keys[..i];
      var shown := Sanitized(if key in indexA then indexA[key] else indexB[key]);
      if shown.Err? {
        return Err("ids");
      }
      var scoreA := if key in indexA then Some(indexA[key].score) else None;
      var scoreB := if key in indexB then Some(indexB[key].score) else None;
      var delta := Change(scoreA, scoreB);
      entries := entries + [Entry(shown.value, scoreA, scoreB, delta, IndicatorOf(delta, tolerance))];
    }
    assert keys[..|keys|] == keys;
    EntriesCompare(a, b, tolerance, keys);
    return Ok(entries);
  }

  /** The overall delta: B minus A, rounded, when both overall scores exist; exact on the grid. */
  predicate OverallCompares(overallA: Option<real>, overallB: Option<real>, delta: Option<real>) {
    && (delta.Some? <==> overallA.Some? && overallB.Some?)
    && (delta.Some? ==> IsRounded(delta.value, overallB.value - overallA.value))
    && (delta.Some? && OnGrid(overallA.value) && OnGrid(overallB.value) ==> delta.value == overallB.value - overallA.value)
  }

  /** compareVisualBenchmarkResults; an overall score is absent when it is not a finite number. */
  method Compare(c: Collation, a: seq<ScoreEntry>, overallA: Option<real>, b: seq<ScoreEntry>, overallB: Option<real>, tolerance: real)
    returns (result: Result<Comparison>)
    ensures result.Err? <==> Joined(c, a, b, tolerance).Err?
    ensures result.Ok? ==> result.value.entries == Joined(c, a, b, tolerance).value
    ensures result.Ok? ==> forall e :: e in result.value.entries ==> ComparesWell(a, b, tolerance, Keyed(e.reference), e)
    ensures result.Ok? ==> OverallCompares(overallA, overallB, result.value.overallDelta)
    ensures result.Ok? ==> result.value.statistics == StatisticsOf(result.value.entries)
  {
    ChangeCompares(overallA, overallB);
    if Joined(c, a, b, tolerance).Ok? {
      JoinedCompare(c, a, b, tolerance);
    }
    if !FixturesAllowed(a) || !FixturesAllowed(b) {
      return Err("ids");
    }
    var orderA, indexA := BuildIndex(Keyed, a);
    var orderB, indexB := BuildIndex(Keyed, b);
    var allKeys := MergeKeys(orderA, orderB);
    KeysOfFacts(Keyed, a);
    KeysOfFacts(Keyed, b);
    UnionFacts(orderA, orderB);
    var entries :- JoinEntries(a, b, tolerance, allKeys, indexA, indexB);
    var sorted := Sort(Order(c), entries);
    var statistics := ComputeStatistics(sorted);
    return Ok(Comparison(sorted, Change(overallA, overallB), statistics));
  }

  // ---- A full outer join -----------------------------------------------------------------------

  lemma {:induction false} EntriesForMembers(a: seq<ScoreEntry>, b: seq<ScoreEntry>, tolerance: real, keys: seq<string>)
    ensures forall key :: key in keys ==> EntryAt(a, b, tolerance, key) in EntriesFor(a, b, tolerance, keys)
    ensures forall e :: e in EntriesFor(a, b, tolerance, keys) ==> exists key :: key in keys && e == EntryAt(a, b, tolerance, key)
  {
    if keys != [] {
      var init, last := keys[..|keys| - 1], keys[|keys| - 1];
      EntriesForMembers(a, b, tolerance, init);
      assert keys == init + [last] && last in keys;
    }
  }

  lemma EntryKeepsKey(a: seq<ScoreEntry>, b: seq<ScoreEntry>, tolerance: real, key: string)
    requires LastWith(Keyed, a, key).Some? || LastWith(Keyed, b, key).Some?
    requires Sanitized(Reference(a, b, key).GetOr(BLANK)).Ok?
    ensures Keyed(EntryAt(a, b, tolerance, key).reference) == key
  {
    LastWithFacts(Keyed, a, key);
    LastWithFacts(Keyed, b, key);
    SanitizedKeepsKey(Reference(a, b, key).value);
  }

  /** One entry per key of either side and none besides; it holds each side's last score for that key,
      and a delta exactly when both sides have one. */
  lemma FullOuterJoin(c: Collation, a: seq<ScoreEntry>, b: seq<ScoreEntry>, tolerance: real)
    requires Joined(c, a, b, tolerance).Ok?
    ensures var entries := Joined(c, a, b, tolerance).value;
            && |entries| == |AllKeys(a, b)| && Distinct(AllKeys(a, b)) && Sorted(Order(c), entries)
            && (forall key :: key in AllKeys(a, b) <==> LastWith(Keyed, a, key).Some? || LastWith(Keyed, b, key).Some?)
            && (forall key :: key in AllKeys(a, b) ==> EntryAt(a, b, tolerance, key) in entries)
            && (forall e :: e in entries ==>
                  && Keyed(e.reference) in AllKeys(a, b)
                  && e == EntryAt(a, b, tolerance, Keyed(e.reference))
                  && (e.delta.Some? <==> e.scoreA.Some? && e.scoreB.Some?)
                  && (e.indicator.Unavailable? <==> e.delta.None?))
  {
    KeysOfFacts(Keyed, a);
    KeysOfFacts(Keyed, b);
    var keys := AllKeys(a, b);
    UnionFacts(KeysOf(Keyed, a), KeysOf(Keyed, b));
    OrderIsTotal(c);
    SortFacts(Order(c), EntriesFor(a, b, tolerance, keys));
    EntriesForMembers(a, b, tolerance, keys);
    forall e | e in EntriesFor(a, b, tolerance, keys)
      ensures Keyed(e.reference) in keys && e == EntryAt(a, b, tolerance, Keyed(e.reference))
    {
      var key :| key in keys && e == EntryAt(a, b, tolerance, key);
      EntryKeepsKey(a, b, tolerance, key);
    }
  }

  /** Every entry of a comparison is B against A at its own key. */
  lemma JoinedCompare(c: Collation, a: seq<ScoreEntry>, b: seq<ScoreEntry>, tolerance: real)
    requires Joined(c, a, b, tolerance).Ok?
    ensures forall e :: e in Joined(c, a, b, tolerance).value ==> ComparesWell(a, b, tolerance, Keyed(e.reference), e)
  {
    FullOuterJoin(c, a, b, tolerance);
    forall e | e in Joined(c, a, b, tolerance).value
      ensures ComparesWell(a, b, tolerance, Keyed(e.reference), e)
    {
      EntryCompares(a, b, tolerance, Keyed(e.reference));
    }
  }

  lemma SanitizedKeepsNames(e: ScoreEntry)
    requires Sanitized(e).Ok?
    ensures Sanitized(e).value.screenName == e.screenName && Sanitized(e).value.viewportLabel == e.viewportLabel
  {
  }

  predicate ShowsNamesOf(shown: ScoreEntry, e: ScoreEntry) {
    shown.screenName == e.screenName && shown.viewportLabel == e.viewportLabel
  }

  lemma EntryShows(a: seq<ScoreEntry>, b: seq<ScoreEntry>, tolerance: real, key: string)
    requires Sanitized(Reference(a, b, key).GetOr(BLANK)).Ok?
    ensures var shown, x, y := EntryAt(a, b, tolerance, key).reference, LastWith(Keyed, a, key), LastWith(Keyed, b, key);
            && (x.Some? ==> ShowsNamesOf(shown, x.value))
            && (x.None? && y.Some? ==> ShowsNamesOf(shown, y.value))
  {
    SanitizedKeepsNames(Reference(a, b, key).GetOr(BLANK));
  }

  /** What an entry shows comes from side A, and from side B only for a key A lacks. */
  lemma ShownFromA(c: Collation, a: seq<ScoreEntry>, b: seq<ScoreEntry>, tolerance: real, e: Entry)
    requires Joined(c, a, b, tolerance).Ok? && e in Joined(c, a, b, tolerance).value
    ensures var x, y := LastWith(Keyed, a, Keyed(e.reference)), LastWith(Keyed, b, Keyed(e.reference));
            && (x.Some? ==> ShowsNamesOf(e.reference, x.value))
            && (x.None? ==> y.Some? && ShowsNamesOf(e.reference, y.value))
  {
    FullOuterJoin(c, a, b, tolerance);
    EntryShows(a, b, tolerance, Keyed(e.reference));
  }

  /** The figures of the statistics: means over the compared and the improving entries, to two decimals. */
  lemma StatisticsReport(entries: seq<Entry>)
    ensures var s := StatisticsOf(entries);
            && (s.meanDelta.Some? <==> s.comparedEntries > 0) && (s.meanImprovement.Some? <==> s.improved > 0)
            && (s.meanDelta.Some? ==> IsRounded(s.meanDelta.value, SumOf(DeltaValue, entries) / s.comparedEntries as real))
            && (s.meanImprovement.Some? ==> IsRounded(s.meanImprovement.value, SumOf(ImprovementValue, entries) / s.improved as real))
            && (s.best.Some? ==> IsRounded(s.best.value, Best(entries).value)) && (s.worst.Some? ==> IsRounded(s.worst.value, Worst(entries).value))
            && IsRounded(s.netChange, SumOf(DeltaValue, entries))
  {
    var compared, improved := Count(Present, entries), Count(Improving, entries);
    RoundedIs(SumOf(DeltaValue, entries));
    if compared > 0 {
      RoundedIs(SumOf(DeltaValue, entries) / compared as real);
    }
    if improved > 0 {
      RoundedIs(SumOf(ImprovementValue, entries) / improved as real);
    }
    if Best(entries).Some? {
      RoundedIs(Best(entries).value);
    }
    if Worst(entries).Some? {
      RoundedIs(Worst(entries).value);
    }
  }
}
