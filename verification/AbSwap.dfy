/** Exchanging the two sides of a comparison mirrors it. */
module AbSwap {
  import opened Basics
  import opened Sums
  import opened Indexing
  import opened StableSort
  import opened Ids
  import opened ScoreMerge
  import opened Canonical
  import opened AbCompare

  function Negated(x: Option<real>): Option<real> {
    if x.None? then None else Some(-x.value)
  }

  function Mirror(i: AbIndicator): AbIndicator {
    match i
    case Improved => Degraded
    case Degraded => Improved
    case Neutral => Neutral
    case Unavailable => Unavailable
  }

  /** The same comparison seen from the other side. */
  predicate Mirrored(x: Entry, y: Entry) {
    && x.scoreA == y.scoreB && x.scoreB == y.scoreA
    && x.delta == Negated(y.delta) && x.indicator == Mirror(y.indicator)
  }

  ghost predicate OnGridAll(side: seq<ScoreEntry>) {
    forall e :: e in side ==> OnGrid(e.score)
  }

  /** Half-up rounding is odd exactly away from ties. */
  lemma RoundingIsOddExactly(x: real)
    ensures RoundToTwoDecimals(-x) == -RoundToTwoDecimals(x) <==> (x * 100.0 + 0.5).Floor as real != x * 100.0 + 0.5
  {
    var y := x * 100.0;
    assert -x * 100.0 == -y;
    assert Round(-y) == -Round(y) <==> (y + 0.5).Floor as real != y + 0.5;
    HundredthsCompare(Round(-y), -Round(y));
  }

  lemma HundredthsCompare(i: int, j: int)
    ensures i as real / 100.0 == j as real / 100.0 <==> i == j
  {
  }

  /** The indicator mirrors under negation unless a negative tolerance exceeds the change; a change of
      0 under tolerance -1 counts as improved from either side. */
  lemma IndicatorMirrorsExactly(d: real, tolerance: real)
    ensures IndicatorOf(Some(-d), tolerance) == Mirror(IndicatorOf(Some(d), tolerance)) <==> Abs(d) >= -tolerance
    ensures IndicatorOf(Some(0.0), -1.0) == Improved
  {
  }

  lemma ChangeMirrors(x: Option<real>, y: Option<real>, tolerance: real)
    requires x.Some? ==> OnGrid(x.value)
    requires y.Some? ==> OnGrid(y.value)
    requires tolerance >= 0.0
    ensures Change(y, x) == Negated(Change(x, y))
    ensures IndicatorOf(Change(y, x), tolerance) == Mirror(IndicatorOf(Change(x, y), tolerance))
    ensures Change(x, y).Some? ==> OnGrid(Change(x, y).value)
  {
    if x.Some? && y.Some? {
      GridIsClosed(x.value, y.value);
      GridIsClosed(y.value, x.value);
      GridIsFixed(x.value - y.value);
      GridIsFixed(y.value - x.value);
    }
  }

  lemma ScoreIsOnGrid(side: seq<ScoreEntry>, key: string)
    requires OnGridAll(side)
    ensures ScoreOf(LastWith(Keyed, side, key)).Some? ==> OnGrid(ScoreOf(LastWith(Keyed, side, key)).value)
  {
    LastWithFacts(Keyed, side, key);
  }

  lemma EntriesMirror(a: seq<ScoreEntry>, b: seq<ScoreEntry>, tolerance: real, key: string)
    requires OnGridAll(a) && OnGridAll(b) && tolerance >= 0.0
    ensures Mirrored(EntryAt(b, a, tolerance, key), EntryAt(a, b, tolerance, key))
    ensures EntryAt(a, b, tolerance, key).delta.Some? ==> OnGrid(EntryAt(a, b, tolerance, key).delta.value)
  {
    ScoreIsOnGrid(a, key);
    ScoreIsOnGrid(b, key);
    ChangeMirrors(ScoreOf(LastWith(Keyed, a, key)), ScoreOf(LastWith(Keyed, b, key)), tolerance);
  }

  // ---- Sums over joined entries ----------------------------------------------------------------

  function ValueAt(g: Entry -> real, a: seq<ScoreEntry>, b: seq<ScoreEntry>, tolerance: real): string -> real {
    key => g(EntryAt(a, b, tolerance, key))
  }

  lemma {:induction false} SumOverKeys(g: Entry -> real, a: seq<ScoreEntry>, b: seq<ScoreEntry>, tolerance: real, keys: seq<string>)
    ensures SumOf(g, EntriesFor(a, b, tolerance, keys)) == SumOf(ValueAt(g, a, b, tolerance), keys)
  {
    if keys != [] {
      var n := |keys| - 1;
      SumOverKeys(g, a, b, tolerance, keys[..n]);
      SumOfSnoc(g, EntriesFor(a, b, tolerance, keys[..n]), EntryAt(a, b, tolerance, keys[n]));
    }
  }

  lemma SumOverJoined(c: Collation, g: Entry -> real, a: seq<ScoreEntry>, b: seq<ScoreEntry>, tolerance: real, joined: seq<Entry>)
    requires Joined(c, a, b, tolerance) == Ok(joined)
    ensures SumOf(g, joined) == SumOf(ValueAt(g, a, b, tolerance), AllKeys(a, b))
  {
    var entries := EntriesFor(a, b, tolerance, AllKeys(a, b));
    OrderIsTotal(c);
    SortFacts(Order(c), entries);
    SumOfIgnoresOrder(g, Sort(Order(c), entries), entries);
    SumOverKeys(g, a, b, tolerance, AllKeys(a, b));
  }

  lemma AllKeysSwap(a: seq<ScoreEntry>, b: seq<ScoreEntry>)
    ensures multiset(AllKeys(a, b)) == multiset(AllKeys(b, a))
    ensures forall key :: key in AllKeys(a, b) <==> key in AllKeys(b, a)
  {
    KeysOfFacts(Keyed, a);
    KeysOfFacts(Keyed, b);
    UnionFacts(KeysOf(Keyed, a), KeysOf(Keyed, b));
    UnionFacts(KeysOf(Keyed, b), KeysOf(Keyed, a));
    SameDistinctMembers(AllKeys(a, b), AllKeys(b, a));
  }

  lemma SameDistinctMembers(xs: seq<string>, ys: seq<string>)
    requires Distinct(xs) && Distinct(ys) && forall x :: x in xs <==> x in ys
    ensures multiset(xs) == multiset(ys)
  {
    DistinctByCount(xs);
    DistinctByCount(ys);
    forall x
      ensures multiset(xs)[x] == multiset(ys)[x]
    {
      assert x in xs <==> x in multiset(xs);
      assert x in ys <==> x in multiset(ys);
    }
  }

  /** The entries of the comparison and of its swap, for scores on the 0.01 grid. */
  ghost predicate AreSwapped(c: Collation, a: seq<ScoreEntry>, b: seq<ScoreEntry>, tolerance: real, ab: seq<Entry>, ba: seq<Entry>) {
    && Joined(c, a, b, tolerance) == Ok(ab) && Joined(c, b, a, tolerance) == Ok(ba)
    && OnGridAll(a) && OnGridAll(b) && tolerance >= 0.0
  }

  /** Mirrored entries have corresponding values. */
  ghost predicate Corresponds(g: Entry -> real, h: Entry -> real) {
    forall x, y :: Mirrored(x, y) ==> g(x) == h(y)
  }

  ghost predicate CountsCorrespond(p: Entry -> bool, q: Entry -> bool) {
    forall x, y :: Mirrored(x, y) ==> p(x) == q(y)
  }

  /** A sum over the swapped comparison is the corresponding sum over the original. */
  lemma SwappedSum(c: Collation, a: seq<ScoreEntry>, b: seq<ScoreEntry>, tolerance: real, ab: seq<Entry>, ba: seq<Entry>, g: Entry -> real, h: Entry -> real)
    requires AreSwapped(c, a, b, tolerance, ab, ba)
    requires Corresponds(g, h)
    ensures SumOf(g, ba) == SumOf(h, ab)
  {
    var keys := AllKeys(a, b);
    SumOverJoined(c, g, b, a, tolerance, ba);
    SumOverJoined(c, h, a, b, tolerance, ab);
    AllKeysSwap(a, b);
    SumOfIgnoresOrder(ValueAt(g, b, a, tolerance), AllKeys(b, a), keys);
    forall i | 0 <= i < |keys|
      ensures ValueAt(g, b, a, tolerance)(keys[i]) == ValueAt(h, a, b, tolerance)(keys[i])
    {
      EntriesMirror(a, b, tolerance, keys[i]);
    }
    SumOfSameTerms(ValueAt(g, b, a, tolerance), ValueAt(h, a, b, tolerance), keys);
  }

  // ---- Counts ----------------------------------------------------------------------------------

  function OneIf(p: Entry -> bool): Entry -> real {
    e => if p(e) then 1.0 else 0.0
  }

  lemma {:induction false} CountIsSum(p: Entry -> bool, entries: seq<Entry>)
    ensures Count(p, entries) as real == SumOf(OneIf(p), entries)
  {
    if entries != [] {
      CountIsSum(p, entries[..|entries| - 1]);
    }
  }

  lemma SwappedCount(c: Collation, a: seq<ScoreEntry>, b: seq<ScoreEntry>, tolerance: real, ab: seq<Entry>, ba: seq<Entry>, p: Entry -> bool, q: Entry -> bool)
    requires AreSwapped(c, a, b, tolerance, ab, ba)
    requires CountsCorrespond(p, q)
    ensures Count(p, ba) == Count(q, ab)
  {
    CountIsSum(p, ba);
    CountIsSum(q, ab);
    assert Corresponds(OneIf(p), OneIf(q));
    SwappedSum(c, a, b, tolerance, ab, ba, OneIf(p), OneIf(q));
  }

  lemma IndicatorsCorrespond()
    ensures CountsCorrespond(Improving, Degrading) && CountsCorrespond(Degrading, Improving)
    ensures CountsCorrespond(Level, Level) && CountsCorrespond(Missing, Missing)
  {
  }

  /** Swapping the sides keeps the totals and exchanges improved with degraded. */
  lemma SwapExchangesCounts(c: Collation, a: seq<ScoreEntry>, b: seq<ScoreEntry>, tolerance: real, ab: seq<Entry>, ba: seq<Entry>)
    requires AreSwapped(c, a, b, tolerance, ab, ba)
    ensures Count(Improving, ba) == Count(Degrading, ab) && Count(Degrading, ba) == Count(Improving, ab)
    ensures Count(Level, ba) == Count(Level, ab) && Count(Missing, ba) == Count(Missing, ab)
    ensures Count(Present, ba) == Count(Present, ab) && |ba| == |ab|
  {
    IndicatorsCorrespond();
    SwappedCount(c, a, b, tolerance, ab, ba, Improving, Degrading);
    SwappedCount(c, a, b, tolerance, ab, ba, Degrading, Improving);
    SwappedCount(c, a, b, tolerance, ab, ba, Level, Level);
    SwappedCount(c, a, b, tolerance, ab, ba, Missing, Missing);
    CountsPartition(ab);
    CountsPartition(ba);
  }

  // ---- Net change ------------------------------------------------------------------------------

  function Minus(f: Entry -> real): Entry -> real {
    e => -f(e)
  }

  lemma {:induction false} SumOfMinus(f: Entry -> real, entries: seq<Entry>)
    ensures SumOf(Minus(f), entries) == -SumOf(f, entries)
  {
    if entries != [] {
      SumOfMinus(f, entries[..|entries| - 1]);
    }
  }

  lemma {:induction false} SumStaysOnGrid(entries: seq<Entry>)
    requires forall e :: e in entries && e.delta.Some? ==> OnGrid(e.delta.value)
    ensures OnGrid(SumOf(DeltaValue, entries))
  {
    if entries != [] {
      var init, last := entries[..|entries| - 1], entries[|entries| - 1];
      assert last in entries && forall e :: e in init ==> e in entries;
      SumStaysOnGrid(init);
      GridIsClosed(SumOf(DeltaValue, init), DeltaValue(last));
    }
  }

  lemma JoinedDeltasOnGrid(c: Collation, a: seq<ScoreEntry>, b: seq<ScoreEntry>, tolerance: real, joined: seq<Entry>)
    requires Joined(c, a, b, tolerance) == Ok(joined)
    requires OnGridAll(a) && OnGridAll(b) && tolerance >= 0.0
    ensures forall e :: e in joined && e.delta.Some? ==> OnGrid(e.delta.value)
  {
    FullOuterJoin(c, a, b, tolerance);
    forall e | e in joined && e.delta.Some?
      ensures OnGrid(e.delta.value)
    {
      EntriesMirror(a, b, tolerance, Keyed(e.reference));
    }
  }

  lemma DeltaValuesCorrespond()
    ensures Corresponds(DeltaValue, Minus(DeltaValue))
  {
    forall x, y | Mirrored(x, y)
      ensures DeltaValue(x) == Minus(DeltaValue)(y)
    {
      assert Missing(x) == Missing(y);
      assert Minus(DeltaValue)(y) == -DeltaValue(y);
    }
  }

  lemma SwappedDeltaSum(c: Collation, a: seq<ScoreEntry>, b: seq<ScoreEntry>, tolerance: real, ab: seq<Entry>, ba: seq<Entry>)
    requires AreSwapped(c, a, b, tolerance, ab, ba)
    ensures SumOf(DeltaValue, ba) == -SumOf(DeltaValue, ab)
    ensures OnGrid(SumOf(DeltaValue, ab))
  {
    assert Corresponds(DeltaValue, Minus(DeltaValue)) by {
      DeltaValuesCorrespond();
    }
    SwappedSum(c, a, b, tolerance, ab, ba, DeltaValue, Minus(DeltaValue));
    SumOfMinus(DeltaValue, ab);
    JoinedDeltasOnGrid(c, a, b, tolerance, ab);
    SumStaysOnGrid(ab);
  }

  lemma RoundingIsOddOnGrid(x: real, y: real)
    requires OnGrid(x) && y == -x
    ensures RoundToTwoDecimals(y) == -RoundToTwoDecimals(x)
  {
    GridIsClosed(x, x);
    GridIsFixed(x);
    GridIsFixed(-x);
  }

  /** Swapping the sides negates the net change. */
  lemma SwapNegatesNetChange(c: Collation, a: seq<ScoreEntry>, b: seq<ScoreEntry>, tolerance: real, ab: seq<Entry>, ba: seq<Entry>)
    requires AreSwapped(c, a, b, tolerance, ab, ba)
    ensures StatisticsOf(ba).netChange == -StatisticsOf(ab).netChange
  {
    SwappedDeltaSum(c, a, b, tolerance, ab, ba);
    RoundingIsOddOnGrid(SumOf(DeltaValue, ab), SumOf(DeltaValue, ba));
  }

  // ---- Extremes --------------------------------------------------------------------------------

  /** Every entry of the swapped comparison mirrors one of the original. */
  lemma SwapMirrorsEntries(c: Collation, a: seq<ScoreEntry>, b: seq<ScoreEntry>, tolerance: real, ab: seq<Entry>, ba: seq<Entry>)
    requires AreSwapped(c, a, b, tolerance, ab, ba)
    ensures forall x :: x in ba ==>
              exists y :: y in ab && Keyed(y.reference) == Keyed(x.reference) && Mirrored(x, y)
  {
    FullOuterJoin(c, a, b, tolerance);
    FullOuterJoin(c, b, a, tolerance);
    AllKeysSwap(a, b);
    forall x | x in ba
      ensures exists y :: y in ab && Keyed(y.reference) == Keyed(x.reference) && Mirrored(x, y)
    {
      var key := Keyed(x.reference);
      EntriesMirror(a, b, tolerance, key);
      EntryKeepsKey(a, b, tolerance, key);
      assert Mirrored(x, EntryAt(a, b, tolerance, key));
    }
  }

  ghost predicate HasMirrors(xs: seq<Entry>, ys: seq<Entry>) {
    forall x :: x in xs ==> exists y :: y in ys && Mirrored(x, y)
  }

  lemma BestHasMirror(ba: seq<Entry>, ab: seq<Entry>)
    requires HasMirrors(ba, ab) && Best(ba).Some?
    ensures Worst(ab).Some? && Worst(ab).value <= -Best(ba).value
  {
    BestIsExtreme(ba);
    var x :| x in ba && Improving(x) && x.delta.value == Best(ba).value;
    var y :| y in ab && Mirrored(x, y);
    assert Degrading(y);
    WorstIsExtreme(ab);
  }

  lemma WorstHasMirror(ab: seq<Entry>, ba: seq<Entry>)
    requires HasMirrors(ab, ba) && Worst(ab).Some?
    ensures Best(ba).Some? && Best(ba).value >= -Worst(ab).value
  {
    WorstIsExtreme(ab);
    var x :| x in ab && Degrading(x) && x.delta.value == Worst(ab).value;
    var y :| y in ba && Mirrored(x, y);
    assert Improving(y);
    BestIsExtreme(ba);
  }

  lemma BestMirrorsWorst(ab: seq<Entry>, ba: seq<Entry>)
    requires HasMirrors(ab, ba) && HasMirrors(ba, ab)
    ensures Best(ba) == Negated(Worst(ab))
  {
    if Best(ba).Some? {
      BestHasMirror(ba, ab);
    }
    if Worst(ab).Some? {
      WorstHasMirror(ab, ba);
    }
  }

  lemma SwapExchangesExactExtremes(c: Collation, a: seq<ScoreEntry>, b: seq<ScoreEntry>, tolerance: real, ab: seq<Entry>, ba: seq<Entry>)
    requires AreSwapped(c, a, b, tolerance, ab, ba)
    ensures Best(ba) == Negated(Worst(ab))
  {
    SwapMirrorsEntries(c, a, b, tolerance, ab, ba);
    SwapMirrorsEntries(c, b, a, tolerance, ba, ab);
    assert HasMirrors(ab, ba);
    assert HasMirrors(ba, ab);
    BestMirrorsWorst(ab, ba);
  }

  lemma JoinedExtremesAreFixed(c: Collation, a: seq<ScoreEntry>, b: seq<ScoreEntry>, tolerance: real, joined: seq<Entry>)
    requires Joined(c, a, b, tolerance) == Ok(joined)
    requires OnGridAll(a) && OnGridAll(b) && tolerance >= 0.0
    ensures Rounded(Best(joined)) == Best(joined) && Rounded(Worst(joined)) == Worst(joined)
  {
    JoinedDeltasOnGrid(c, a, b, tolerance, joined);
    ExtremesAreFixed(joined);
  }

  /** Swapping the sides turns the worst regression into the best improvement, and so, swapped back,
      the best improvement into the worst regression. */
  lemma SwapExchangesExtremes(c: Collation, a: seq<ScoreEntry>, b: seq<ScoreEntry>, tolerance: real, ab: seq<Entry>, ba: seq<Entry>)
    requires AreSwapped(c, a, b, tolerance, ab, ba)
    ensures StatisticsOf(ba).best == Negated(StatisticsOf(ab).worst)
  {
    SwapExchangesExactExtremes(c, a, b, tolerance, ab, ba);
    JoinedExtremesAreFixed(c, a, b, tolerance, ab);
    JoinedExtremesAreFixed(c, b, a, tolerance, ba);
  }

  lemma ExtremesAreFixed(entries: seq<Entry>)
    requires forall e :: e in entries && e.delta.Some? ==> OnGrid(e.delta.value)
    ensures Rounded(Best(entries)) == Best(entries) && Rounded(Worst(entries)) == Worst(entries)
  {
    BestIsExtreme(entries);
    WorstIsExtreme(entries);
    if Best(entries).Some? {
      GridIsFixed(Best(entries).value);
    }
    if Worst(entries).Some? {
      GridIsFixed(Worst(entries).value);
    }
  }
}
