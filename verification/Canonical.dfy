/** The canonical form score entries take whenever they pass through a stored file. */
module Canonical {
  import opened Basics
  import opened StableSort
  import opened Ids
  import opened ScoreKeys
  import opened ScoreMerge

  function NormalFixture(fixtureId: string): string {
    match FixtureId(fixtureId) case Ok(f) => f case Err(_) => fixtureId
  }

  /** toCanonicalScoreEntry; it throws instead when the fixture id is not allowed. */
  function Canon(e: ScoreEntry): ScoreEntry {
    var f := NormalFixture(e.fixtureId);
    ScoreEntry(f, Some(NonBlank(e.screenId).GetOr(f)), NonBlank(e.screenName),
               NonBlank(e.viewportId), NonBlank(e.viewportLabel), e.score)
  }

  predicate FixturesAllowed(scores: seq<ScoreEntry>) {
    forall e :: e in scores ==> FixtureId(e.fixtureId).Ok?
  }

  function CanonAll(scores: seq<ScoreEntry>): seq<ScoreEntry> {
    Map(Canon, scores)
  }

  /** The runner's sortScores: canonicalise, then sort; throws for a fixture id that is not allowed. */
  function SortCanonical(c: Collation, scores: seq<ScoreEntry>): Result<seq<ScoreEntry>> {
    if FixturesAllowed(scores) then Ok(SortScores(c, CanonAll(scores))) else Err("fixture id")
  }

  ghost predicate IsCanonical(e: ScoreEntry) {
    FixtureId(e.fixtureId).Ok? && Canon(e) == e
  }

  /** Canonicalising is idempotent and keeps key and score. */
  lemma CanonFacts(e: ScoreEntry)
    requires FixtureId(e.fixtureId).Ok?
    ensures IsCanonical(Canon(e))
    ensures KeyOf(Canon(e)) == KeyOf(e) && KeyOf(e).Ok? && Canon(e).score == e.score
  {
    FixtureIdIsIdempotent(e.fixtureId);
    var f := FixtureId(e.fixtureId).value;
    NonBlankFacts(e.screenId);
    NonBlankFacts(e.screenName);
    NonBlankFacts(e.viewportId);
    NonBlankFacts(e.viewportLabel);
    TrimFacts(f);
  }

  lemma CanonFixesCanonical(scores: seq<ScoreEntry>)
    requires forall e :: e in scores ==> IsCanonical(e)
    ensures FixturesAllowed(scores) && CanonAll(scores) == scores
  {
    assert forall i :: 0 <= i < |scores| ==> scores[i] in scores;
  }

  /** What a file holds after a save is what every later load and save makes of it. */
  lemma CanonicalFilesAreStable(c: Collation, scores: seq<ScoreEntry>)
    requires FixturesAllowed(scores)
    ensures var stored := SortCanonical(c, scores).value;
            SortCanonical(c, stored) == Ok(stored)
            && Sorted(EntryOrder(c), stored) && forall e :: e in stored ==> IsCanonical(e)
  {
    EntryOrderIsTotal(c);
    var canon := CanonAll(scores);
    SortFacts(EntryOrder(c), canon);
    var stored := SortScores(c, canon);
    forall e | e in stored ensures IsCanonical(e) {
      var i :| 0 <= i < |canon| && canon[i] == e;
      assert scores[i] in scores;
      CanonFacts(scores[i]);
    }
    CanonFixesCanonical(stored);
    SortFixesSorted(EntryOrder(c), stored);
  }
}
