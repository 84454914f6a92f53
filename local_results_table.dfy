/** The results table of the localStorage version
    (src/components/Results/ResultsTable.tsx): three score bands only. */
module LocalResultsTable {
  import ResultsTable

  datatype ScoreBand = High | Medium | Low

  /** `getScoreClass`: 90 and above, 80 and above, everything else. */
  function ScoreClass(score: int): (b: ScoreBand)
    ensures b == High <==> score >= 90
    ensures b == Medium <==> 80 <= score < 90
    ensures b == Low <==> score < 80
  {
    if score >= 90 then High
    else if score >= 80 then Medium
    else Low
  }

  function Rank(b: ScoreBand): nat {
    match b
    case Low => 0
    case Medium => 1
    case High => 2
  }

  /** A higher score never gets a worse band, 0 included. */
  lemma ScoreClassMonotone(s: int, s': int)
    requires s <= s'
    ensures Rank(ScoreClass(s)) <= Rank(ScoreClass(s'))
  {
  }

  /** The two tables agree from 80 up; below 80 this one does not tell the
      bands of the other apart. */
  lemma AgreesWithFiveBands(s: int)
    ensures ScoreClass(s) == High <==> ResultsTable.ScoreClass(s) == ResultsTable.High
    ensures ScoreClass(s) == Medium <==> ResultsTable.ScoreClass(s) == ResultsTable.Medium
    ensures ScoreClass(s) == Low <==> ResultsTable.ScoreClass(s) in {ResultsTable.Zero, ResultsTable.Low, ResultsTable.VeryLow}
  {
  }

  /** One result row: the members are preformatted strings. */
  datatype MatchResult = MatchResult(id: int, roomNumber: string, studentA: string, studentB: string, matchScore: int)

  datatype Row = Row(roomNumber: string, a: string, b: string, score: int, band: ScoreBand, editTarget: int)

  /** The rows in result order; each row's edit button reports its result id. */
  function Rows(results: seq<MatchResult>): (rows: seq<Row>)
    ensures |rows| == |results|
    ensures forall k :: 0 <= k < |rows| ==>
      rows[k] == Row(results[k].roomNumber, results[k].studentA, results[k].studentB,
                     results[k].matchScore, ScoreClass(results[k].matchScore), results[k].id)
  {
    seq(|results|, k requires 0 <= k < |results| =>
      var r := results[k];
      Row(r.roomNumber, r.studentA, r.studentB, r.matchScore, ScoreClass(r.matchScore), r.id))
  }

  /** Rendering goes result by result: the rows of two lists of results are
      the rows of the first followed by those of the second. */
  lemma RowsAppend(a: seq<MatchResult>, b: seq<MatchResult>)
    ensures Rows(a + b) == Rows(a) + Rows(b)
  {
    var r, s := Rows(a + b), Rows(a) + Rows(b);
    assert |r| == |s|;
    forall k | 0 <= k < |r| ensures r[k] == s[k] {
      if k < |a| {
        assert (a + b)[k] == a[k];
      } else {
        assert (a + b)[k] == b[k - |a|];
      }
    }
  }
}
