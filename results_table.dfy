/** The results table (fe/src/components/Results/ResultsTable.tsx): the
    colour band of a match score and how a room member is shown. */
module ResultsTable {
  import opened Wrappers

  /** The CSS classes of a score: "zero", "high", "medium", "low", "very-low". */
  datatype ScoreBand = Zero | High | Medium | Low | VeryLow

  /** `getScoreClass`. */
  function ScoreClass(score: int): (b: ScoreBand)
    ensures b == Zero <==> score == 0
    ensures b == High <==> score >= 90
    ensures b == Medium <==> 80 <= score < 90
    ensures b == Low <==> 50 <= score < 80
    ensures b == VeryLow <==> score < 50 && score != 0
  {
    if score == 0 then Zero
    else if score >= 90 then High
    else if score >= 80 then Medium
    else if score >= 50 then Low
    else VeryLow
  }

  /** The order of the bands from worst to best. */
  function Rank(b: ScoreBand): nat {
    match b
    case Zero => 0
    case VeryLow => 0
    case Low => 1
    case Medium => 2
    case High => 3
  }

  /** Among positive scores a higher score never gets a worse band; only a
      score of exactly 0 is set apart, so banding is not monotone across 0. */
  lemma ScoreClassMonotone(s: int, s': int)
    requires 0 < s <= s'
    ensures Rank(ScoreClass(s)) <= Rank(ScoreClass(s'))
    ensures ScoreClass(s) != Zero && ScoreClass(s') != Zero
  {
  }

  lemma ZeroSetApart()
    ensures ScoreClass(-1) == VeryLow && ScoreClass(0) == Zero && ScoreClass(1) == VeryLow
  {
  }

  /** A room member as the results carry it. */
  datatype Member = Member(name: string, studentId: string, email: string)

  /** A member cell: "name (id)" with the email when there is one, or the
      "미배정" (unassigned) placeholder. */
  datatype MemberCell = Assigned(nameId: string, email: Option<string>) | Unassigned

  /** `result.studentX?.name && result.studentX?.studentId ? ... : 미배정`. */
  function ShowMember(m: Option<Member>): (c: MemberCell)
    ensures c.Assigned? <==> m.Some? && m.value.name != "" && m.value.studentId != ""
    ensures c.Assigned? ==> c.nameId == m.value.name + " (" + m.value.studentId + ")"
    ensures c.Assigned? ==> (c.email.Some? <==> m.value.email != "")
    ensures c.Assigned? && c.email.Some? ==> c.email.value == m.value.email
  {
    if m.Some? && m.value.name != "" && m.value.studentId != "" then
      Assigned(m.value.name + " (" + m.value.studentId + ")",
               if m.value.email != "" then Some(m.value.email) else None)
    else Unassigned
  }

  /** One result row of the table. */
  datatype MatchResult = MatchResult(id: int, roomNumber: string, studentA: Option<Member>,
                                     studentB: Option<Member>, matchScore: int)

  datatype Row = Row(roomNumber: string, a: MemberCell, b: MemberCell, score: int, band: ScoreBand)

  /** The rows, one per result and in result order. */
  function Rows(results: seq<MatchResult>): (rows: seq<Row>)
    ensures |rows| == |results|
    ensures forall k :: 0 <= k < |rows| ==>
      && rows[k].roomNumber == results[k].roomNumber
      && rows[k].a == ShowMember(results[k].studentA) && rows[k].b == ShowMember(results[k].studentB)
      && rows[k].score == results[k].matchScore && rows[k].band == ScoreClass(results[k].matchScore)
  {
    seq(|results|, k requires 0 <= k < |results| =>
      var r := results[k];
      Row(r.roomNumber, ShowMember(r.studentA), ShowMember(r.studentB), r.matchScore, ScoreClass(r.matchScore)))
  }

  /** A pair the matcher produced (score at least 50) is never shown as
      "zero" or "very-low". */
  lemma MatchedPairBand(score: int)
    requires 50 <= score <= 100
    ensures ScoreClass(score) in {High, Medium, Low}
  {
  }

  /** The email is shown only as an extra line: changing it never changes
      whether a member counts as assigned, nor the "name (id)" label. */
  lemma EmailOnlyShown(m: Member, e: string)
    ensures ShowMember(Some(m)).Assigned? == ShowMember(Some(m.(email := e))).Assigned?
    ensures ShowMember(Some(m)).Assigned? ==>
      ShowMember(Some(m)).nameId == ShowMember(Some(m.(email := e))).nameId
    ensures ShowMember(None) == Unassigned
  {
  }

  /** Rendering goes result by result: the rows of two lists of results are
      the rows of the first followed by those of the second. */
  lemma RowsAppend(a: seq<MatchResult>, b: seq<MatchResult>)
    ensures Rows(a + b) == Rows(a) + Rows(b)
  {
    var r, s := Rows(a + b), Rows(a) + Rows(b);
    assert |r| == |s|;
    forall k | 0 <= k < |r| ensures r[k] == s[k] {
      if k < |a| {
        assert (a + b)[k] == a[k];
      } else {
        assert (a + b)[k] == b[k - |a|];
      }
    }
  }

  /** Results whose scores lie in the matcher's range of 50..100 render
      with the high, medium or low band only, never "zero" or "very-low". */
  lemma RowsOfMatches(results: seq<MatchResult>)
    requires forall k :: 0 <= k < |results| ==> 50 <= results[k].matchScore <= 100
    ensures forall row :: row in Rows(results) ==> row.band in {High, Medium, Low}
  {
    var rows := Rows(results);
    forall row | row in rows ensures row.band in {High, Medium, Low} {
      var k :| 0 <= k < |rows| && rows[k] == row;
      MatchedPairBand(results[k].matchScore);
    }
  }
}
