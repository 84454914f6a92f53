/** The matching results page of the localStorage version
    (src/pages/Results.tsx): the surveys that have stored results, the rows
    built from a survey's stored pairs, and the summary cards. */
module LocalResultsPage {
  import opened Wrappers
  import opened Text
  import opened Surveys
  import opened Store
  import opened LocalResultsTable
  import opened ResultsPage

  /** The surveys, in their order, that have a stored matching result. */
  function WithResults(store: Storage, surveys: seq<Survey>): (r: seq<Survey>)
    ensures forall s :: s in r <==> s in surveys && MatchingResultsKey(s.id) in store
    ensures |r| <= |surveys|
  {
    if surveys == [] then []
    else (if MatchingResultsKey(surveys[0].id) in store then [surveys[0]] else []) + WithResults(store, surveys[1..])
  }

  /** The filter keeps the order: it works piece by piece. */
  lemma {:induction false} WithResultsAppend(store: Storage, a: seq<Survey>, b: seq<Survey>)
    ensures WithResults(store, a + b) == WithResults(store, a) + WithResults(store, b)
    decreases |a|
  {
    if a != [] {
      assert (a + b)[1..] == a[1..] + b;
      WithResultsAppend(store, a[1..], b);
    } else {
      assert a + b == b;
    }
  }

  /** When every survey has results, all are listed in their order. */
  lemma {:induction false} WithResultsAll(store: Storage, surveys: seq<Survey>)
    requires forall k :: 0 <= k < |surveys| ==> MatchingResultsKey(surveys[k].id) in store
    ensures WithResults(store, surveys) == surveys
    decreases |surveys|
  {
    if surveys != [] {
      WithResultsAll(store, surveys[1..]);
    }
  }

  /** `getSurveysWithResults`. */
  function SurveysWithResults(store: Storage): seq<Survey> {
    WithResults(store, StoredSurveys(store))
  }

  /** Room `k` (counted from 0) is "A" and its number k + 1 padded with
      zeros to three digits. */
  function RoomNumber(k: nat): (r: string)
    ensures |r| >= 4 && r[0] == 'A'
  {
    "A" + PadStart(NatToString(k + 1), 3, '0')
  }

  /** After the "A" the room number is k + 1 in decimal, with zeros in
      front up to three digits. */
  lemma RoomNumberDigits(k: nat)
    ensures var r, d := RoomNumber(k), NatToString(k + 1);
      && |r| == 1 + (if |d| >= 3 then |d| else 3)
      && r[|r| - |d|..] == d
      && forall i :: 1 <= i < |r| - |d| ==> r[i] == '0'
  {
    var p := PadStart(NatToString(k + 1), 3, '0');
    assert RoomNumber(k)[1..] == p;
  }

  /** No two rooms share a number. */
  lemma RoomNumberInjective(k: nat, l: nat)
    requires RoomNumber(k) == RoomNumber(l)
    ensures k == l
  {
    var pk, pl := PadStart(NatToString(k + 1), 3, '0'), PadStart(NatToString(l + 1), 3, '0');
    assert pk == RoomNumber(k)[1..];
    assert pl == RoomNumber(l)[1..];
    PadStartNatInjective(k + 1, l + 1, 3);
  }

  /** Result row `k` of a stored pair. */
  function ResultOf(p: StoredPair, k: nat): MatchResult {
    MatchResult(k + 1, RoomNumber(k), p.studentAId + " " + p.studentA, p.studentBId + " " + p.studentB, p.score)
  }

  /** `getMatchingResults`: a row per stored pair, or none when the survey
      has no result or the stored value does not read as a list of pairs. */
  function MatchResults(store: Storage, surveyId: int): seq<MatchResult> {
    if MatchingResultsKey(surveyId) in store then
      match store[MatchingResultsKey(surveyId)]
      case Pairs(ps) => seq(|ps|, k requires 0 <= k < |ps| => ResultOf(ps[k], k))
      case _ => []
    else []
  }

  /** The rows follow the stored pairs one for one: ids count from 1, room
      numbers and ids are all different, each member reads "<id> <name>",
      and the score is the pair's. */
  lemma MatchResultsFacts(store: Storage, surveyId: int)
    ensures MatchingResultsKey(surveyId) !in store ==> MatchResults(store, surveyId) == []
    ensures MatchingResultsKey(surveyId) in store && !store[MatchingResultsKey(surveyId)].Pairs? ==>
      MatchResults(store, surveyId) == []
    ensures var r := MatchResults(store, surveyId);
      MatchingResultsKey(surveyId) in store && store[MatchingResultsKey(surveyId)].Pairs? ==>
        var ps := store[MatchingResultsKey(surveyId)].pairs;
        && |r| == |ps|
        && (forall k :: 0 <= k < |r| ==> r[k].id == k + 1 && r[k].matchScore == ps[k].score)
        && (forall k :: 0 <= k < |r| ==> r[k].studentA == ps[k].studentAId + " " + ps[k].studentA)
        && (forall k :: 0 <= k < |r| ==> r[k].studentB == ps[k].studentBId + " " + ps[k].studentB)
    ensures var r := MatchResults(store, surveyId);
      forall k, l :: 0 <= k < l < |r| ==> r[k].id != r[l].id && r[k].roomNumber != r[l].roomNumber
  {
    var r := MatchResults(store, surveyId);
    forall k, l | 0 <= k < l < |r| ensures r[k].id != r[l].id && r[k].roomNumber != r[l].roomNumber {
      if r[k].roomNumber == r[l].roomNumber {
        RoomNumberInjective(k, l);
      }
    }
  }

  /** In the table of a survey's stored results every row has its own room
      number and its edit button reports an id no other row reports. */
  lemma ShownRowsDistinct(store: Storage, surveyId: int)
    ensures var rows := Rows(MatchResults(store, surveyId));
      forall k, l :: 0 <= k < l < |rows| ==>
        rows[k].editTarget != rows[l].editTarget && rows[k].roomNumber != rows[l].roomNumber
  {
    MatchResultsFacts(store, surveyId);
  }

  class LocalResultsView {
    const store: Storage
    var surveys: seq<Survey>
    var selected: Option<int>
    var results: seq<MatchResult>

    /** The rows on show are the stored results of the selected survey, and
        none without a selection. */
    ghost predicate Valid()
      reads this
    {
      results == if IsSelected(selected) then MatchResults(store, selected.value) else []
    }

    /** The page after its mount effect listed the surveys and read the
        query parameter, and the selection effect ran. */
    constructor(stored: Storage, param: Option<string>)
      ensures Valid()
      ensures store == stored
      ensures surveys == SurveysWithResults(stored) && selected == SelectionFromQuery(param)
    {
      store := stored;
      surveys := SurveysWithResults(stored);
      var id: Option<int> := None;
      if param.Some? && param.value != "" {
        if ParsesAsInt(param.value) {
          id := Some(ParseIntOr0(param.value));
        }
      }
      selected := id;
      if IsSelected(id) {
        results := MatchResults(stored, id.value);
      } else {
        results := [];
      }
    }

    /** A new choice in the survey picker, followed by the selection effect. */
    method SelectionChanged(id: Option<int>)
      requires Valid()
      modifies this
      ensures Valid()
      ensures selected == id && surveys == old(surveys)
    {
      selected := id;
      if IsSelected(selected) {
        results := MatchResults(store, selected.value);
      } else {
        results := [];
      }
    }

    /** The cards of the results on show. */
    function Cards(): (s: Summary)
      reads this
      ensures s.totalMatched == 2 * |results| && s.successfulPairs == |results|
      ensures s.successRate == 100 <==> results != []
    {
      SummaryOf(|results|)
    }
  }
}
