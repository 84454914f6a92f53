/** The matching results page of the server-backed version
    (fe/src/pages/Results.tsx): the survey picker, the selection taken from
    the page address, and the summary cards. Its data sources are not
    written yet and always give empty lists. The query parameter and the
    summary are shared with the localStorage version. */
module ResultsPage {
  import opened Wrappers
  import opened Text
  import opened Surveys
  import opened Matching
  import opened ResultsTable

  /** The `surveyId` query parameter: selected when `parseInt` reads a
      number from it, left unselected otherwise. */
  function SelectionFromQuery(param: Option<string>): (r: Option<int>)
    ensures r.Some? <==> param.Some? && ParsesAsInt(param.value)
    ensures r.Some? ==> r.value == ParseIntOr0(param.value)
  {
    if param.Some? && param.value != "" && ParsesAsInt(param.value) then Some(ParseIntOr0(param.value)) else None
  }

  /** The matching page sends the admin to `/results?surveyId=<id>`; the
      results page then selects that survey. */
  lemma SelectionOfRedirect(id: int)
    ensures SelectionFromQuery(Some(IntToString(id))) == Some(id)
    ensures IsSelected(SelectionFromQuery(Some(IntToString(id)))) <==> id != 0
  {
    ParseIntOfInt(id);
  }

  /** The four summary cards. */
  datatype Summary = Summary(totalMatched: int, successfulPairs: int, successRate: int, unmatched: int)

  /** The statistics of `count` result rows: two students per room, every
      room a successful pair, and the rate of successful pairs among the
      rooms rounded to a percentage. */
  function SummaryOf(count: nat): (s: Summary)
    ensures s.totalMatched == 2 * count && s.successfulPairs == count && s.unmatched == 0
    ensures s.successRate == if count > 0 then 100 else 0
  {
    var totalMatched := 2 * count;
    var successfulPairs := count;
    var rate :=
      if totalMatched > 0 then
        WholeIsHundred(successfulPairs);
        RoundedPercent(successfulPairs, totalMatched / 2)
      else 0;
    Summary(totalMatched, successfulPairs, rate, 0)
  }

  /** All of a positive amount is 100 percent. */
  lemma WholeIsHundred(n: nat)
    requires n > 0
    ensures RoundedPercent(n, n) == 100
  {
    var r := RoundedPercent(n, n);
    MulMonotone(101, r, 2 * n);
    MulMonotone(r + 1, 100, 2 * n);
  }

  class ResultsView {
    var surveys: seq<Survey>
    var selected: Option<int>
    var results: seq<MatchResult>

    /** Both data sources give nothing, so no result is ever shown. */
    ghost predicate Valid()
      reads this
    {
      surveys == [] && results == []
    }

    /** The page after its mount effect read the query parameter and the
        selection effect ran. */
    constructor(param: Option<string>)
      ensures Valid()
      ensures selected == SelectionFromQuery(param)
    {
      surveys := [];
      selected := None;
      if param.Some? && param.value != "" {
        if ParsesAsInt(param.value) {
          selected := Some(ParseIntOr0(param.value));
        }
      }
      results := [];
    }

    /** A new choice in the survey picker, followed by the selection effect. */
    method SelectionChanged(id: Option<int>)
      requires Valid()
      modifies this
      ensures Valid()
      ensures selected == id
    {
      selected := id;
      if IsSelected(selected) {
        results := [];
      } else {
        results := [];
      }
    }

    /** The cards of the results on show. */
    function Cards(): (s: Summary)
      reads this
      ensures Valid() ==> s == Summary(0, 0, 0, 0)
    {
      SummaryOf(|results|)
    }
  }
}
