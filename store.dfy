/** The browser's localStorage as the localStorage-backed pages use it
    (src/pages/SurveyManagement.tsx, src/pages/Survey.tsx,
    src/pages/Results.tsx): a map from structured keys to structured values.
    The JSON text of the values is not modelled; a value that would not
    parse, or parses to the wrong shape, is `Unreadable`. */
module Store {
  import opened Surveys

  /** "surveys", `survey_<id>_<student>`, `survey_submitted_<id>_<student>`,
      `matchingResults_<id>` and `matchingExecuted_<id>`. */
  datatype Key =
    | SurveysKey
    | ResponseKey(surveyId: int, studentId: string)
    | SubmittedKey(surveyId: int, studentId: string)
    | MatchingResultsKey(surveyId: int)
    | MatchingExecutedKey(surveyId: int)

  /** A stored survey response; the submission time is not modelled. */
  datatype Submission = Submission(studentId: string, studentName: string, answers: Answers)

  /** A stored matched pair, as the results page reads it. */
  datatype StoredPair = StoredPair(studentA: string, studentAId: string, studentB: string, studentBId: string, score: int)

  datatype Value =
    | SurveyList(surveys: seq<Survey>)
    | Response(submission: Submission)
    | Pairs(pairs: seq<StoredPair>)
    | Raw(text: string)
    | Unreadable

  type Storage = map<Key, Value>

  /** `getSurveys`: the stored list, or none when the key is missing or its
      value does not read as a list. */
  function StoredSurveys(store: Storage): seq<Survey> {
    if SurveysKey in store then
      match store[SurveysKey]
      case SurveyList(surveys) => surveys
      case _ => []
    else []
  }

  /** The stored submitted flag of a student reads "true". */
  predicate SubmittedFlag(store: Storage, surveyId: int, studentId: string) {
    SubmittedKey(surveyId, studentId) in store && store[SubmittedKey(surveyId, studentId)] == Raw("true")
  }
}
