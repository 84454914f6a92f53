/** The student survey page of the server-backed version
    (fe/src/pages/Survey.tsx): the same verification and submission steps as
    the localStorage version, with the roster lookup and the upload not yet
    written, so any student with an id and a name is let in. The route
    parameter, the error kinds and the submit guards are shared with the
    localStorage page. */
module SurveyPage {
  import opened Wrappers
  import opened Text
  import opened Surveys

  /** `surveyId ? parseInt(surveyId, 10) : null`, with the falsy cases (no
      route parameter, an empty one, NaN and 0) all read as 0. */
  function SurveyNumber(param: Option<string>): int {
    if param.Some? && param.value != "" then ParseIntOr0(param.value) else 0
  }

  /** The link the survey management page hands out, `/survey/<id>`, leads
      back to that survey's id. */
  lemma SurveyNumberOfLink(id: int)
    ensures SurveyNumber(Some(IntToString(id))) == id
  {
    ParseIntOfInt(id);
  }

  datatype VerifyError = MissingFields | NoSurveyId | NoMatch

  datatype SubmitError = NotVerified | AlreadySubmitted | MissingRequired | SurveyIdMissing

  /** `handleSubmit`'s guards, in their order. */
  function SubmitCheck(verified: bool, submitted: bool, a: Answers, surveyId: int): Result<(), SubmitError> {
    if !verified then Err(NotVerified)
    else if submitted then Err(AlreadySubmitted)
    else if !RequiredAnswered(a) then Err(MissingRequired)
    else if surveyId == 0 then Err(SurveyIdMissing)
    else Ok(())
  }

  /** A submission goes through exactly when the student is verified, has
      not submitted, has answered the four required questions and the page
      has a survey id; the optional answers never block it. */
  lemma SubmitCheckIff(verified: bool, submitted: bool, a: Answers, surveyId: int)
    ensures SubmitCheck(verified, submitted, a, surveyId).Ok? <==>
      verified && !submitted && surveyId != 0
      && a.wakeup != "" && a.bedtime != "" && a.smoking != "" && a.sleepHabits != ""
    ensures forall mbti, major, notes ::
      SubmitCheck(verified, submitted, a.(mbti := mbti, major := major, specialNotes := notes), surveyId)
        == SubmitCheck(verified, submitted, a, surveyId)
  {
  }

  class StudentForm {
    const surveyNumber: int
    var studentId: string
    var studentName: string
    var isVerified: bool
    var isSubmitted: bool
    var error: Option<VerifyError>
    var answers: Answers

    /** Only a student who gave an id and a name on a page with a survey id
        is verified, and only a verified student has submitted. */
    ghost predicate Valid()
      reads this
    {
      && (isVerified ==> surveyNumber != 0 && studentId != "" && studentName != "")
      && (isSubmitted ==> isVerified)
    }

    /** The page as first shown for the route parameter `param`. */
    constructor(param: Option<string>)
      ensures Valid()
      ensures surveyNumber == SurveyNumber(param)
      ensures studentId == "" && studentName == "" && !isVerified && !isSubmitted
      ensures error == None && answers == NoAnswers
    {
      surveyNumber := SurveyNumber(param);
      studentId := "";
      studentName := "";
      isVerified := false;
      isSubmitted := false;
      error := None;
      answers := NoAnswers;
    }

    /** `handleStudentIdChange`; the submitted-status effect does nothing yet. */
    method StudentIdChanged(value: string)
      requires Valid()
      modifies this
      ensures Valid()
      ensures studentId == value && !isVerified && !isSubmitted
      ensures studentName == old(studentName) && error == old(error) && answers == old(answers)
    {
      studentId := value;
      isVerified := false;
      isSubmitted := false;
    }

    /** `handleStudentNameChange`. */
    method StudentNameChanged(value: string)
      requires Valid()
      modifies this
      ensures Valid()
      ensures studentName == value && !isVerified && !isSubmitted
      ensures studentId == old(studentId) && error == old(error) && answers == old(answers)
    {
      studentName := value;
      isVerified := false;
      isSubmitted := false;
    }

    /** `handleRadioChange` and `handleInputChange`. */
    method AnswerChanged(field: AnswerField, value: string)
      requires Valid()
      modifies this
      ensures Valid()
      ensures answers == WithAnswer(old(answers), field, value)
      ensures studentId == old(studentId) && studentName == old(studentName)
      ensures isVerified == old(isVerified) && isSubmitted == old(isSubmitted) && error == old(error)
    {
      answers := WithAnswer(answers, field, value);
    }

    /** `handleVerify`: both fields and a survey id are required, and then
        the student is verified. */
    method Verify()
      requires Valid()
      modifies this
      ensures Valid()
      ensures studentId == "" || studentName == "" ==>
        error == Some(MissingFields) && isVerified == old(isVerified)
      ensures studentId != "" && studentName != "" && surveyNumber == 0 ==>
        error == Some(NoSurveyId) && isVerified == old(isVerified)
      ensures studentId != "" && studentName != "" && surveyNumber != 0 ==>
        isVerified && error == None
      ensures isSubmitted == old(isSubmitted)
      ensures studentId == old(studentId) && studentName == old(studentName) && answers == old(answers)
    {
      error := None;
      if studentId == "" || studentName == "" {
        error := Some(MissingFields);
        return;
      }
      if surveyNumber == 0 {
        error := Some(NoSurveyId);
        return;
      }
      isVerified := true;
      error := None;
    }

    /** `handleSubmit`: after the guards the page turns submitted; the upload
        of the response is not written yet. A second submit is refused. */
    method Submit() returns (r: Result<(), SubmitError>)
      requires Valid()
      modifies this
      ensures Valid()
      ensures r == SubmitCheck(old(isVerified), old(isSubmitted), answers, surveyNumber)
      ensures r.Ok? ==> isSubmitted && !old(isSubmitted)
      ensures r.Err? ==> isSubmitted == old(isSubmitted)
      ensures studentId == old(studentId) && studentName == old(studentName) && answers == old(answers)
      ensures isVerified == old(isVerified) && error == old(error)
    {
      if !isVerified {
        return Err(NotVerified);
      }
      if isSubmitted {
        return Err(AlreadySubmitted);
      }
      if answers.wakeup == "" || answers.bedtime == "" || answers.smoking == "" || answers.sleepHabits == "" {
        return Err(MissingRequired);
      }
      if surveyNumber == 0 {
        // a verified page always has a survey id
        assert false;
      }
      isSubmitted := true;
      r := Ok(());
    }
  }
}
