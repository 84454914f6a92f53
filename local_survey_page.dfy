/** The student survey page of the localStorage version
    (src/pages/Survey.tsx): a student proves who they are against the
    survey's roster, answers the questions and submits once. */
module LocalSurveyPage {
  import opened Wrappers
  import opened Text
  import opened Surveys
  import opened Store
  import opened SurveyPage

  /** A roster entry as the page compares it: id and name. */
  datatype Entry = Entry(id: string, name: string)

  /** `getSurveyStudentData`: the id and name of every student of the survey
      when it lists students, otherwise its student ids with empty names;
      nothing when the survey is not stored. */
  function RosterOf(surveys: seq<Survey>, surveyId: int): seq<Entry> {
    match FindSurvey(surveys, surveyId)
    case None => []
    case Some(s) =>
      match s.students
      case Some(st) => seq(|st|, k requires 0 <= k < |st| => Entry(st[k].id, st[k].name))
      case None => seq(|s.studentIds|, k requires 0 <= k < |s.studentIds| => Entry(s.studentIds[k], ""))
  }

  predicate Registered(surveys: seq<Survey>, surveyId: int, id: string, name: string) {
    Entry(id, name) in RosterOf(surveys, surveyId)
  }

  /** What the roster holds: exactly the listed students' ids and names, or
      exactly the student ids with empty names for a survey without a
      student list, and nothing for a survey that is not stored. */
  lemma RosterFacts(surveys: seq<Survey>, surveyId: int)
    ensures FindSurvey(surveys, surveyId).None? ==> RosterOf(surveys, surveyId) == []
    ensures var f := FindSurvey(surveys, surveyId);
      f.Some? && f.value.students.Some? ==>
        forall id, name :: Entry(id, name) in RosterOf(surveys, surveyId) <==>
          exists x :: x in f.value.students.value && x.id == id && x.name == name
    ensures var f := FindSurvey(surveys, surveyId);
      f.Some? && f.value.students.None? ==>
        forall id, name :: Entry(id, name) in RosterOf(surveys, surveyId) <==> id in f.value.studentIds && name == ""
  {
    var f := FindSurvey(surveys, surveyId);
    var r := RosterOf(surveys, surveyId);
    if f.Some? && f.value.students.Some? {
      var st := f.value.students.value;
      forall id, name
        ensures Entry(id, name) in r <==> exists x :: x in st && x.id == id && x.name == name
      {
        if Entry(id, name) in r {
          var k :| 0 <= k < |r| && r[k] == Entry(id, name);
          assert st[k] in st;
        }
        if exists x :: x in st && x.id == id && x.name == name {
          var x :| x in st && x.id == id && x.name == name;
          var k :| 0 <= k < |st| && st[k] == x;
          assert r[k] == Entry(id, name);
        }
      }
    }
    if f.Some? && f.value.students.None? {
      var ids := f.value.studentIds;
      forall id, name
        ensures Entry(id, name) in r <==> id in ids && name == ""
      {
        if id in ids && name == "" {
          var k :| 0 <= k < |ids| && ids[k] == id;
          assert r[k] == Entry(id, name);
        }
      }
    }
  }

  /** A survey stored with student ids only has no entry a student can match:
      verification needs a non-empty name and every entry's name is empty. */
  lemma IdOnlyRosterNeverMatches(surveys: seq<Survey>, surveyId: int, id: string, name: string)
    requires FindSurvey(surveys, surveyId).Some?
    requires FindSurvey(surveys, surveyId).value.students.None?
    requires name != ""
    ensures !Registered(surveys, surveyId, id, name)
  {
    RosterFacts(surveys, surveyId);
  }

  /** The two writes of a submission. */
  function Submitted(store: Storage, surveyId: int, id: string, name: string, a: Answers): Storage {
    store[ResponseKey(surveyId, id) := Response(Submission(id, name, a))][SubmittedKey(surveyId, id) := Raw("true")]
  }

  /** A submission stores the response and sets the flag, and changes no
      survey and no other student's flag. */
  lemma SubmittedFacts(store: Storage, surveyId: int, id: string, name: string, a: Answers)
    ensures var s := Submitted(store, surveyId, id, name, a);
      && SubmittedFlag(s, surveyId, id)
      && s[ResponseKey(surveyId, id)] == Response(Submission(id, name, a))
      && StoredSurveys(s) == StoredSurveys(store)
      && (forall n, x :: (n, x) != (surveyId, id) ==> (SubmittedFlag(s, n, x) <==> SubmittedFlag(store, n, x)))
  {
    var s := Submitted(store, surveyId, id, name, a);
    if SurveysKey in store {
      assert s[SurveysKey] == store[SurveysKey];
    } else {
      assert SurveysKey !in s;
    }
  }

  class LocalStudentForm {
    var store: Storage
    const surveyNumber: int
    var studentId: string
    var studentName: string
    var isVerified: bool
    var isSubmitted: bool
    var error: Option<VerifyError>
    var answers: Answers

    /** A verified student is on the roster under the page's survey id, and
        the page's submitted flag then agrees with the stored one; the page
        never claims a submission the store does not hold. */
    ghost predicate Valid()
      reads this
    {
      && (isVerified ==> (surveyNumber != 0 && studentId != "" && studentName != ""
            && Registered(StoredSurveys(store), surveyNumber, studentId, studentName)))
      && (isVerified ==> (isSubmitted <==> SubmittedFlag(store, surveyNumber, studentId)))
      && (isSubmitted ==> studentId != "" && surveyNumber != 0 && SubmittedFlag(store, surveyNumber, studentId))
    }

    /** The page as first shown for the route parameter `param`. */
    constructor(stored: Storage, param: Option<string>)
      ensures Valid()
      ensures store == stored && surveyNumber == SurveyNumber(param)
      ensures studentId == "" && studentName == "" && !isVerified && !isSubmitted
      ensures error == None && answers == NoAnswers
    {
      store := stored;
      surveyNumber := SurveyNumber(param);
      studentId := "";
      studentName := "";
      isVerified := false;
      isSubmitted := false;
      error := None;
      answers := NoAnswers;
    }

    /** The effect that runs when the student id changes: mark the survey
        submitted when the stored flag says so. */
    method CheckSubmitted()
      requires Valid()
      modifies this
      ensures Valid()
      ensures isSubmitted == (old(isSubmitted) || (studentId != "" && surveyNumber != 0 && SubmittedFlag(store, surveyNumber, studentId)))
      ensures store == old(store) && studentId == old(studentId) && studentName == old(studentName)
      ensures isVerified == old(isVerified) && error == old(error) && answers == old(answers)
    {
      if studentId != "" && surveyNumber != 0 {
        if SubmittedKey(surveyNumber, studentId) in store && store[SubmittedKey(surveyNumber, studentId)] == Raw("true") {
          isSubmitted := true;
        }
      }
    }

    /** `handleStudentIdChange`, followed by the effect when the id changed. */
    method StudentIdChanged(value: string)
      requires Valid()
      modifies this
      ensures Valid()
      ensures studentId == value && !isVerified
      ensures isSubmitted == (value != old(studentId) && value != "" && surveyNumber != 0 && SubmittedFlag(store, surveyNumber, value))
      ensures store == old(store) && studentName == old(studentName) && error == old(error) && answers == old(answers)
    {
      var changed := value != studentId;
      studentId := value;
      isVerified := false;
      isSubmitted := false;
      if changed {
        CheckSubmitted();
      }
    }

    /** `handleStudentNameChange`. */
    method StudentNameChanged(value: string)
      requires Valid()
      modifies this
      ensures Valid()
      ensures studentName == value && !isVerified && !isSubmitted
      ensures store == old(store) && studentId == old(studentId) && error == old(error) && answers == old(answers)
    {
      studentName := value;
      isVerified := false;
      isSubmitted := false;
    }

    /** `handleRadioChange` and `handleInputChange`. */
    method AnswerChanged(field: AnswerField, value: string)
      requires Valid()
      modifies this
      ensures Valid()
      ensures answers == WithAnswer(old(answers), field, value)
      ensures store == old(store) && studentId == old(studentId) && studentName == old(studentName)
      ensures isVerified == old(isVerified) && isSubmitted == old(isSubmitted) && error == old(error)
    {
      answers := WithAnswer(answers, field, value);
    }

    /** `handleVerify`: both fields and a survey id are required; then the
        student is verified exactly when the roster has an entry with that id
        and name, and a stored flag marks the survey submitted. */
    method Verify()
      requires Valid()
      modifies this
      ensures Valid()
      ensures studentId == "" || studentName == "" ==>
        error == Some(MissingFields) && isVerified == old(isVerified) && isSubmitted == old(isSubmitted)
      ensures studentId != "" && studentName != "" && surveyNumber == 0 ==>
        error == Some(NoSurveyId) && isVerified == old(isVerified) && isSubmitted == old(isSubmitted)
      ensures studentId != "" && studentName != "" && surveyNumber != 0 ==>
        && isVerified == Registered(StoredSurveys(store), surveyNumber, studentId, studentName)
        && error == (if isVerified then None else Some(NoMatch))
      ensures studentId != "" && studentName != "" && surveyNumber != 0 ==>
        isSubmitted == (old(isSubmitted) || (isVerified && SubmittedFlag(store, surveyNumber, studentId)))
      ensures store == old(store) && studentId == old(studentId) && studentName == old(studentName) && answers == old(answers)
    {
      error := None;
      if studentId == "" || studentName == "" {
        error := Some(MissingFields);
        return;
      }
      if surveyNumber == 0 {
        error := Some(NoSurveyId);
        return;
      }
      var roster := RosterOf(StoredSurveys(store), surveyNumber);
      if Entry(studentId, studentName) in roster {
        isVerified := true;
        error := None;
        if SubmittedKey(surveyNumber, studentId) in store && store[SubmittedKey(surveyNumber, studentId)] == Raw("true") {
          isSubmitted := true;
        }
      } else {
        error := Some(NoMatch);
        isVerified := false;
      }
    }

    /** `handleSubmit`: after the guards, the response and the submitted flag
        are stored and the page turns submitted. A student whose flag is
        already stored cannot submit again. */
    method Submit() returns (r: Result<(), SubmitError>)
      requires Valid()
      modifies this
      ensures Valid()
      ensures r == SubmitCheck(old(isVerified), old(isSubmitted), answers, surveyNumber)
      ensures r.Ok? ==> store == Submitted(old(store), surveyNumber, studentId, studentName, answers) && isSubmitted
      ensures r.Ok? ==> !SubmittedFlag(old(store), surveyNumber, studentId)
      ensures r.Err? ==> store == old(store) && isSubmitted == old(isSubmitted)
      ensures studentId == old(studentId) && studentName == old(studentName) && answers == old(answers)
      ensures isVerified == old(isVerified) && error == old(error)
    {
      if !isVerified {
        return Err(NotVerified);
      }
      if isSubmitted {
        return Err(AlreadySubmitted);
      }
      if answers.wakeup == "" || answers.bedtime == "" || answers.smoking == "" || answers.sleepHabits == "" {
        return Err(MissingRequired);
      }
      if surveyNumber == 0 {
        // a verified page always has a survey id
        assert false;
      }
      SubmittedFacts(store, surveyNumber, studentId, studentName, answers);
      ghost var next := Submitted(store, surveyNumber, studentId, studentName, answers);
      store := store[ResponseKey(surveyNumber, studentId) := Response(Submission(studentId, studentName, answers))];
      store := store[SubmittedKey(surveyNumber, studentId) := Raw("true")];
      assert store == next;
      isSubmitted := true;
      r := Ok(());
    }
  }
}
