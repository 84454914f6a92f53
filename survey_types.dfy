/** The survey records the admin pages share (fe/src/types/survey.ts). */
module Surveys {
  import opened Wrappers

  datatype SurveyStatus = Active | Inactive

  /** A roster entry; `email` is `undefined` (None) when not given. */
  datatype SurveyStudent = SurveyStudent(id: string, name: string, gender: string, email: Option<string>)

  datatype QuestionKind = MultipleChoice | TextInput

  datatype Question = Question(id: int, text: string, kind: QuestionKind)

  /** A survey as the pages hold it. The creation date and deadline are
      display strings derived from dates and are not part of this model. */
  datatype Survey = Survey(
    id: int,
    title: string,
    status: SurveyStatus,
    studentIds: seq<string>,
    students: Option<seq<SurveyStudent>>,
    questions: Option<seq<Question>>)

  /** A student's answers on the survey page, as typed or chosen. */
  datatype Answers = Answers(
    wakeup: string,
    bedtime: string,
    smoking: string,
    sleepHabits: string,
    mbti: string,
    major: string,
    specialNotes: string)

  /** The form before any answer. */
  const NoAnswers := Answers("", "", "", "", "", "", "")

  /** The names the radio and text inputs update. */
  datatype AnswerField = Wakeup | Bedtime | Smoking | SleepHabits | Mbti | Major | SpecialNotes

  /** `{ ...formData, [field]: value }`. */
  function WithAnswer(a: Answers, field: AnswerField, value: string): Answers {
    match field
    case Wakeup => a.(wakeup := value)
    case Bedtime => a.(bedtime := value)
    case Smoking => a.(smoking := value)
    case SleepHabits => a.(sleepHabits := value)
    case Mbti => a.(mbti := value)
    case Major => a.(major := value)
    case SpecialNotes => a.(specialNotes := value)
  }

  /** The answer a field holds. */
  function Answer(a: Answers, field: AnswerField): string {
    match field
    case Wakeup => a.wakeup
    case Bedtime => a.bedtime
    case Smoking => a.smoking
    case SleepHabits => a.sleepHabits
    case Mbti => a.mbti
    case Major => a.major
    case SpecialNotes => a.specialNotes
  }

  /** An update sets its own field and leaves every other field as it was. */
  lemma WithAnswerOnlyChanges(a: Answers, field: AnswerField, value: string)
    ensures Answer(WithAnswer(a, field, value), field) == value
    ensures forall f :: f != field ==> Answer(WithAnswer(a, field, value), f) == Answer(a, f)
  {
  }

  /** The four questions a submission needs; MBTI, major and notes are
      optional. */
  predicate RequiredAnswered(a: Answers) {
    a.wakeup != "" && a.bedtime != "" && a.smoking != "" && a.sleepHabits != ""
  }

  /** JavaScript truthiness of the selected survey id: null and 0 are falsy. */
  predicate IsSelected(selected: Option<int>) {
    selected.Some? && selected.value != 0
  }

  /** `surveys.find((s) => s.id === id)`. */
  function FindSurvey(surveys: seq<Survey>, id: int): (r: Option<Survey>)
    ensures r.Some? ==> r.value in surveys && r.value.id == id
    ensures r.None? <==> forall s :: s in surveys ==> s.id != id
    ensures r.Some? ==> exists k :: (0 <= k < |surveys| && surveys[k] == r.value
      && forall m :: 0 <= m < k ==> surveys[m].id != id)
  {
    if surveys == [] then None
    else if surveys[0].id == id then Some(surveys[0])
    else
      var r := FindSurvey(surveys[1..], id);
      if r.Some? then
        var k :| 0 <= k < |surveys[1..]| && surveys[1..][k] == r.value
          && forall m :: 0 <= m < k ==> surveys[1..][m].id != id;
        assert surveys[k + 1] == r.value;
        r
      else r
  }
}
