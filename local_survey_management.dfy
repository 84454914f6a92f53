/** The localStorage-backed survey management page
    (src/pages/SurveyManagement.tsx): the roster form, saving and deploying a
    new survey into the stored list, and the example-data reset. */
module LocalSurveyManagement {
  import opened Wrappers
  import opened Text
  import opened Surveys
  import opened Store
  import SurveyManagement

  // ---------------------------------------------------------------------
  // New surveys

  /** `Math.max(...surveys.map((s) => s.id))`. */
  function MaxId(surveys: seq<Survey>): (m: int)
    requires |surveys| > 0
    ensures forall k :: 0 <= k < |surveys| ==> surveys[k].id <= m
    ensures exists k :: 0 <= k < |surveys| && surveys[k].id == m
    decreases |surveys|
  {
    if |surveys| == 1 then surveys[0].id
    else
      var m := MaxId(surveys[1..]);
      assert forall k :: 1 <= k < |surveys| ==> surveys[k] == surveys[1..][k - 1];
      if surveys[0].id >= m then surveys[0].id else m
  }

  /** The id of a new survey: one past the largest id, or 1 for an empty
      list. It is above every id in the list, so it is new. */
  function NextId(surveys: seq<Survey>): (r: int)
    ensures forall k :: 0 <= k < |surveys| ==> surveys[k].id < r
    ensures |surveys| == 0 ==> r == 1
    ensures |surveys| > 0 ==> exists k :: 0 <= k < |surveys| && r == surveys[k].id + 1
  {
    if |surveys| > 0 then MaxId(surveys) + 1 else 1
  }

  function RosterIds(roster: seq<SurveyStudent>): (r: seq<string>)
    ensures |r| == |roster| && forall k :: 0 <= k < |r| ==> r[k] == roster[k].id
  {
    seq(|roster|, k requires 0 <= k < |roster| => roster[k].id)
  }

  /** The survey a save (inactive) or deploy (active) appends. */
  function NewSurvey(surveys: seq<Survey>, title: string, roster: seq<SurveyStudent>, status: SurveyStatus): Survey {
    Survey(NextId(surveys), title, status, RosterIds(roster), Some(roster), Some(SurveyManagement.FixedQuestions))
  }

  /** No two surveys share an id. */
  predicate DistinctIds(surveys: seq<Survey>) {
    forall k, l :: 0 <= k < l < |surveys| ==> surveys[k].id != surveys[l].id
  }

  /** Appending a new survey keeps the ids distinct. */
  lemma NewSurveyKeepsDistinct(surveys: seq<Survey>, title: string, roster: seq<SurveyStudent>, status: SurveyStatus)
    requires DistinctIds(surveys)
    ensures DistinctIds(surveys + [NewSurvey(surveys, title, roster, status)])
  {
    var r := surveys + [NewSurvey(surveys, title, roster, status)];
    forall k, l | 0 <= k < l < |r| ensures r[k].id != r[l].id {
      if l == |surveys| {
        assert r[k] == surveys[k];
      } else {
        assert r[k] == surveys[k] && r[l] == surveys[l];
      }
    }
  }

  datatype SaveError = MissingTitleOrDeadline | EmptyRoster

  // ---------------------------------------------------------------------
  // The example data

  /** `surveys.filter((s) => s.id !== id)`. */
  function WithoutId(surveys: seq<Survey>, id: int): (r: seq<Survey>)
    ensures |r| <= |surveys|
    ensures forall x :: x in r <==> x in surveys && x.id != id
    decreases |surveys|
  {
    if surveys == [] then []
    else (if surveys[0].id != id then [surveys[0]] else []) + WithoutId(surveys[1..], id)
  }

  /** Filtering goes survey by survey, in order: filtering two lists joined
      is filtering each and joining the results. */
  lemma {:induction false} WithoutIdAppend(a: seq<Survey>, b: seq<Survey>, id: int)
    ensures WithoutId(a + b, id) == WithoutId(a, id) + WithoutId(b, id)
    decreases |a|
  {
    if a == [] {
      assert a + b == b;
    } else {
      assert (a + b)[0] == a[0];
      assert (a + b)[1..] == a[1..] + b;
      WithoutIdAppend(a[1..], b, id);
    }
  }

  /** Filtering out an id changes nothing when no survey has it. */
  lemma {:induction false} WithoutAbsentId(surveys: seq<Survey>, id: int)
    requires forall k :: 0 <= k < |surveys| ==> surveys[k].id != id
    ensures WithoutId(surveys, id) == surveys
    decreases |surveys|
  {
    if surveys != [] {
      assert forall k :: 0 <= k < |surveys[1..]| ==> surveys[1..][k] == surveys[k + 1];
      WithoutAbsentId(surveys[1..], id);
      assert [surveys[0]] + surveys[1..] == surveys;
    }
  }

  const ExampleSurveyId := 1

  const ExampleStudentIds: seq<string> := ["2021112018", "2021112019", "2021112020", "2021112021", "2021112022"]

  const ExampleStudents: seq<SurveyStudent> := [
    SurveyStudent("2021112018", "\U{BC15}\U{C9C0}\U{D604}", "\U{C5EC}", None),
    SurveyStudent("2021112019", "\U{AE40}\U{BBFC}\U{C218}", "\U{B0A8}", None),
    SurveyStudent("2021112020", "\U{C774}\U{C11C}\U{C5F0}", "\U{C5EC}", None),
    SurveyStudent("2021112021", "\U{CD5C}\U{B3D9}\U{D604}", "\U{B0A8}", None),
    SurveyStudent("2021112022", "\U{C815}\U{C218}\U{C9C4}", "\U{C5EC}", None)]

  const ExampleSurvey := Survey(
    ExampleSurveyId, "2025\U{B144} \U{BD04}\U{D559}\U{AE30} \U{C2E0}\U{C785}\U{C0DD} \U{B8F8}\U{BA54}\U{C774}\U{D2B8} \U{B9E4}\U{CE6D} \U{C124}\U{BB38}", Active,
    ExampleStudentIds, Some(ExampleStudents), Some(SurveyManagement.FixedQuestions))

  /** Four of the five example students have answered. */
  const ExampleResponses: seq<Submission> := [
    Submission("2021112018", "\U{BC15}\U{C9C0}\U{D604}", Answers("6to8", "10to12", "no", "no", "ENFP", "\U{CEF4}\U{D4E8}\U{D130}\U{ACF5}\U{D559}\U{ACFC}", "\U{C870}\U{C6A9}\U{D55C} \U{D658}\U{ACBD}\U{C744} \U{C120}\U{D638}\U{D569}\U{B2C8}\U{B2E4}.")),
    Submission("2021112019", "\U{AE40}\U{BBFC}\U{C218}", Answers("before6", "before10", "no", "yes", "ISTJ", "\U{C804}\U{AE30}\U{C804}\U{C790}\U{ACF5}\U{D559}\U{ACFC}", "\U{ADDC}\U{CE59}\U{C801}\U{C778} \U{C0DD}\U{D65C}\U{C744} \U{C88B}\U{C544}\U{D569}\U{B2C8}\U{B2E4}.")),
    Submission("2021112020", "\U{C774}\U{C11C}\U{C5F0}", Answers("8to10", "12to2", "no", "no", "ISFP", "\U{B514}\U{C790}\U{C778}\U{D559}\U{ACFC}", "\U{BC24}\U{C5D0} \U{ACF5}\U{BD80}\U{D558}\U{B294} \U{D3B8}\U{C785}\U{B2C8}\U{B2E4}.")),
    Submission("2021112021", "\U{CD5C}\U{B3D9}\U{D604}", Answers("6to8", "10to12", "no", "no", "ENTP", "\U{ACBD}\U{C601}\U{D559}\U{ACFC}", "\U{D65C}\U{BC1C}\U{D55C} \U{B300}\U{D654}\U{B97C} \U{C88B}\U{C544}\U{D569}\U{B2C8}\U{B2E4}."))]

  /** The response and flag keys of the listed students in the example
      survey. */
  function AnswerKeys(ids: seq<string>): set<Key> {
    (set sid | sid in ids :: ResponseKey(ExampleSurveyId, sid)) + (set sid | sid in ids :: SubmittedKey(ExampleSurveyId, sid))
  }

  /** The store after the reset's removals and its write of the survey
      list, before the example responses. */
  function ResetStore(store: Storage, ids: seq<string>, surveys: seq<Survey>): Storage {
    (store - AnswerKeys(ids) - {MatchingResultsKey(ExampleSurveyId)} - {MatchingExecutedKey(ExampleSurveyId)})
      [SurveysKey := SurveyList(surveys)]
  }

  /** The stored responses and flags written in order. */
  function WithResponses(store: Storage, rs: seq<Submission>): Storage
    decreases |rs|
  {
    if rs == [] then store
    else
      var r := rs[|rs| - 1];
      WithResponses(store, rs[..|rs| - 1])[ResponseKey(ExampleSurveyId, r.studentId) := Response(r)]
        [SubmittedKey(ExampleSurveyId, r.studentId) := Raw("true")]
  }

  /** The response is stored under its student in the example survey, with
      the submitted flag. */
  predicate StoredResponse(s: Storage, r: Submission) {
    && ResponseKey(ExampleSurveyId, r.studentId) in s
    && s[ResponseKey(ExampleSurveyId, r.studentId)] == Response(r)
    && SubmittedFlag(s, ExampleSurveyId, r.studentId)
  }

  /** `key` is the response or flag key of one of the responses. */
  predicate TouchedBy(key: Key, rs: seq<Submission>) {
    exists k :: 0 <= k < |rs| &&
      (key == ResponseKey(ExampleSurveyId, rs[k].studentId) || key == SubmittedKey(ExampleSurveyId, rs[k].studentId))
  }

  /** Writing responses leaves every other key as it was. */
  lemma {:induction false} WithResponsesFrame(store: Storage, rs: seq<Submission>, key: Key)
    requires !TouchedBy(key, rs)
    ensures key in WithResponses(store, rs) <==> key in store
    ensures key in store ==> WithResponses(store, rs)[key] == store[key]
    decreases |rs|
  {
    if rs != [] {
      var front := rs[..|rs| - 1];
      assert !TouchedBy(key, front) by {
        assert forall k :: 0 <= k < |front| ==> front[k] == rs[k];
      }
      assert key != ResponseKey(ExampleSurveyId, rs[|rs| - 1].studentId);
      WithResponsesFrame(store, front, key);
    }
  }

  /** The reset on the stored values, for any example survey, students
      and responses. */
  method ResetExample(store: Storage, ids: seq<string>, example: Survey, rs: seq<Submission>)
    returns (s: Storage, surveys: seq<Survey>)
    ensures surveys == WithoutId(StoredSurveys(store), ExampleSurveyId) + [example]
    ensures s == WithResponses(ResetStore(store, ids, surveys), rs)
    ensures StoredSurveys(s) == surveys
  {
    var existing := StoredSurveys(store);
    var filtered := WithoutId(existing, ExampleSurveyId);
    s := ClearAnswers(store, ids);
    s := s - {MatchingResultsKey(ExampleSurveyId)};
    s := s - {MatchingExecutedKey(ExampleSurveyId)};
    surveys := filtered + [example];
    s := s[SurveysKey := SurveyList(surveys)];
    var base := s;
    s := StoreResponses(s, rs);
    WithResponsesKeepsSurveys(base, rs);
  }

  /** Writing responses leaves the survey list as it was. */
  lemma WithResponsesKeepsSurveys(store: Storage, rs: seq<Submission>)
    ensures StoredSurveys(WithResponses(store, rs)) == StoredSurveys(store)
  {
    WithResponsesFrame(store, rs, SurveysKey);
  }

  /** With distinct students, each response ends up stored with its flag. */
  lemma {:induction false} WithResponsesStored(store: Storage, rs: seq<Submission>, k: nat)
    requires k < |rs|
    requires forall i, j :: 0 <= i < j < |rs| ==> rs[i].studentId != rs[j].studentId
    ensures StoredResponse(WithResponses(store, rs), rs[k])
    decreases |rs|
  {
    var front := rs[..|rs| - 1];
    if k < |rs| - 1 {
      assert front[k] == rs[k];
      assert forall i, j :: 0 <= i < j < |front| ==> front[i].studentId != front[j].studentId by {
        assert forall i :: 0 <= i < |front| ==> front[i] == rs[i];
      }
      WithResponsesStored(store, front, k);
      assert rs[k].studentId != rs[|rs| - 1].studentId;
    }
  }

  function StudentIdsOf(rs: seq<Submission>): (ids: seq<string>)
    ensures |ids| == |rs| && forall k :: 0 <= k < |rs| ==> ids[k] == rs[k].studentId
  {
    seq(|rs|, k requires 0 <= k < |rs| => rs[k].studentId)
  }

  /** The `forEach` removing each listed student's response and flag. */
  method ClearAnswers(store: Storage, ids: seq<string>) returns (s: Storage)
    ensures s == store - AnswerKeys(ids)
  {
    s := store;
    var i := 0;
    while i < |ids|
      invariant 0 <= i <= |ids|
      invariant s == store - AnswerKeys(ids[..i])
    {
      var sid := ids[i];
      assert AnswerKeys(ids[..i + 1]) == AnswerKeys(ids[..i]) + {ResponseKey(ExampleSurveyId, sid), SubmittedKey(ExampleSurveyId, sid)} by {
        assert ids[..i + 1] == ids[..i] + [sid];
      }
      s := s - {ResponseKey(ExampleSurveyId, sid)};
      s := s - {SubmittedKey(ExampleSurveyId, sid)};
      i := i + 1;
    }
    assert ids[..i] == ids;
  }

  /** The `forEach` storing each response and its flag. */
  method StoreResponses(store: Storage, rs: seq<Submission>) returns (s: Storage)
    ensures s == WithResponses(store, rs)
  {
    s := store;
    var j := 0;
    while j < |rs|
      invariant 0 <= j <= |rs|
      invariant s == WithResponses(store, rs[..j])
    {
      var response := rs[j];
      assert rs[..j + 1][..j] == rs[..j];
      s := s[ResponseKey(ExampleSurveyId, response.studentId) := Response(response)];
      s := s[SubmittedKey(ExampleSurveyId, response.studentId) := Raw("true")];
      j := j + 1;
    }
    assert rs[..j] == rs;
  }

  // ---------------------------------------------------------------------
  // The page

  /** The page's state: the stored data, the survey list shown, and the
      form. */
  class SurveyAdmin {
    var store: Storage
    var surveys: seq<Survey>
    var title: string
    var deadline: string
    var students: seq<SurveyStudent>
    var newId: string
    var newName: string
    var newGender: string

    /** The list shown is the stored list. */
    predicate Valid()
      reads this
    {
      surveys == StoredSurveys(store)
    }

    /** The page opens on the stored list with an empty form. */
    constructor(stored: Storage)
      ensures Valid() && store == stored
      ensures title == "" && deadline == "" && students == []
      ensures newId == "" && newName == "" && newGender == ""
    {
      store := stored;
      surveys := StoredSurveys(stored);
      title, deadline, students := "", "", [];
      newId, newName, newGender := "", "", "";
    }

    /** `handleAddStudent`: the guards of the server-backed page; entries
        have no email. */
    method AddStudentClicked() returns (r: Result<(), SurveyManagement.AddError>)
      modifies this
      ensures var a := SurveyManagement.AddStudent(old(students), old(newId), old(newName), old(newGender), "");
        a.Err? ==> (r == Err(a.error) && students == old(students)
          && newId == old(newId) && newName == old(newName) && newGender == old(newGender))
      ensures var a := SurveyManagement.AddStudent(old(students), old(newId), old(newName), old(newGender), "");
        a.Ok? ==> r == Ok(()) && students == a.value && newId == "" && newName == "" && newGender == ""
      ensures store == old(store) && surveys == old(surveys) && title == old(title) && deadline == old(deadline)
    {
      if newId == "" || newName == "" || newGender == "" {
        return Err(SurveyManagement.MissingFields);
      }
      var duplicate := false;
      var k := 0;
      while k < |students|
        invariant 0 <= k <= |students|
        invariant duplicate <==> exists m :: 0 <= m < k && students[m].id == newId
      {
        if students[k].id == newId {
          duplicate := true;
        }
        k := k + 1;
      }
      if duplicate {
        return Err(SurveyManagement.DuplicateId);
      }
      students := students + [SurveyStudent(newId, newName, newGender, None)];
      newId, newName, newGender := "", "", "";
      return Ok(());
    }

    /** `handleDeleteStudent`, with the user's answer to the confirmation. */
    method DeleteStudentClicked(id: string, confirmed: bool)
      modifies this
      ensures students == if confirmed then SurveyManagement.Remove(old(students), id) else old(students)
      ensures store == old(store) && surveys == old(surveys) && title == old(title) && deadline == old(deadline)
      ensures newId == old(newId) && newName == old(newName) && newGender == old(newGender)
    {
      if confirmed {
        students := SurveyManagement.Remove(students, id);
      }
    }

    /** The checks of save and deploy, and the survey they append. */
    function Checked(status: SurveyStatus): (r: Result<Survey, SaveError>)
      reads this
    {
      if title == "" || deadline == "" then Err(MissingTitleOrDeadline)
      else if students == [] then Err(EmptyRoster)
      else Ok(NewSurvey(surveys, title, students, status))
    }

    /** Appends `status`'s survey to the list and the store, and clears the
        form; a rejected request changes nothing. */
    method Append(status: SurveyStatus) returns (r: Result<Survey, SaveError>)
      requires Valid()
      modifies this
      ensures Valid()
      ensures r == old(Checked(status))
      ensures r.Ok? ==> surveys == old(surveys) + [r.value] && store == old(store)[SurveysKey := SurveyList(surveys)]
      ensures r.Ok? ==> title == "" && deadline == "" && students == []
      ensures r.Err? ==> (surveys == old(surveys) && store == old(store)
        && title == old(title) && deadline == old(deadline) && students == old(students))
      ensures newId == old(newId) && newName == old(newName) && newGender == old(newGender)
    {
      if title == "" || deadline == "" {
        return Err(MissingTitleOrDeadline);
      }
      if |students| == 0 {
        return Err(EmptyRoster);
      }
      var survey := Survey(NextId(surveys), title, status, RosterIds(students), Some(students), Some(SurveyManagement.FixedQuestions));
      surveys := surveys + [survey];
      store := store[SurveysKey := SurveyList(surveys)];
      title, deadline, students := "", "", [];
      return Ok(survey);
    }

    /** `handleSaveSurvey`: an inactive survey. */
    method SaveClicked() returns (r: Result<Survey, SaveError>)
      requires Valid()
      modifies this
      ensures Valid()
      ensures r == old(Checked(Inactive))
      ensures r.Ok? ==> surveys == old(surveys) + [r.value] && title == "" && deadline == "" && students == []
      ensures r.Ok? ==> store == old(store)[SurveysKey := SurveyList(surveys)]
      ensures newId == old(newId) && newName == old(newName) && newGender == old(newGender)
      ensures r.Err? ==> (surveys == old(surveys) && store == old(store)
        && title == old(title) && deadline == old(deadline) && students == old(students))
    {
      r := Append(Inactive);
    }

    /** `handleDeploySurvey`: an active survey, and the link to it. */
    method DeployClicked(origin: string) returns (r: Result<Survey, SaveError>, link: Option<string>)
      requires Valid()
      modifies this
      ensures Valid()
      ensures r == old(Checked(Active))
      ensures r.Ok? ==> surveys == old(surveys) + [r.value] && title == "" && deadline == "" && students == []
      ensures r.Ok? ==> store == old(store)[SurveysKey := SurveyList(surveys)]
      ensures newId == old(newId) && newName == old(newName) && newGender == old(newGender)
      ensures r.Err? ==> (surveys == old(surveys) && store == old(store)
        && title == old(title) && deadline == old(deadline) && students == old(students))
      ensures link.Some? <==> r.Ok?
      ensures r.Ok? ==> link == Some(origin + "/survey/" + IntToString(r.value.id))
    {
      r := Append(Active);
      link := if r.Ok? then Some(origin + "/survey/" + IntToString(r.value.id)) else None;
    }

    /** `handleInitializeExampleData` after the confirmation: the stored
        surveys lose every survey with id 1 and gain the example; the old
        answers and matching results of survey 1 are removed and four
        example responses are stored. */
    method InitializeExampleData(confirmed: bool)
      requires Valid()
      modifies this
      ensures Valid()
      ensures !confirmed ==> store == old(store) && surveys == old(surveys)
      ensures confirmed ==> surveys == WithoutId(StoredSurveys(old(store)), ExampleSurveyId) + [ExampleSurvey]
      ensures confirmed ==> store == WithResponses(ResetStore(old(store), ExampleStudentIds, surveys), ExampleResponses)
      ensures title == old(title) && deadline == old(deadline) && students == old(students)
      ensures newId == old(newId) && newName == old(newName) && newGender == old(newGender)
    {
      if confirmed {
        store, surveys := ResetExample(store, ExampleStudentIds, ExampleSurvey, ExampleResponses);
      }
    }
  }

  /** After the reset exactly one survey has id 1, the example, at the end;
      every other stored survey is kept. */
  lemma ResetLeavesOneExample(stored: seq<Survey>)
    ensures var r := WithoutId(stored, ExampleSurveyId) + [ExampleSurvey];
      && r[|r| - 1] == ExampleSurvey
      && (forall k :: 0 <= k < |r| - 1 ==> r[k].id != ExampleSurveyId)
      && (forall x :: x in stored && x.id != ExampleSurveyId ==> x in r)
      && (DistinctIds(stored) ==> DistinctIds(r))
  {
    var f := WithoutId(stored, ExampleSurveyId);
    var r := f + [ExampleSurvey];
    forall k | 0 <= k < |r| - 1 ensures r[k].id != ExampleSurveyId {
      assert r[k] == f[k] && f[k] in f;
    }
    if DistinctIds(stored) {
      WithoutIdDistinct(stored, ExampleSurveyId);
    }
  }

  /** The reset keeps the other stored surveys in their order: the list it
      puts before the example filters part by part, and without a survey 1
      it is the stored list whole. */
  lemma ResetKeepsOrder(stored: seq<Survey>)
    ensures forall i :: 0 <= i <= |stored| ==>
      WithoutId(stored, ExampleSurveyId) ==
        WithoutId(stored[..i], ExampleSurveyId) + WithoutId(stored[i..], ExampleSurveyId)
    ensures (forall k :: 0 <= k < |stored| ==> stored[k].id != ExampleSurveyId) ==>
      WithoutId(stored, ExampleSurveyId) == stored
  {
    forall i | 0 <= i <= |stored|
      ensures WithoutId(stored, ExampleSurveyId) ==
        WithoutId(stored[..i], ExampleSurveyId) + WithoutId(stored[i..], ExampleSurveyId)
    {
      assert stored == stored[..i] + stored[i..];
      WithoutIdAppend(stored[..i], stored[i..], ExampleSurveyId);
    }
    if forall k :: 0 <= k < |stored| ==> stored[k].id != ExampleSurveyId {
      WithoutAbsentId(stored, ExampleSurveyId);
    }
  }

  lemma {:induction false} WithoutIdDistinct(surveys: seq<Survey>, id: int)
    requires DistinctIds(surveys)
    ensures DistinctIds(WithoutId(surveys, id))
    decreases |surveys|
  {
    if surveys != [] {
      var rest := WithoutId(surveys[1..], id);
      WithoutIdDistinct(surveys[1..], id);
      if surveys[0].id != id {
        forall x | x in rest ensures x.id != surveys[0].id {
          var k :| 0 <= k < |surveys[1..]| && surveys[1..][k] == x;
          assert surveys[k + 1] == x;
        }
        var r := [surveys[0]] + rest;
        forall k, l | 0 <= k < l < |r| ensures r[k].id != r[l].id {
          if k == 0 {
            assert r[l] in rest;
          } else {
            assert r[k] == rest[k - 1] && r[l] == rest[l - 1];
          }
        }
      }
    }
  }

  /** The four example responses are from four different students. */
  lemma ExampleResponsesDistinct()
    ensures forall i, j :: 0 <= i < j < |ExampleResponses| ==> ExampleResponses[i].studentId != ExampleResponses[j].studentId
  {
  }

  /** After the reset each example response is stored with its flag. */
  lemma ExampleResponseStored(store: Storage, k: nat)
    requires k < |ExampleResponses|
    ensures StoredResponse(WithResponses(store, ExampleResponses), ExampleResponses[k])
  {
    ExampleResponsesDistinct();
    WithResponsesStored(store, ExampleResponses, k);
  }

  /** The fifth example student has no stored response or flag after the
      reset, whatever was stored before. */
  lemma FifthStudentUnanswered(store: Storage, surveys: seq<Survey>)
    ensures var s := WithResponses(ResetStore(store, ExampleStudentIds, surveys), ExampleResponses);
      ResponseKey(ExampleSurveyId, ExampleStudentIds[4]) !in s && !SubmittedFlag(s, ExampleSurveyId, ExampleStudentIds[4])
  {
    var sid := ExampleStudentIds[4];
    var base := ResetStore(store, ExampleStudentIds, surveys);
    assert forall k :: 0 <= k < |ExampleResponses| ==> ExampleResponses[k].studentId != sid;
    assert sid in ExampleStudentIds;
    assert ResponseKey(ExampleSurveyId, sid) in AnswerKeys(ExampleStudentIds);
    assert SubmittedKey(ExampleSurveyId, sid) in AnswerKeys(ExampleStudentIds);
    WithResponsesFrame(base, ExampleResponses, ResponseKey(ExampleSurveyId, sid));
    WithResponsesFrame(base, ExampleResponses, SubmittedKey(ExampleSurveyId, sid));
  }
}
