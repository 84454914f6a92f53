/** The survey management page (fe/src/pages/SurveyManagement.tsx): the
    survey list read from the server, the roster form with its add, delete
    and spreadsheet-import handlers, and the survey payload built on save and
    deploy. */
module SurveyManagement {
  import opened Wrappers
  import opened Text
  import opened Surveys
  import ExcelParser

  // ---------------------------------------------------------------------
  // The survey list

  datatype ServerParticipant = ServerParticipant(studentId: string, name: string, gender: string)

  datatype ServerField = ServerField(id: string, title: string, fieldType: string)

  /** A survey as the server lists it; the extra fields may be absent. */
  datatype ServerSurvey = ServerSurvey(
    id: string,
    formId: Option<string>,
    title: string,
    status: string,
    participants: Option<seq<ServerParticipant>>,
    fields: Option<seq<ServerField>>)

  /** The page's view of a listed survey: the form id when set, else the
      id, read by `parseInt` with no radix (so a "0x" id is hexadecimal);
      "published" is shown as active; the participants
      give the roster and the fields the questions, numbered from 1. */
  function ToSurvey(s: ServerSurvey): Survey {
    var surveyId := if s.formId.Some? && s.formId.value != "" then s.formId.value else s.id;
    var ps := s.participants.GetOr([]);
    var fs := s.fields.GetOr([]);
    Survey(
      ParseNumberOr0(surveyId),
      s.title,
      if s.status == "published" then Active else Inactive,
      seq(|ps|, k requires 0 <= k < |ps| => ps[k].studentId),
      Some(seq(|ps|, k requires 0 <= k < |ps| => SurveyStudent(ps[k].studentId, ps[k].name, ps[k].gender, None))),
      Some(seq(|fs|, k requires 0 <= k < |fs| =>
        Question(k + 1, fs[k].title, if fs[k].fieldType == "multiple-choice" then MultipleChoice else TextInput))))
  }

  /** What the list shows of a listed survey. */
  lemma ToSurveyFacts(s: ServerSurvey)
    ensures var v := ToSurvey(s);
      && (v.status == Active <==> s.status == "published")
      && v.students.Some? && v.questions.Some?
      && |v.studentIds| == |v.students.value| == |s.participants.GetOr([])|
      && (forall k :: 0 <= k < |v.studentIds| ==>
            v.studentIds[k] == v.students.value[k].id == s.participants.GetOr([])[k].studentId)
      && |v.questions.value| == |s.fields.GetOr([])|
      && (forall k :: 0 <= k < |v.questions.value| ==> v.questions.value[k].id == k + 1)
      && (forall k :: 0 <= k < |v.questions.value| ==>
            (v.questions.value[k].kind == MultipleChoice <==> s.fields.GetOr([])[k].fieldType == "multiple-choice"))
    ensures forall k: nat :: s.formId == Some(NatToString(k)) ==> ToSurvey(s).id == k
    ensures forall k: nat :: (s.formId.None? || s.formId == Some("")) && s.id == NatToString(k) ==> ToSurvey(s).id == k
  {
    forall k: nat | s.formId == Some(NatToString(k)) ensures ToSurvey(s).id == k {
      ParseNumberOfNat(k);
    }
    forall k: nat | (s.formId.None? || s.formId == Some("")) && s.id == NatToString(k)
      ensures ToSurvey(s).id == k
    {
      ParseNumberOfNat(k);
    }
  }

  /** Without a radix `parseInt` reads a "0x" form id in base sixteen. */
  lemma HexFormId(s: ServerSurvey)
    requires s.formId == Some("0x1A")
    ensures ToSurvey(s).id == 26
  {
    HexReading("0x1A");
  }

  // ---------------------------------------------------------------------
  // Roster operations

  /** Some roster entry has this id. */
  predicate HasId(roster: seq<SurveyStudent>, id: string) {
    exists k :: 0 <= k < |roster| && roster[k].id == id
  }

  /** No two roster entries share an id. */
  predicate UniqueIds(roster: seq<SurveyStudent>) {
    forall k, l :: 0 <= k < l < |roster| ==> roster[k].id != roster[l].id
  }

  /** `value || undefined` for an optional text input. */
  function NonEmpty(s: string): (r: Option<string>)
    ensures r.None? <==> s == ""
    ensures r.Some? ==> r.value == s
  {
    if s == "" then None else Some(s)
  }

  datatype AddError = MissingFields | DuplicateId

  /** `handleAddStudent` on the roster: id, name and gender are required and
      the id must be new; the student is appended. */
  function AddStudent(roster: seq<SurveyStudent>, id: string, name: string, gender: string, email: string)
    : Result<seq<SurveyStudent>, AddError>
  {
    if id == "" || name == "" || gender == "" then Err(MissingFields)
    else if HasId(roster, id) then Err(DuplicateId)
    else Ok(roster + [SurveyStudent(id, name, gender, NonEmpty(email))])
  }

  /** Adding keeps the ids unique, and a rejected add is exactly a missing
      field or an id already on the roster. */
  lemma AddStudentKeepsUnique(roster: seq<SurveyStudent>, id: string, name: string, gender: string, email: string)
    requires UniqueIds(roster)
    ensures var r := AddStudent(roster, id, name, gender, email);
      && (r.Ok? ==> UniqueIds(r.value) && |r.value| == |roster| + 1 && HasId(r.value, id))
      && (r == Err(MissingFields) <==> id == "" || name == "" || gender == "")
      && (r == Err(DuplicateId) <==> id != "" && name != "" && gender != "" && HasId(roster, id))
  {
    var r := AddStudent(roster, id, name, gender, email);
    if r.Ok? {
      assert r.value[|roster|].id == id;
    }
  }

  /** The entries of `s` that `keep` accepts, in order. */
  function Keep(s: seq<SurveyStudent>, keep: SurveyStudent -> bool): (r: seq<SurveyStudent>)
    ensures |r| <= |s|
    ensures forall x :: x in r <==> x in s && keep(x)
    decreases |s|
  {
    if s == [] then []
    else (if keep(s[0]) then [s[0]] else []) + Keep(s[1..], keep)
  }

  /** `roster.filter((s) => s.id !== id)`. */
  function Remove(roster: seq<SurveyStudent>, id: string): seq<SurveyStudent> {
    Keep(roster, (s: SurveyStudent) => s.id != id)
  }

  /** Keeping entries of a list with unique ids leaves the ids unique. */
  lemma {:induction false} KeepUnique(s: seq<SurveyStudent>, keep: SurveyStudent -> bool)
    requires UniqueIds(s)
    ensures UniqueIds(Keep(s, keep))
    decreases |s|
  {
    if s != [] {
      var rest := Keep(s[1..], keep);
      KeepUnique(s[1..], keep);
      if keep(s[0]) {
        forall x | x in rest ensures x.id != s[0].id {
          var k :| 0 <= k < |s[1..]| && s[1..][k] == x;
          assert s[k + 1] == x;
        }
        var r := [s[0]] + rest;
        forall k, l | 0 <= k < l < |r| ensures r[k].id != r[l].id {
          if k == 0 {
            assert r[l] in rest;
          } else {
            assert r[k] == rest[k - 1] && r[l] == rest[l - 1];
          }
        }
      }
    }
  }

  /** Removing an id leaves none of its entries and every other entry, and
      keeps the ids unique. */
  lemma RemoveFacts(roster: seq<SurveyStudent>, id: string)
    ensures !HasId(Remove(roster, id), id)
    ensures forall x :: x in Remove(roster, id) <==> x in roster && x.id != id
    ensures UniqueIds(roster) ==> UniqueIds(Remove(roster, id))
    ensures !HasId(roster, id) ==> Remove(roster, id) == roster
    ensures forall i :: 0 <= i <= |roster| ==>
      Remove(roster, id) == Remove(roster[..i], id) + Remove(roster[i..], id)
  {
    var r := Remove(roster, id);
    forall k | 0 <= k < |r| ensures r[k].id != id {
      assert r[k] in r;
    }
    if UniqueIds(roster) {
      KeepUnique(roster, (s: SurveyStudent) => s.id != id);
    }
    if !HasId(roster, id) {
      KeepAll(roster, (s: SurveyStudent) => s.id != id);
    }
    forall i | 0 <= i <= |roster|
      ensures Remove(roster, id) == Remove(roster[..i], id) + Remove(roster[i..], id)
    {
      assert roster == roster[..i] + roster[i..];
      KeepAppend(roster[..i], roster[i..], (s: SurveyStudent) => s.id != id);
    }
  }

  /** Keeping is done entry by entry, in order: keeping from two lists
      joined is keeping from each and joining the results. */
  lemma {:induction false} KeepAppend(a: seq<SurveyStudent>, b: seq<SurveyStudent>, keep: SurveyStudent -> bool)
    ensures Keep(a + b, keep) == Keep(a, keep) + Keep(b, keep)
    decreases |a|
  {
    if a == [] {
      assert a + b == b;
    } else {
      assert (a + b)[0] == a[0];
      assert (a + b)[1..] == a[1..] + b;
      KeepAppend(a[1..], b, keep);
    }
  }

  /** Keeping what `keep` accepts of a list it accepts entirely changes
      nothing. */
  lemma {:induction false} KeepAll(s: seq<SurveyStudent>, keep: SurveyStudent -> bool)
    requires forall k :: 0 <= k < |s| ==> keep(s[k])
    ensures Keep(s, keep) == s
    decreases |s|
  {
    if s != [] {
      assert keep(s[0]);
      assert forall k :: 0 <= k < |s[1..]| ==> s[1..][k] == s[k + 1];
      KeepAll(s[1..], keep);
      assert [s[0]] + s[1..] == s;
    }
  }

  // ---------------------------------------------------------------------
  // Spreadsheet import

  /** `s.lastIndexOf(c)`: the last position of `c`, or -1. */
  function LastIndexOf(s: string, c: char): (r: int)
    ensures -1 <= r < |s|
    ensures r == -1 <==> c !in s
    ensures r >= 0 ==> s[r] == c && forall k :: r < k < |s| ==> s[k] != c
    decreases |s|
  {
    if s == [] then -1
    else if s[|s| - 1] == c then |s| - 1
    else
      var r := LastIndexOf(s[..|s| - 1], c);
      assert forall k :: 0 <= k < |s| - 1 ==> s[k] == s[..|s| - 1][k];
      r
  }

  /** `name.substring(name.lastIndexOf(".")).toLowerCase()`: with no '.' the
      substring starts at 0 and is the whole name. */
  function Extension(name: string): string {
    var i := LastIndexOf(name, '.');
    ToLower(name[if i < 0 then 0 else i..])
  }

  /** The two extensions the page accepts. */
  predicate IsSpreadsheet(name: string) {
    Extension(name) == ".xlsx" || Extension(name) == ".xls"
  }

  /** Lower-casing commutes with taking a suffix. */
  lemma ToLowerSuffix(s: string, i: nat)
    requires i <= |s|
    ensures ToLower(s[i..]) == ToLower(s)[i..]
  {
  }

  /** For either accepted extension, the extension check matches a suffix
      test ignoring case: the extension has no second '.', so the last '.'
      of a name with that suffix starts the suffix. */
  lemma ExtensionIsSuffix(name: string, ext: string)
    requires ext == ".xlsx" || ext == ".xls"
    ensures Extension(name) == ext <==> EndsWith(ToLower(name), ext)
  {
    var lower := ToLower(name);
    var i := LastIndexOf(name, '.');
    if EndsWith(lower, ext) {
      var j := |name| - |ext|;
      assert lower[j] == ext[0] == '.';
      LowerCharDot(name[j]);
      forall k | j < k < |name| ensures name[k] != '.' {
        assert lower[k] == ext[k - j] != '.';
        LowerCharDot(name[k]);
      }
      assert i == j;
      ToLowerSuffix(name, i);
    }
    if Extension(name) == ext && i >= 0 {
      ToLowerSuffix(name, i);
    }
  }

  /** A name is accepted exactly when, ignoring case, it ends in ".xlsx" or
      ".xls". */
  lemma IsSpreadsheetIff(name: string)
    ensures IsSpreadsheet(name) <==> EndsWith(ToLower(name), ".xlsx") || EndsWith(ToLower(name), ".xls")
  {
    ExtensionIsSuffix(name, ".xlsx");
    ExtensionIsSuffix(name, ".xls");
  }

  /** The stored label of an imported gender: 'M' is "남", 'F' is "여". */
  function ImportGender(g: string): string {
    if g == "M" then "\U{B0A8}" else if g == "F" then "\U{C5EC}" else g
  }

  function FromParsed(p: ExcelParser.ParsedStudent): SurveyStudent {
    SurveyStudent(p.id, p.name, ImportGender(p.gender), if p.email.Some? && p.email.value != "" then p.email else None)
  }

  function FromParsedAll(ps: seq<ExcelParser.ParsedStudent>): (r: seq<SurveyStudent>)
    ensures |r| == |ps| && forall k :: 0 <= k < |ps| ==> r[k] == FromParsed(ps[k])
  {
    seq(|ps|, k requires 0 <= k < |ps| => FromParsed(ps[k]))
  }

  /** The imported students whose id is not yet on the roster. */
  function NewStudents(roster: seq<SurveyStudent>, imported: seq<SurveyStudent>): seq<SurveyStudent> {
    Keep(imported, (s: SurveyStudent) => !HasId(roster, s.id))
  }

  datatype ImportError = WrongExtension | ParseFailed(e: ExcelParser.ParseError) | AllPresent

  /** `handleFileChange` after the file is decoded: the extension check, the
      parse, and the merge; on success the number found and the new roster. */
  function Import(roster: seq<SurveyStudent>, fileName: string, sheet: seq<seq<string>>)
    : Result<(nat, seq<SurveyStudent>), ImportError>
  {
    if !IsSpreadsheet(fileName) then Err(WrongExtension)
    else match ExcelParser.Parse(sheet)
      case Err(e) => Err(ParseFailed(e))
      case Ok(ps) =>
        var added := NewStudents(roster, FromParsedAll(ps));
        if added == [] then Err(AllPresent) else Ok((|ps|, roster + added))
  }

  /** A successful import keeps the roster as its prefix, adds only students
      whose id was not on it, and adds every parsed student whose id was not
      on it. */
  lemma ImportFacts(roster: seq<SurveyStudent>, fileName: string, sheet: seq<seq<string>>)
    ensures var r := Import(roster, fileName, sheet);
      r.Ok? ==>
        && IsSpreadsheet(fileName) && ExcelParser.Parse(sheet).Ok?
        && |r.value.1| > |roster| && r.value.1[..|roster|] == roster
        && (forall k :: |roster| <= k < |r.value.1| ==> !HasId(roster, r.value.1[k].id))
        && (forall p :: p in ExcelParser.Parse(sheet).value && !HasId(roster, p.id) ==> FromParsed(p) in r.value.1)
        && r.value.0 == |ExcelParser.Parse(sheet).value|
  {
    var r := Import(roster, fileName, sheet);
    if r.Ok? {
      var ps := ExcelParser.Parse(sheet).value;
      var added := NewStudents(roster, FromParsedAll(ps));
      assert r.value.1 == roster + added;
      forall k | |roster| <= k < |r.value.1| ensures !HasId(roster, r.value.1[k].id) {
        assert r.value.1[k] == added[k - |roster|];
        assert r.value.1[k] in added;
      }
      forall p | p in ps && !HasId(roster, p.id) ensures FromParsed(p) in r.value.1 {
        var k :| 0 <= k < |ps| && ps[k] == p;
        assert FromParsedAll(ps)[k] == FromParsed(p);
        assert FromParsed(p) in added;
      }
    }
  }

  /** The merge checks ids against the roster only: two rows of one sheet
      with the same id are both added. */
  lemma ImportKeepsBatchDuplicates()
    ensures var ps := [ExcelParser.ParsedStudent("1", "a", "M", None), ExcelParser.ParsedStudent("1", "b", "F", None)];
      var added := NewStudents([], FromParsedAll(ps));
      |added| == 2 && added[0].id == added[1].id && !UniqueIds(added)
  {
    var ps := [ExcelParser.ParsedStudent("1", "a", "M", None), ExcelParser.ParsedStudent("1", "b", "F", None)];
    var all := FromParsedAll(ps);
    KeepAll(all, (s: SurveyStudent) => !HasId([], s.id));
  }

  // ---------------------------------------------------------------------
  // The survey payload

  /** A date-only deadline gets the end of that day. */
  function DeadlineISO(d: string): string {
    if Contains(d, "T") then d else d + "T23:59:59"
  }

  /** The deadline sent always has a time part, keeps the entered text as its
      prefix, and suffixing twice changes nothing. */
  lemma DeadlineISOFacts(d: string)
    ensures Contains(DeadlineISO(d), "T")
    ensures StartsWith(DeadlineISO(d), d)
    ensures DeadlineISO(DeadlineISO(d)) == DeadlineISO(d)
    ensures Contains(d, "T") ==> DeadlineISO(d) == d
  {
    var r := DeadlineISO(d);
    if !Contains(d, "T") {
      assert OccursAt(r, "T", |d|);
      ContainsAt(r, "T", |d|);
    }
    assert r[..|d|] == d;
  }

  datatype Participant = Participant(studentId: string, name: string, gender: string, email: Option<string>)

  function ToParticipants(roster: seq<SurveyStudent>): (r: seq<Participant>)
    ensures |r| == |roster|
    ensures forall k :: 0 <= k < |r| ==> r[k].studentId == roster[k].id && r[k].name == roster[k].name
    ensures forall k :: 0 <= k < |r| ==> r[k].gender == roster[k].gender && r[k].email == roster[k].email
  {
    seq(|roster|, k requires 0 <= k < |roster| =>
      Participant(roster[k].id, roster[k].name, roster[k].gender, roster[k].email))
  }

  /** What the server lists of a participant it was sent. */
  function AsListed(p: Participant): ServerParticipant {
    ServerParticipant(p.studentId, p.name, p.gender)
  }

  /** A roster sent as participants and listed back by the server comes back
      with the same students in the same order, less their emails, which the
      list does not carry. */
  lemma ParticipantsRoundTrip(roster: seq<SurveyStudent>, s: ServerSurvey)
    requires var ps := ToParticipants(roster);
      s.participants == Some(seq(|ps|, k requires 0 <= k < |ps| => AsListed(ps[k])))
    ensures ToSurvey(s).students ==
      Some(seq(|roster|, k requires 0 <= k < |roster| => roster[k].(email := None)))
    ensures ToSurvey(s).studentIds == seq(|roster|, k requires 0 <= k < |roster| => roster[k].id)
  {
    var ps := s.participants.GetOr([]);
    var got := seq(|ps|, k requires 0 <= k < |ps| => SurveyStudent(ps[k].studentId, ps[k].name, ps[k].gender, None));
    var want := seq(|roster|, k requires 0 <= k < |roster| => roster[k].(email := None));
    assert ToSurvey(s).students == Some(got);
    assert |got| == |want|;
    forall k | 0 <= k < |got| ensures got[k] == want[k] {
      assert ps[k] == AsListed(ToParticipants(roster)[k]);
    }
    assert got == want;
  }

  datatype FieldKind = ChoiceField | TextField

  datatype Field = Field(id: string, title: string, kind: FieldKind, options: Option<seq<string>>)

  const WakeupOptions: seq<string> := ["6\U{C2DC} \U{C774}\U{C804}", "6\U{C2DC}-8\U{C2DC}", "8\U{C2DC}-10\U{C2DC}", "10\U{C2DC} \U{C774}\U{D6C4}"]
  const BedtimeOptions: seq<string> := ["22\U{C2DC} \U{C774}\U{C804}", "22\U{C2DC}-24\U{C2DC}", "24\U{C2DC} \U{C774}\U{D6C4}"]
  const SmokingOptions: seq<string> := ["\U{C608}", "\U{C544}\U{B2C8}\U{C624}"]
  const SleepOptions: seq<string> := ["\U{CF54}\U{ACE8}\U{C774}", "\U{C774}\U{AC08}\U{C774}", "\U{C5C6}\U{C74C}"]
  const DefaultOptions: seq<string> := ["\U{C120}\U{D0DD}\U{C9C0}1", "\U{C120}\U{D0DD}\U{C9C0}2", "\U{C120}\U{D0DD}\U{C9C0}3", "\U{AE30}\U{D0C0}"]

  /** The keywords that pick a question's options: 기상 시간, 취침 시간,
      흡연, 수면 습관. */
  const WakeupKey: string := "\U{AE30}\U{C0C1} \U{C2DC}\U{AC04}"
  const BedtimeKey: string := "\U{CDE8}\U{CE68} \U{C2DC}\U{AC04}"
  const SmokingKey: string := "\U{D761}\U{C5F0}"
  const SleepKey: string := "\U{C218}\U{BA74} \U{C2B5}\U{AD00}"

  /** The options of a multiple-choice question, by the first keyword its
      text contains. */
  function OptionsFor(text: string): seq<string> {
    if Contains(text, WakeupKey) then WakeupOptions
    else if Contains(text, BedtimeKey) then BedtimeOptions
    else if Contains(text, SmokingKey) then SmokingOptions
    else if Contains(text, SleepKey) then SleepOptions
    else DefaultOptions
  }

  /** The field sent for question `q` at 0-based position `index`. */
  function FieldOf(q: Question, index: nat): Field {
    Field("q" + NatToString(index + 1), q.text,
      if q.kind == MultipleChoice then ChoiceField else TextField,
      if q.kind == MultipleChoice then Some(OptionsFor(q.text)) else None)
  }

  /** The body of the `fixedQuestions.map` callback: the field is built,
      then its options are set for a multiple-choice question. */
  method BuildField(q: Question, index: nat) returns (field: Field)
    ensures field == FieldOf(q, index)
  {
    field := Field("q" + NatToString(index + 1), q.text,
      if q.kind == MultipleChoice then ChoiceField else TextField, None);
    if q.kind == MultipleChoice {
      if Contains(q.text, WakeupKey) {
        field := field.(options := Some(WakeupOptions));
      } else if Contains(q.text, BedtimeKey) {
        field := field.(options := Some(BedtimeOptions));
      } else if Contains(q.text, SmokingKey) {
        field := field.(options := Some(SmokingOptions));
      } else if Contains(q.text, SleepKey) {
        field := field.(options := Some(SleepOptions));
      } else {
        field := field.(options := Some(DefaultOptions));
      }
    }
  }

  function Fields(qs: seq<Question>): seq<Field> {
    seq(|qs|, k requires 0 <= k < |qs| => FieldOf(qs[k], k))
  }

  /** One more question at the end of the list. */
  lemma FieldsSnoc(qs: seq<Question>, k: nat)
    requires k < |qs|
    ensures Fields(qs[..k + 1]) == Fields(qs[..k]) + [FieldOf(qs[k], k)]
  {
    assert qs[..k + 1][k] == qs[k];
  }

  /** `fixedQuestions.map(...)`: one field per question, in order. */
  method BuildFields(qs: seq<Question>) returns (fields: seq<Field>)
    ensures fields == Fields(qs)
  {
    fields := [];
    var k := 0;
    while k < |qs|
      invariant 0 <= k <= |qs|
      invariant fields == Fields(qs[..k])
    {
      var field := BuildField(qs[k], k);
      FieldsSnoc(qs, k);
      fields := fields + [field];
      k := k + 1;
    }
    assert qs[..k] == qs;
  }

  /** The fields are numbered "q1", "q2", ... with distinct ids; exactly the
      multiple-choice questions become choice fields, and only they carry
      options. */
  lemma FieldsFacts(qs: seq<Question>)
    ensures var fs := Fields(qs);
      && |fs| == |qs|
      && (forall k :: 0 <= k < |fs| ==> fs[k].id == "q" + NatToString(k + 1) && fs[k].title == qs[k].text)
      && (forall k, l :: 0 <= k < l < |fs| ==> fs[k].id != fs[l].id)
      && (forall k :: 0 <= k < |fs| ==>
            (fs[k].kind == ChoiceField <==> qs[k].kind == MultipleChoice)
            && (fs[k].options.Some? <==> fs[k].kind == ChoiceField))
  {
    var fs := Fields(qs);
    forall k, l | 0 <= k < l < |fs| ensures fs[k].id != fs[l].id {
      if fs[k].id == fs[l].id {
        assert NatToString(k + 1) == fs[k].id[1..] == fs[l].id[1..] == NatToString(l + 1);
        NatToStringInjective(k + 1, l + 1);
      }
    }
  }

  /** The request body of a save or deploy. */
  datatype CreateSurveyRequest = CreateSurveyRequest(
    title: string,
    deadline: string,
    participants: seq<Participant>,
    fields: seq<Field>)

  /** The texts of the seven fixed questions. */
  const WakeupText: string := "\U{AE30}\U{C0C1} \U{C2DC}\U{AC04}\U{C740} \U{C5B8}\U{C81C}\U{C778}\U{AC00}\U{C694}?"
  const BedtimeText: string := "\U{CDE8}\U{CE68} \U{C2DC}\U{AC04}\U{C740} \U{C5B8}\U{C81C}\U{C778}\U{AC00}\U{C694}?"
  const SmokingText: string := "\U{D761}\U{C5F0} \U{C5EC}\U{BD80}"
  const SleepText: string := "\U{C218}\U{BA74} \U{C2B5}\U{AD00} (\U{CF54}\U{ACE8}\U{C774}, \U{C774}\U{AC08}\U{C774} \U{B4F1})"
  const MbtiText: string := "MBTI"
  const MajorText: string := "\U{C804}\U{ACF5}"
  const RequestsText: string := "\U{D2B9}\U{C774}\U{C0AC}\U{D56D} \U{B610}\U{B294} \U{C694}\U{CCAD}\U{C0AC}\U{D56D}"

  /** The seven fixed questions of every survey. */
  const FixedQuestions: seq<Question> := [
    Question(1, WakeupText, MultipleChoice),
    Question(2, BedtimeText, MultipleChoice),
    Question(3, SmokingText, MultipleChoice),
    Question(4, SleepText, MultipleChoice),
    Question(5, MbtiText, TextInput),
    Question(6, MajorText, TextInput),
    Question(7, RequestsText, TextInput)]

  /** The option lists a question text gets from the keyword it starts
      with, when no earlier keyword's first letter occurs in it. */
  lemma PicksBedtime(t: string)
    requires WakeupKey[0] !in t && StartsWith(t, BedtimeKey)
    ensures OptionsFor(t) == BedtimeOptions
  {
    NotContainsFirst(t, WakeupKey);
    ContainsAt(t, BedtimeKey, 0);
  }

  lemma PicksSmoking(t: string)
    requires WakeupKey[0] !in t && BedtimeKey[0] !in t && StartsWith(t, SmokingKey)
    ensures OptionsFor(t) == SmokingOptions
  {
    NotContainsFirst(t, WakeupKey);
    NotContainsFirst(t, BedtimeKey);
    ContainsAt(t, SmokingKey, 0);
  }

  lemma PicksSleep(t: string)
    requires WakeupKey[0] !in t && BedtimeKey[0] !in t && SmokingKey[0] !in t && StartsWith(t, SleepKey)
    ensures OptionsFor(t) == SleepOptions
  {
    NotContainsFirst(t, WakeupKey);
    NotContainsFirst(t, BedtimeKey);
    NotContainsFirst(t, SmokingKey);
    ContainsAt(t, SleepKey, 0);
  }

  /** Each fixed multiple-choice question text picks its own option list
      (wake-up, bedtime, smoking, sleep habits), so the default options are
      never sent. */
  lemma WakeupOptionsPicked()
    ensures OptionsFor(WakeupText) == WakeupOptions
  {
    ContainsAt(WakeupText, WakeupKey, 0);
  }

  lemma BedtimeOptionsPicked()
    ensures OptionsFor(BedtimeText) == BedtimeOptions
  {
    PicksBedtime(BedtimeText);
  }

  lemma SmokingOptionsPicked()
    ensures OptionsFor(SmokingText) == SmokingOptions
  {
    PicksSmoking(SmokingText);
  }

  lemma SleepOptionsPicked()
    ensures OptionsFor(SleepText) == SleepOptions
  {
    PicksSleep(SleepText);
  }

  function Request(title: string, deadline: string, roster: seq<SurveyStudent>): CreateSurveyRequest {
    CreateSurveyRequest(title, DeadlineISO(deadline), ToParticipants(roster), Fields(FixedQuestions))
  }

  /** The payload names every roster student once per entry, in order,
      has a deadline with a time part, and seven fields with distinct ids. */
  lemma RequestFacts(title: string, deadline: string, roster: seq<SurveyStudent>)
    ensures var r := Request(title, deadline, roster);
      && r.title == title && Contains(r.deadline, "T")
      && |r.participants| == |roster|
      && (forall k :: 0 <= k < |roster| ==> r.participants[k].studentId == roster[k].id)
      && |r.fields| == 7
      && (forall k, l :: 0 <= k < l < 7 ==> r.fields[k].id != r.fields[l].id)
  {
    DeadlineISOFacts(deadline);
    FieldsFacts(FixedQuestions);
  }

  /** The server's answer to a create request: nothing on failure. */
  datatype Created = Created(id: string, formId: Option<string>)

  /** `formId || id`: the id the survey link names. */
  function LinkId(c: Created): (r: string)
    ensures c.formId.Some? && c.formId.value != "" ==> r == c.formId.value
    ensures c.formId.None? || c.formId == Some("") ==> r == c.id
  {
    c.formId.GetOr("") + (if c.formId.GetOr("") == "" then c.id else "")
  }

  datatype SaveError = Busy | MissingTitleOrDeadline | DeadlinePassed | EmptyRoster | ServerFailed

  // ---------------------------------------------------------------------
  // The form

  /** The page's form state: the survey being written and the add-student
      inputs. */
  class SurveyForm {
    var title: string
    var deadline: string
    var students: seq<SurveyStudent>
    var newId: string
    var newName: string
    var newGender: string
    var newEmail: string

    constructor()
      ensures title == "" && deadline == "" && students == []
      ensures newId == "" && newName == "" && newGender == "" && newEmail == ""
    {
      title, deadline, students := "", "", [];
      newId, newName, newGender, newEmail := "", "", "", "";
    }

    /** `handleAddStudent`: on success the student is appended and the four
        inputs are cleared; on a rejection nothing changes. */
    method AddStudentClicked() returns (r: Result<(), AddError>)
      modifies this
      ensures var a := AddStudent(old(students), old(newId), old(newName), old(newGender), old(newEmail));
        a.Err? ==> r == Err(a.error) && students == old(students)
      ensures var a := AddStudent(old(students), old(newId), old(newName), old(newGender), old(newEmail));
        a.Err? ==> newId == old(newId) && newName == old(newName) && newGender == old(newGender) && newEmail == old(newEmail)
      ensures var a := AddStudent(old(students), old(newId), old(newName), old(newGender), old(newEmail));
        a.Ok? ==> r == Ok(()) && students == a.value
      ensures var a := AddStudent(old(students), old(newId), old(newName), old(newGender), old(newEmail));
        a.Ok? ==> newId == "" && newName == "" && newGender == "" && newEmail == ""
      ensures title == old(title) && deadline == old(deadline)
    {
      if newId == "" || newName == "" || newGender == "" {
        return Err(MissingFields);
      }
      var duplicate := false;
      var k := 0;
      while k < |students|
        invariant 0 <= k <= |students|
        invariant duplicate <==> exists m :: 0 <= m < k && students[m].id == newId
      {
        if students[k].id == newId {
          duplicate := true;
        }
        k := k + 1;
      }
      if duplicate {
        return Err(DuplicateId);
      }
      var student := SurveyStudent(newId, newName, newGender, if newEmail == "" then None else Some(newEmail));
      students := students + [student];
      newId, newName, newGender, newEmail := "", "", "", "";
      return Ok(());
    }

    /** `handleDeleteStudent`, with the user's answer to the confirmation. */
    method DeleteStudentClicked(id: string, confirmed: bool)
      modifies this
      ensures students == if confirmed then Remove(old(students), id) else old(students)
      ensures title == old(title) && deadline == old(deadline)
      ensures newId == old(newId) && newName == old(newName) && newGender == old(newGender) && newEmail == old(newEmail)
    {
      if confirmed {
        students := Remove(students, id);
      }
    }

    /** `handleFileChange` once the chosen file is decoded into `sheet`. */
    method FileChosen(fileName: string, sheet: seq<seq<string>>) returns (r: Result<nat, ImportError>)
      modifies this
      ensures var i := Import(old(students), fileName, sheet);
        && (i.Err? ==> r == Err(i.error) && students == old(students))
        && (i.Ok? ==> r == Ok(i.value.0) && students == i.value.1)
      ensures title == old(title) && deadline == old(deadline)
      ensures newId == old(newId) && newName == old(newName) && newGender == old(newGender) && newEmail == old(newEmail)
    {
      var extension := Extension(fileName);
      if extension != ".xlsx" && extension != ".xls" {
        return Err(WrongExtension);
      }
      var parsed := ExcelParser.ParseSheet(sheet);
      if parsed.Err? {
        return Err(ParseFailed(parsed.error));
      }
      var newStudents := FromParsedAll(parsed.value);
      var unique := NewStudents(students, newStudents);
      if unique == [] {
        return Err(AllPresent);
      }
      students := students + unique;
      return Ok(|parsed.value|);
    }

    /** The checks and payload shared by save and deploy. */
    function Checked(pending: bool, deadlinePassed: bool): (r: Result<CreateSurveyRequest, SaveError>)
      reads this
      ensures r.Ok? ==> title != "" && deadline != "" && students != []
    {
      if pending then Err(Busy)
      else if title == "" || deadline == "" then Err(MissingTitleOrDeadline)
      else if deadlinePassed then Err(DeadlinePassed)
      else if students == [] then Err(EmptyRoster)
      else Ok(Request(title, deadline, students))
    }

    /** `handleSaveSurvey`: the request sent (if the checks pass) and, when the
        server creates the survey, a cleared form. */
    method SaveClicked(created: Option<Created>) returns (sent: Result<CreateSurveyRequest, SaveError>)
      modifies this
      ensures sent == old(Checked(false, false))
      ensures sent.Ok? && created.Some? ==> title == "" && deadline == "" && students == []
      ensures !(sent.Ok? && created.Some?) ==>
        title == old(title) && deadline == old(deadline) && students == old(students)
      ensures newId == old(newId) && newName == old(newName) && newGender == old(newGender) && newEmail == old(newEmail)
    {
      if title == "" || deadline == "" {
        return Err(MissingTitleOrDeadline);
      }
      if |students| == 0 {
        return Err(EmptyRoster);
      }
      var deadlineISO := deadline;
      if !Contains(deadlineISO, "T") {
        deadlineISO := deadline + "T23:59:59";
      }
      var fields := BuildFields(FixedQuestions);
      sent := Ok(CreateSurveyRequest(title, deadlineISO, ToParticipants(students), fields));
      if created.Some? {
        title, deadline, students := "", "", [];
      }
    }

    /** `handleDeploySurvey`: as save, after the pending-request and
        deadline-date checks; on success the link to the survey page. */
    method DeployClicked(pending: bool, deadlinePassed: bool, origin: string, created: Option<Created>)
      returns (sent: Result<CreateSurveyRequest, SaveError>, link: Option<string>)
      modifies this
      ensures sent == old(Checked(pending, deadlinePassed))
      ensures link.Some? <==> sent.Ok? && created.Some?
      ensures link.Some? ==> link.value == origin + "/survey/" + LinkId(created.value)
      ensures link.Some? ==> title == "" && deadline == "" && students == []
      ensures link.None? ==> title == old(title) && deadline == old(deadline) && students == old(students)
      ensures newId == old(newId) && newName == old(newName) && newGender == old(newGender) && newEmail == old(newEmail)
    {
      link := None;
      if pending {
        return Err(Busy), None;
      }
      if title == "" || deadline == "" {
        return Err(MissingTitleOrDeadline), None;
      }
      if deadlinePassed {
        return Err(DeadlinePassed), None;
      }
      if |students| == 0 {
        return Err(EmptyRoster), None;
      }
      var deadlineISO := deadline;
      if !Contains(deadlineISO, "T") {
        deadlineISO := deadline + "T23:59:59";
      }
      var fields := BuildFields(FixedQuestions);
      sent := Ok(CreateSurveyRequest(title, deadlineISO, ToParticipants(students), fields));
      if created.Some? {
        var c := created.value;
        var formId := if c.formId.Some? && c.formId.value != "" then c.formId.value else c.id;
        assert formId == LinkId(c);
        link := Some(origin + "/survey/" + formId);
        title, deadline, students := "", "", [];
      }
    }
  }
}
