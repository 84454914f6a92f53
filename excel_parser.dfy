/** The roster spreadsheet parser (fe/src/utils/excelParser.ts), from the
    decoded sheet onward: the sheet is a list of rows of text cells, the
    first row holds the headers. */
module ExcelParser {
  import opened Wrappers
  import opened Text

  datatype ParsedStudent = ParsedStudent(id: string, name: string, gender: string, email: Option<string>)

  datatype ParseError =
    | NoData          // fewer than two rows
    | MissingColumns  // no id, name or gender column
    | NoStudents      // every data row was blank

  const IdKeywords: seq<string> := ["학번", "student id", "id", "studentid"]
  const NameKeywords: seq<string> := ["이름", "name", "이름"]
  const GenderKeywords: seq<string> := ["성별", "gender", "sex"]
  const EmailKeywords: seq<string> := ["이메일", "email", "e-mail"]

  /** The header text contains one of the keywords. */
  predicate MatchesAny(header: string, keywords: seq<string>) {
    exists k :: 0 <= k < |keywords| && Contains(header, keywords[k])
  }

  /** The first header that contains a keyword, or -1. */
  function FirstMatch(headers: seq<string>, keywords: seq<string>): (r: int)
    ensures -1 <= r < |headers|
    ensures r == -1 <==> forall i :: 0 <= i < |headers| ==> !MatchesAny(headers[i], keywords)
    ensures r >= 0 ==> MatchesAny(headers[r], keywords) && forall i :: 0 <= i < r ==> !MatchesAny(headers[i], keywords)
  {
    if headers == [] then -1
    else if MatchesAny(headers[0], keywords) then 0
    else
      var r := FirstMatch(headers[1..], keywords);
      assert forall i :: 1 <= i < |headers| ==> headers[i] == headers[1..][i - 1];
      if r == -1 then -1 else r + 1
  }

  /** `findColumnIndex`: the nested scan with its early return. */
  method FindColumnIndex(headers: seq<string>, keywords: seq<string>) returns (r: int)
    ensures r == FirstMatch(headers, keywords)
  {
    var i := 0;
    while i < |headers|
      invariant 0 <= i <= |headers|
      invariant forall m :: 0 <= m < i ==> !MatchesAny(headers[m], keywords)
    {
      var header := headers[i];
      var k := 0;
      while k < |keywords|
        invariant 0 <= k <= |keywords|
        invariant forall n :: 0 <= n < k ==> !Contains(header, keywords[n])
      {
        if Contains(header, keywords[k]) {
          return i;
        }
        k := k + 1;
      }
      i := i + 1;
    }
    return -1;
  }

  /** `h.trim().toLowerCase()`. */
  function NormalizeHeader(h: string): string {
    ToLower(Trim(h))
  }

  function NormalizeHeaders(row: seq<string>): (r: seq<string>)
    ensures |r| == |row| && forall i :: 0 <= i < |row| ==> r[i] == NormalizeHeader(row[i])
  {
    seq(|row|, i requires 0 <= i < |row| => NormalizeHeader(row[i]))
  }

  /** A normalised header no longer starts or ends with whitespace and has
      no capital, so normalising it again changes nothing; a header row can
      be normalised any number of times. */
  lemma NormalizeHeaderIdempotent(h: string)
    ensures var n := NormalizeHeader(h);
      && (n != [] ==> !IsWhitespace(n[0]) && !IsWhitespace(n[|n| - 1]))
      && (forall i :: 0 <= i < |n| ==> !('A' <= n[i] <= 'Z'))
      && NormalizeHeader(n) == n
  {
    var t := Trim(h);
    var n := ToLower(t);
    TrimIdempotent(h);
    TrimmedStaysTrimmed(t);
    ToLowerIdempotent(t);
    ToLowerIdempotent(n);
  }

  lemma NormalizeHeadersIdempotent(row: seq<string>)
    ensures NormalizeHeaders(NormalizeHeaders(row)) == NormalizeHeaders(row)
  {
    forall i | 0 <= i < |row| ensures NormalizeHeader(NormalizeHeader(row[i])) == NormalizeHeader(row[i]) {
      NormalizeHeaderIdempotent(row[i]);
    }
  }

  /** `String(row[index] || '').trim()`: a missing cell reads as empty. */
  function Cell(row: seq<string>, index: nat): string {
    Trim(if index < |row| then row[index] else "")
  }

  /** 'M' for a label containing "남" or equal to "m"/"male" ignoring case,
      otherwise 'F' for one containing "여" or equal to "f"/"female",
      otherwise the label itself. */
  function NormalizeGender(g: string): string {
    if Contains(g, "남") || ToLower(g) == "m" || ToLower(g) == "male" then "M"
    else if Contains(g, "여") || ToLower(g) == "f" || ToLower(g) == "female" then "F"
    else g
  }

  /** The male test wins over the female one, and a label that passes
      neither is kept as it is. */
  lemma NormalizeGenderCases(g: string)
    ensures NormalizeGender(g) == "M" <==> Contains(g, "남") || ToLower(g) == "m" || ToLower(g) == "male"
    ensures NormalizeGender(g) == "F" <==>
      !(Contains(g, "남") || ToLower(g) == "m" || ToLower(g) == "male")
      && (Contains(g, "여") || ToLower(g) == "f" || ToLower(g) == "female")
    ensures NormalizeGender(g) != "M" && NormalizeGender(g) != "F" ==> NormalizeGender(g) == g
  {
    assert ToLower("M") == "m";
    assert ToLower("F") == "f";
  }

  /** Normalising an already normalised label changes nothing. */
  lemma NormalizeGenderIdempotent(g: string)
    ensures NormalizeGender(NormalizeGender(g)) == NormalizeGender(g)
  {
    assert ToLower("M") == "m";
    assert ToLower("F") == "f";
    assert !StartsWith("F", "남") && !StartsWith("F"[1..], "남") by {
      assert "F"[..1] == "F" && "F"[1..] == [];
    }
  }

  /** The column positions found in the header row; `email` is -1 when the
      sheet has no email column. */
  datatype Columns = Columns(id: nat, name: nat, gender: nat, email: int)

  /** One data row: skipped when both id and name are empty; otherwise the
      trimmed cells, the normalised gender, and an email exactly when the
      sheet has an email column. */
  function RowStudent(row: seq<string>, c: Columns): (r: Option<ParsedStudent>)
    ensures r.None? <==> Cell(row, c.id) == "" && Cell(row, c.name) == ""
    ensures r.Some? ==>
      && r.value.id == Cell(row, c.id) && r.value.name == Cell(row, c.name)
      && r.value.gender == NormalizeGender(Cell(row, c.gender))
      && (r.value.email.None? <==> c.email < 0)
  {
    var id := Cell(row, c.id);
    var name := Cell(row, c.name);
    var gender := Cell(row, c.gender);
    var email := if c.email >= 0 then Some(Cell(row, c.email)) else None;
    if id == "" && name == "" then None
    else Some(ParsedStudent(id, name, NormalizeGender(gender), email))
  }

  /** The present results of `f` over `rows`, in order. */
  function FilterMap(rows: seq<seq<string>>, f: seq<string> -> Option<ParsedStudent>): seq<ParsedStudent> {
    if rows == [] then []
    else (if f(rows[0]).Some? then [f(rows[0]).value] else []) + FilterMap(rows[1..], f)
  }

  /** The students of the data rows, in row order. */
  function Students(rows: seq<seq<string>>, c: Columns): seq<ParsedStudent> {
    FilterMap(rows, row => RowStudent(row, c))
  }

  /** The columns of a header row, when the three required ones exist. */
  function FindColumns(headerRow: seq<string>): Option<Columns> {
    var headers := NormalizeHeaders(headerRow);
    var idIndex := FirstMatch(headers, IdKeywords);
    var nameIndex := FirstMatch(headers, NameKeywords);
    var genderIndex := FirstMatch(headers, GenderKeywords);
    var emailIndex := FirstMatch(headers, EmailKeywords);
    if idIndex == -1 || nameIndex == -1 || genderIndex == -1 then None
    else Some(Columns(idIndex, nameIndex, genderIndex, emailIndex))
  }

  /** What parsing a decoded sheet yields. */
  function Parse(sheet: seq<seq<string>>): Result<seq<ParsedStudent>, ParseError> {
    if |sheet| < 2 then Err(NoData)
    else match FindColumns(sheet[0])
      case None => Err(MissingColumns)
      case Some(c) =>
        var students := Students(sheet[1..], c);
        if students == [] then Err(NoStudents) else Ok(students)
  }

  /** Header normalisation and the four column searches. */
  method LocateColumns(headerRow: seq<string>) returns (c: Option<Columns>)
    ensures c == FindColumns(headerRow)
  {
    var headers := NormalizeHeaders(headerRow);
    var idIndex := FindColumnIndex(headers, IdKeywords);
    var nameIndex := FindColumnIndex(headers, NameKeywords);
    var genderIndex := FindColumnIndex(headers, GenderKeywords);
    var emailIndex := FindColumnIndex(headers, EmailKeywords);
    if idIndex == -1 || nameIndex == -1 || genderIndex == -1 {
      return None;
    }
    return Some(Columns(idIndex, nameIndex, genderIndex, emailIndex));
  }

  /** One pass of the row loop: the trimmed cells, the blank-row test and
      the gender normalisation. */
  method ParseRow(row: seq<string>, c: Columns) returns (o: Option<ParsedStudent>)
    ensures o == RowStudent(row, c)
  {
    var id := Cell(row, c.id);
    var name := Cell(row, c.name);
    var gender := Cell(row, c.gender);
    var email := if c.email != -1 && c.email >= 0 then Some(Cell(row, c.email)) else None;
    if id == "" && name == "" {
      return None;
    }
    var normalizedGender := gender;
    if Contains(gender, "남") || ToLower(gender) == "m" || ToLower(gender) == "male" {
      normalizedGender := "M";
    } else if Contains(gender, "여") || ToLower(gender) == "f" || ToLower(gender) == "female" {
      normalizedGender := "F";
    }
    return Some(ParsedStudent(id, name, normalizedGender, email));
  }

  /** The row loop: blank rows are skipped, the others pushed in order. */
  method ParseRows(rows: seq<seq<string>>, c: Columns) returns (students: seq<ParsedStudent>)
    ensures students == Students(rows, c)
  {
    students := [];
    var i := 0;
    while i < |rows|
      invariant 0 <= i <= |rows|
      invariant students == Students(rows[..i], c)
    {
      var o := ParseRow(rows[i], c);
      FilterMapSnoc(rows[..i], rows[i], row => RowStudent(row, c));
      assert rows[..i + 1] == rows[..i] + [rows[i]];
      if o.Some? {
        students := students + [o.value];
      }
      i := i + 1;
    }
    assert rows[..i] == rows;
  }

  /** The body of `reader.onload` after decoding. */
  method ParseSheet(sheet: seq<seq<string>>) returns (r: Result<seq<ParsedStudent>, ParseError>)
    ensures r == Parse(sheet)
  {
    if |sheet| < 2 {
      return Err(NoData);
    }
    var columns := LocateColumns(sheet[0]);
    if columns.None? {
      return Err(MissingColumns);
    }
    var students := ParseRows(sheet[1..], columns.value);
    if students == [] {
      return Err(NoStudents);
    }
    return Ok(students);
  }

  // ---------------------------------------------------------------------
  // Properties of the parse

  /** Parsing is row by row: the students of two blocks of rows are those of
      the first block followed by those of the second. */
  lemma {:induction false} FilterMapAppend(a: seq<seq<string>>, b: seq<seq<string>>, f: seq<string> -> Option<ParsedStudent>)
    ensures FilterMap(a + b, f) == FilterMap(a, f) + FilterMap(b, f)
    decreases |a|
  {
    if a == [] {
      assert a + b == b;
    } else {
      var head := if f(a[0]).Some? then [f(a[0]).value] else [];
      assert (a + b)[0] == a[0] && (a + b)[1..] == a[1..] + b;
      FilterMapAppend(a[1..], b, f);
      calc {
        FilterMap(a + b, f);
        head + FilterMap(a[1..] + b, f);
        head + (FilterMap(a[1..], f) + FilterMap(b, f));
        (head + FilterMap(a[1..], f)) + FilterMap(b, f);
      }
    }
  }

  /** At most one result per row. */
  lemma {:induction false} FilterMapLength(rows: seq<seq<string>>, f: seq<string> -> Option<ParsedStudent>)
    ensures |FilterMap(rows, f)| <= |rows|
    decreases |rows|
  {
    if rows != [] {
      FilterMapLength(rows[1..], f);
    }
  }

  /** Every result comes from some row, and every present result of a row is
      kept. */
  lemma {:induction false} FilterMapMembers(rows: seq<seq<string>>, f: seq<string> -> Option<ParsedStudent>)
    ensures forall x :: x in FilterMap(rows, f) ==> exists k :: 0 <= k < |rows| && f(rows[k]) == Some(x)
    ensures forall k :: 0 <= k < |rows| && f(rows[k]).Some? ==> f(rows[k]).value in FilterMap(rows, f)
    decreases |rows|
  {
    if rows != [] {
      FilterMapMembers(rows[1..], f);
      forall x | x in FilterMap(rows, f)
        ensures exists k :: 0 <= k < |rows| && f(rows[k]) == Some(x)
      {
        if f(rows[0]) != Some(x) {
          assert x in FilterMap(rows[1..], f);
          var k :| 0 <= k < |rows[1..]| && f(rows[1..][k]) == Some(x);
          assert rows[k + 1] == rows[1..][k];
        }
      }
      forall k | 0 <= k < |rows| && f(rows[k]).Some?
        ensures f(rows[k]).value in FilterMap(rows, f)
      {
        if k > 0 {
          assert rows[k] == rows[1..][k - 1];
        }
      }
    }
  }

  /** The students of two blocks of rows are those of the first block
      followed by those of the second, so students come out in row order. */
  lemma StudentsAppend(a: seq<seq<string>>, b: seq<seq<string>>, c: Columns)
    ensures Students(a + b, c) == Students(a, c) + Students(b, c)
  {
    FilterMapAppend(a, b, row => RowStudent(row, c));
  }

  /** Appending one row appends that row's result, if any. */
  lemma FilterMapSnoc(rows: seq<seq<string>>, row: seq<string>, f: seq<string> -> Option<ParsedStudent>)
    ensures FilterMap(rows + [row], f) ==
      FilterMap(rows, f) + (if f(row).Some? then [f(row).value] else [])
  {
    FilterMapAppend(rows, [row], f);
    assert [row][1..] == [];
  }

  /** A row's student has a trimmed, not entirely empty id and name. */
  lemma RowStudentTrimmed(row: seq<string>, c: Columns)
    requires RowStudent(row, c).Some?
    ensures var x := RowStudent(row, c).value;
      && (x.id != "" || x.name != "") && x.id == Trim(x.id) && x.name == Trim(x.name)
      && NormalizeGender(x.gender) == x.gender
      && (x.email.Some? ==> x.email.value == Trim(x.email.value))
  {
    TrimIdempotent(if c.id < |row| then row[c.id] else "");
    TrimIdempotent(if c.name < |row| then row[c.name] else "");
    NormalizeGenderIdempotent(Cell(row, c.gender));
    if c.email >= 0 {
      TrimIdempotent(if c.email < |row| then row[c.email] else "");
    }
  }

  /** Every parsed student comes from a data row whose trimmed id or name is
      not empty, its id and name are trimmed, and its email is present exactly
      when there is an email column; every such row yields a student. */
  lemma StudentsFromRows(rows: seq<seq<string>>, c: Columns)
    ensures forall x :: x in Students(rows, c) ==>
      (exists k :: 0 <= k < |rows| && RowStudent(rows[k], c) == Some(x))
      && (x.id != "" || x.name != "")
      && x.id == Trim(x.id) && x.name == Trim(x.name)
      && (x.email.None? <==> c.email < 0)
    ensures forall k :: 0 <= k < |rows| && (Cell(rows[k], c.id) != "" || Cell(rows[k], c.name) != "") ==>
      RowStudent(rows[k], c).Some? && RowStudent(rows[k], c).value in Students(rows, c)
  {
    var f := row => RowStudent(row, c);
    FilterMapMembers(rows, f);
    forall x | x in Students(rows, c)
      ensures (exists k :: 0 <= k < |rows| && RowStudent(rows[k], c) == Some(x))
        && (x.id != "" || x.name != "")
        && x.id == Trim(x.id) && x.name == Trim(x.name)
        && (x.email.None? <==> c.email < 0)
    {
      var k :| 0 <= k < |rows| && f(rows[k]) == Some(x);
      RowStudentTrimmed(rows[k], c);
    }
  }

  /** The outcome of a parse: too short a sheet, a missing required column
      and an all-blank sheet are the errors; a successful parse yields
      between one student and one per data row. */
  lemma ParseOutcome(sheet: seq<seq<string>>)
    ensures Parse(sheet) == Err(NoData) <==> |sheet| < 2
    ensures Parse(sheet) == Err(MissingColumns) <==> |sheet| >= 2 && FindColumns(sheet[0]).None?
    ensures Parse(sheet) == Err(NoStudents) <==>
      |sheet| >= 2 && FindColumns(sheet[0]).Some? && Students(sheet[1..], FindColumns(sheet[0]).value) == []
    ensures Parse(sheet).Ok? ==> 1 <= |Parse(sheet).value| <= |sheet| - 1
  {
    if |sheet| >= 2 && FindColumns(sheet[0]).Some? {
      FilterMapLength(sheet[1..], row => RowStudent(row, FindColumns(sheet[0]).value));
    }
  }

  /** The required columns are found exactly when each of the id, name and
      gender keyword lists matches some normalised header. */
  lemma FindColumnsIff(headerRow: seq<string>)
    ensures FindColumns(headerRow).Some? <==>
      var headers := NormalizeHeaders(headerRow);
      (exists i :: 0 <= i < |headers| && MatchesAny(headers[i], IdKeywords))
      && (exists i :: 0 <= i < |headers| && MatchesAny(headers[i], NameKeywords))
      && (exists i :: 0 <= i < |headers| && MatchesAny(headers[i], GenderKeywords))
  {
  }
}
