# Roommate-matching survey front end, modelled in Dafny

The repository is a React front end for a dormitory roommate-matching tool.
An administrator builds a survey:

- they type or import the student roster from a spreadsheet;
- they save or deploy the survey and hand out its link.

Each student opens the link, proves who they are against the roster, and
answers the lifestyle questions once. The administrator then runs a greedy
matcher over the responses, edits the proposed rooms by drag and drop, and
reads the results table with its summary cards.

The code exists in two versions:

- the `fe/` tree talks to a server;
- the `src/` tree keeps everything in the browser's `localStorage`.

The modules for the `src/` pages carry a `Local` prefix.

This project models the logic inside those pages and components and proves
what it promises:

- the compatibility score and the greedy pass (`Matching`);
- the room builder and the drag-and-drop room editor (`RoomEditor`);
- the spreadsheet row parser (`ExcelParser`);
- the two pagers (`Pagination`, `LocalPagination`);
- the score bands of the two results tables (`ResultsTable`, `LocalResultsTable`);
- roster editing and the survey payload (`SurveyManagement`, `LocalSurveyManagement`);
- the student verification and submission state machine (`SurveyPage`, `LocalSurveyPage`);
- the results pages (`ResultsPage`, `LocalResultsPage`);
- the API client's error table (`ApiErrors`).

Shared modules:

- `Wrappers`: `Option` and `Result`.
- `Text`: the JavaScript string operations the pages use (`includes`,
  `trim`, `toLowerCase`, `padStart`, `parseInt`, `String(n)`).
- `Surveys`: the survey records.

They sit under the `Store` module, which models `localStorage` as a map from
structured keys (`"surveys"`, `survey_<id>_<student>`,
`survey_submitted_<id>_<student>`, `matchingResults_<id>`,
`matchingExecuted_<id>`) to decoded values. A stored value that does not
decode to the shape a page expects is `Unreadable`, and the pages then treat
it as absent, as their `try`/`catch` blocks do.

The form of each part follows the source:

- Loops become methods with invariants, each proved equal to a specification
  function:
  - the greedy pass and its inner scan;
  - `createRoomsFromStudents`;
  - `findColumnIndex` and the row loop;
  - `getPageNumbers`;
  - the field building;
  - the example-data `forEach` loops.
- Pages whose handlers update state become classes. Their fields are the
  page state and their methods are the handlers:
  - `SurveyForm` and `SurveyAdmin`;
  - `StudentForm` and `LocalStudentForm`;
  - `RoomBoard`;
  - `ResultsView` and `LocalResultsView`.
- Pure mappings and filters stay functions.

Things the pages compute from outside sources are parameters:

- the `confirm` answer;
- the server's reply to a create request;
- whether the deadline has passed;
- `window.location.origin`;
- the random scores of the room editor.

The server-backed pages' data sources are stubs that return empty lists.
The matching page's survey list and responses are therefore parameters of
`HandleRunMatching`. The results page states outright that it never shows a
row.

Two properties deserve a mention:

- A survey stored with student ids only gives a roster whose names are all
  empty. Verification needs a non-empty name, so no student of such a survey
  can ever verify (`LocalSurveyPage.IdOnlyRosterNeverMatches`).
- The spreadsheet merge compares new ids only with the existing roster,
  never within the imported batch. Two rows of one sheet with the same id
  are both added (`SurveyManagement.ImportKeepsBatchDuplicates`).

## Model

| member | source | states |
|---|---|---|
| Matching.Score | fe/src/pages/Matching.tsx:117-129 | the weighted exact-match score (25, 25, 20, 15, and 15 for a shared non-empty MBTI) lies in 0..100 |
| Matching.ScoreSymmetric | fe/src/pages/Matching.tsx:117-129 | the score of two responses does not depend on their order |
| Matching.ScoreExtremes | fe/src/pages/Matching.tsx:117-129 | 100 exactly when all four answers and a non-empty MBTI agree; at most 85 without a shared MBTI |
| Matching.BestUnique | fe/src/pages/Matching.tsx:111-135 | the partner the strict `>` scan settles on is unique |
| Matching.BestPartner | fe/src/pages/Matching.tsx:111-135 | the chosen partner is a later unused student with a positive score that no candidate beats, the first such on ties; none when there is no such student |
| Matching.FindBestMatch | fe/src/pages/Matching.tsx:111-135 | the inner loop returns exactly that best partner, with its score, and score 0 when there is none |
| Matching.GreedyFrom | fe/src/pages/Matching.tsx:108-148 | every recorded pair has its first student before its second, both at or after the current turn |
| Matching.GreedyScores | fe/src/pages/Matching.tsx:137-147 | every recorded pair scores at least 50 and both its students were unused on that turn |
| Matching.GreedyDisjoint | fe/src/pages/Matching.tsx:106-109 | no student index appears in two recorded pairs, and no pair reuses an id already used |
| Matching.UnpairedStaysUnpaired | fe/src/pages/Matching.tsx:108-148 | a student left unpaired on its own turn (used, no partner, or a best score under 50) appears in no later pair |
| Matching.GreedyCount | fe/src/pages/Matching.tsx:106-148 | twice the number of pairs recorded from a turn on is at most the number of students still unused |
| Matching.GreedyHalf | fe/src/pages/Matching.tsx:106-148 | the pass records at most half as many pairs as there are responses |
| Matching.RenderedDisjoint | fe/src/pages/Matching.tsx:138-146 | no student id appears in two output pairs |
| Matching.GreedyRendered | fe/src/pages/Matching.tsx:138-144 | every output pair carries the two students' names and ids and a score in 50..100 |
| Matching.RunGreedy | fe/src/pages/Matching.tsx:99-148 | the nested loops output exactly the specified greedy pairs, each scoring 50..100, at most half as many as the responses |
| Matching.HandleRunMatching | fe/src/pages/Matching.tsx:63-148 | no selection, an unknown survey, fewer than 2 roster students and fewer than 2 responses are each rejected exactly when they apply, in that order; otherwise the greedy pairs |
| Matching.ActiveSurveys | fe/src/pages/Matching.tsx:165-166 | exactly the active surveys are kept |
| Matching.ActiveSurveysAppend | fe/src/pages/Matching.tsx:165-166 | the active surveys keep the list's order: filtering two lists joined is filtering each |
| Matching.RoundedPercent | fe/src/pages/Matching.tsx:178 | `Math.round((completed / total) * 100)` on exact rationals (half rounds up), within 0..100 when completed <= total |
| Matching.SurveyStats | fe/src/pages/Matching.tsx:169-181 | zeros for an unknown survey; otherwise the roster size (students, else ids), the response count, and the rounded rate, 0 for an empty roster |
| Matching.StatsPredictRun | fe/src/pages/Matching.tsx:169-185 | the card shows at least two students and two responses exactly when the survey is selected, found, with two students and two responses (the run's checks); with no more responses than students the rate is 0..100 |
| RoomEditor.LabelsDisjoint | fe/src/components/Matching/StudentMatchingPopup.tsx:66-82 | no label is both a male and a female label |
| RoomEditor.Pick | fe/src/components/Matching/StudentMatchingPopup.tsx:66-82 | a gender list holds only students relabelled with that gender, no more than the roster |
| RoomEditor.PickAppend | fe/src/components/Matching/StudentMatchingPopup.tsx:66-82 | picking is a filter: it distributes over concatenation, so roster order is kept |
| RoomEditor.PickMembers | fe/src/components/Matching/StudentMatchingPopup.tsx:66-82 | the male list holds exactly the entries labelled "남" or "M", the female list those labelled "여" or "F" |
| RoomEditor.Unrecognised | fe/src/components/Matching/StudentMatchingPopup.tsx:66-82 | the count of entries with neither label is at most the roster size |
| RoomEditor.PickPartition | fe/src/components/Matching/StudentMatchingPopup.tsx:66-82 | each entry lands in exactly one list or is dropped as unrecognised |
| RoomEditor.RoomScore | fe/src/components/Matching/StudentMatchingPopup.tsx:93-95 | a full room scores the floor of the two scores' mean, a half-empty one its student's score |
| RoomEditor.CreateRooms | fe/src/components/Matching/StudentMatchingPopup.tsx:85-99 | the loop builds ceil(n/2) rooms, room m holding students 2m and 2m+1 (the last one alone for odd n), named `<prefix>-Room-<m+1>` |
| RoomEditor.ChunkShape | fe/src/components/Matching/StudentMatchingPopup.tsx:87-96 | every built room has two slots with the first taken; only the last room of an odd list has an empty second slot |
| RoomEditor.ChunkOccupants | fe/src/components/Matching/StudentMatchingPopup.tsx:85-99 | the rooms seat every student exactly once, in list order |
| RoomEditor.RoomIdsDistinct | fe/src/components/Matching/StudentMatchingPopup.tsx:91 | room ids carry the gender prefix and are pairwise distinct |
| RoomEditor.FindRoom | fe/src/components/Matching/StudentMatchingPopup.tsx:129-130 | the first room with the id, or -1 exactly when none has it |
| RoomEditor.Reorder | fe/src/components/Matching/StudentMatchingPopup.tsx:142-148 | within one room the dragged student takes the target slot and the other occupant the other slot |
| RoomEditor.SpliceReorder | fe/src/components/Matching/StudentMatchingPopup.tsx:143-145 | removing and reinserting with `splice` is that reorder, for any destination index |
| RoomEditor.SpliceOverwrite | fe/src/components/Matching/StudentMatchingPopup.tsx:152-168 | a one-for-one `splice` overwrites that slot |
| RoomEditor.DropShape | fe/src/components/Matching/StudentMatchingPopup.tsx:128-206 | a drop keeps every room's id, score and two slots, changes no room but the source and destination, and puts the dragged student in the target slot |
| RoomEditor.DropConserves | fe/src/components/Matching/StudentMatchingPopup.tsx:142-202 | a drop neither loses nor duplicates a student (the multiset of seated students is unchanged) |
| RoomEditor.Drop | fe/src/components/Matching/StudentMatchingPopup.tsx:128-206 | the handler body on one gender's rooms computes the specified drop and keeps two slots and the seated multiset |
| RoomEditor.RoomBoard.Load | fe/src/components/Matching/StudentMatchingPopup.tsx:62-108 | rooms built from the two gender lists with "M"/"F" prefixes, or the supplied mock rooms for an empty roster; for a non-empty roster the loaded male and female students are exactly the picked lists |
| RoomEditor.RoomBoard.OnDragEnd | fe/src/components/Matching/StudentMatchingPopup.tsx:110-207 | no destination or a cross-gender drop changes nothing; otherwise only the source gender's rooms take the drop; every room keeps two slots and each gender keeps exactly its loaded students |
| RoomEditor.RoomBoard.Saved | fe/src/components/Matching/StudentMatchingPopup.tsx:209-212 | the saved occupants are the male rooms' then the female rooms'; after any drops they are exactly the students loaded |
| RoomEditor.SaveOccupants | fe/src/components/Matching/StudentMatchingPopup.tsx:210 | the saved list seats exactly the students of the two lists |
| ExcelParser.FirstMatch | fe/src/utils/excelParser.ts:110-120 | the smallest header index containing some keyword, or -1 exactly when none does |
| ExcelParser.FindColumnIndex | fe/src/utils/excelParser.ts:110-120 | the nested loop with early return computes that index |
| ExcelParser.NormalizeHeaderIdempotent | fe/src/utils/excelParser.ts:44 | a normalised header has no outer whitespace and no capitals, and normalising it again changes nothing |
| ExcelParser.NormalizeHeadersIdempotent | fe/src/utils/excelParser.ts:44 | normalising a normalised header row changes nothing |
| ExcelParser.LocateColumns | fe/src/utils/excelParser.ts:44-55 | the normalised headers and the four searches; none when id, name or gender is missing |
| ExcelParser.FindColumnsIff | fe/src/utils/excelParser.ts:47-55 | the columns are found exactly when each of the id, name and gender keyword lists matches a header |
| ExcelParser.NormalizeGenderCases | fe/src/utils/excelParser.ts:72-78 | 'M' exactly for labels containing "남" or equal to m/male ignoring case; 'F' exactly for the remaining ones containing "여" or equal to f/female; otherwise unchanged |
| ExcelParser.NormalizeGenderIdempotent | fe/src/utils/excelParser.ts:72-78 | normalising twice is normalising once |
| ExcelParser.RowStudentTrimmed | fe/src/utils/excelParser.ts:62-78 | a parsed student has a trimmed id, name and email, not id and name both empty, and a gender that normalising again leaves unchanged |
| ExcelParser.ParseRow | fe/src/utils/excelParser.ts:60-85 | one pass of the row loop yields exactly that row's student |
| ExcelParser.ParseRows | fe/src/utils/excelParser.ts:58-86 | the loop yields the students of the data rows in row order |
| ExcelParser.FilterMapLength | fe/src/utils/excelParser.ts:58-86 | at most one student per row |
| ExcelParser.StudentsFromRows | fe/src/utils/excelParser.ts:58-86 | every parsed student comes from a non-blank data row, and every non-blank row yields one |
| ExcelParser.ParseSheet | fe/src/utils/excelParser.ts:38-93 | the body of the reader callback after decoding computes the specified parse |
| ExcelParser.ParseOutcome | fe/src/utils/excelParser.ts:38-91 | fewer than 2 rows, missing required columns and no students are the three errors, each exactly when it applies; a success has between 1 student and one per data row |
| Pagination.PushRange | fe/src/components/common/Pagination.tsx:21-46 | each `for` loop appends exactly that run |
| Pagination.GetPageNumbers | fe/src/components/common/Pagination.tsx:15-53 | every page up to ten pages; otherwise [1..7, ..., t], [1, ..., t-6..t] or [1, ..., c-2..c+2, ..., t] by the current page |
| Pagination.WindowLength | fe/src/components/common/Pagination.tsx:15-53 | nine entries past ten pages, one per page otherwise |
| Pagination.WindowIncreasing | fe/src/components/common/Pagination.tsx:15-53 | the page buttons start at 1, end at the last page and strictly increase |
| Pagination.WindowGaps | fe/src/components/common/Pagination.tsx:15-53 | no ellipsis up to ten pages; neighbouring buttons are consecutive pages, and an ellipsis stands between buttons more than one page apart |
| Pagination.WindowShowsCurrent | fe/src/components/common/Pagination.tsx:15-77 | a current page in range has exactly one button |
| Pagination.ButtonsStayInRange | fe/src/components/common/Pagination.tsx:59-90 | prev is disabled exactly on page 1 and next exactly on the last page; an enabled button leads to a page in range |
| Pagination.DefaultPager | fe/src/components/common/Pagination.tsx:9-90 | with no props there is one page button and both buttons are disabled |
| LocalPagination.ButtonsArePages | src/components/common/Pagination.tsx:23-32 | the buttons are pages 1..t in order, each active exactly when it is the current page |
| LocalPagination.OneActive | src/components/common/Pagination.tsx:26 | some button is active exactly when 1 <= current <= t, and then only one |
| LocalPagination.ArrowsLeaveRange | src/components/common/Pagination.tsx:15-36 | the previous arrow targets a numbered page exactly for current pages 2..total+1 and the next arrow exactly for 0..total-1; elsewhere they call back with a page outside 1..total |
| LocalPagination.DefaultButtons | src/components/common/Pagination.tsx:9-39 | the default pager shows pages 1-3 with 1 active, and previous asks for page 0 |
| ResultsTable.ScoreClass | fe/src/components/Results/ResultsTable.tsx:29-35 | "zero" exactly for 0; otherwise high for >= 90, medium for 80..89, low for 50..79, very-low below 50 (negatives included) |
| ResultsTable.ScoreClassMonotone | fe/src/components/Results/ResultsTable.tsx:29-35 | among positive scores a higher score never gets a worse band |
| ResultsTable.ZeroSetApart | fe/src/components/Results/ResultsTable.tsx:30-34 | 0 is "zero" while -1 and 1 are "very-low" |
| ResultsTable.EmailOnlyShown | fe/src/components/Results/ResultsTable.tsx:54-84 | a member's email never changes whether the cell shows the member nor the "name (id)" label; an absent member shows the placeholder |
| ResultsTable.RowsAppend | fe/src/components/Results/ResultsTable.tsx:49-95 | one row per result in order: the rows of two lists joined are the rows of each |
| ResultsTable.MatchedPairBand | fe/src/components/Results/ResultsTable.tsx:29-35 | a score of 50..100, the matcher's range, is high, medium or low |
| ResultsTable.RowsOfMatches | fe/src/components/Results/ResultsTable.tsx:29-95 | results scored 50..100 render only in the high, medium or low band |
| LocalResultsTable.ScoreClass | src/components/Results/ResultsTable.tsx:21-25 | high for >= 90, medium for 80..89, low for everything below 80, 0 included |
| LocalResultsTable.ScoreClassMonotone | src/components/Results/ResultsTable.tsx:21-25 | a higher score never gets a worse band |
| LocalResultsTable.AgreesWithFiveBands | src/components/Results/ResultsTable.tsx:21-25 | the two versions agree from 80 up; below 80 this one merges zero, low and very-low |
| LocalResultsTable.RowsAppend | src/components/Results/ResultsTable.tsx:40-61 | one row per result in order: the rows of two lists joined are the rows of each |
| SurveyManagement.ToSurveyFacts | fe/src/pages/SurveyManagement.tsx:22-63 | status active exactly for "published"; roster ids and students from the participants in order; question ids 1..n with multiple-choice kept; a decimal form id (else id) reads back as the survey number |
| SurveyManagement.HexFormId | fe/src/pages/SurveyManagement.tsx:40 | `parseInt` with no radix reads the form id "0x1A" as survey 26 |
| SurveyManagement.AddStudentKeepsUnique | fe/src/pages/SurveyManagement.tsx:113-139 | missing fields and a duplicate id are the rejections, exactly when they apply; a success appends one student and keeps ids unique |
| SurveyManagement.SurveyForm.AddStudentClicked | fe/src/pages/SurveyManagement.tsx:113-139 | a rejection changes nothing; a success appends the student and clears the four inputs |
| SurveyManagement.RemoveFacts | fe/src/pages/SurveyManagement.tsx:141-145 | delete removes every entry with the id and keeps every other in its order (a split roster filters part by part; an absent id changes nothing), keeping ids unique |
| SurveyManagement.KeepAppend | fe/src/pages/SurveyManagement.tsx:141-145 | filtering keeps order: filtering two lists joined is filtering each |
| SurveyManagement.SurveyForm.DeleteStudentClicked | fe/src/pages/SurveyManagement.tsx:141-145 | delete happens only when confirmed |
| SurveyManagement.LastIndexOf | fe/src/pages/SurveyManagement.tsx:184 | the last position of the character, or -1 exactly when absent |
| SurveyManagement.ExtensionIsSuffix | fe/src/pages/SurveyManagement.tsx:182-187 | the extension is ".xlsx" (or ".xls") exactly when the lower-cased name ends with it |
| SurveyManagement.IsSpreadsheetIff | fe/src/pages/SurveyManagement.tsx:182-190 | a file is accepted exactly when its lower-cased name ends in ".xlsx" or ".xls" |
| SurveyManagement.ImportFacts | fe/src/pages/SurveyManagement.tsx:173-228 | a successful import keeps the roster as a prefix, adds only new ids, adds every parsed student with a new id, and reports the parsed count |
| SurveyManagement.ImportKeepsBatchDuplicates | fe/src/pages/SurveyManagement.tsx:217-220 | two sheet rows with one id are both added, leaving the ids not unique |
| SurveyManagement.SurveyForm.FileChosen | fe/src/pages/SurveyManagement.tsx:173-247 | wrong extension, a failed parse and nothing new leave the roster unchanged; otherwise the merge |
| SurveyManagement.DeadlineISOFacts | fe/src/pages/SurveyManagement.tsx:259-263 | the deadline sent (on deploy too, by the same code at lines 359-362) contains "T", starts with the text entered, is unchanged when already containing "T", and suffixing twice is suffixing once |
| SurveyManagement.ParticipantsRoundTrip | fe/src/pages/SurveyManagement.tsx:266-271 | a roster sent as participants and listed back by the server gives the same students in order, without emails, and the same ids |
| SurveyManagement.BuildField | fe/src/pages/SurveyManagement.tsx:274-302 | the callback builds the specified field (id, title, kind, options by keyword) |
| SurveyManagement.BuildFields | fe/src/pages/SurveyManagement.tsx:274-303 | the map builds one field per question in order |
| SurveyManagement.FieldsFacts | fe/src/pages/SurveyManagement.tsx:274-303 | ids "q1".."qn", distinct; choice fields exactly for multiple-choice questions, and only they carry options |
| SurveyManagement.PicksBedtime | fe/src/pages/SurveyManagement.tsx:290-291 | a text that starts with the bedtime keyword and cannot hold the wakeup keyword gets the bedtime options |
| SurveyManagement.PicksSmoking | fe/src/pages/SurveyManagement.tsx:292-293 | likewise for the smoking keyword |
| SurveyManagement.PicksSleep | fe/src/pages/SurveyManagement.tsx:294-295 | likewise for the sleep-habit keyword |
| SurveyManagement.WakeupOptionsPicked | fe/src/pages/SurveyManagement.tsx:288-289 | the fixed wakeup question gets the four wakeup options |
| SurveyManagement.BedtimeOptionsPicked | fe/src/pages/SurveyManagement.tsx:290-291 | the fixed bedtime question gets the bedtime options |
| SurveyManagement.SmokingOptionsPicked | fe/src/pages/SurveyManagement.tsx:292-293 | the fixed smoking question gets yes/no |
| SurveyManagement.SleepOptionsPicked | fe/src/pages/SurveyManagement.tsx:294-295 | the fixed sleep-habit question gets its three options |
| SurveyManagement.RequestFacts | fe/src/pages/SurveyManagement.tsx:259-312 | the request has the title, a deadline with "T", one participant per roster entry in order, and seven fields with distinct ids |
| SurveyManagement.LinkId | fe/src/pages/SurveyManagement.tsx:423 | the form id when set and non-empty, else the survey id |
| SurveyManagement.SurveyForm.constructor | fe/src/pages/SurveyManagement.tsx:113-139 | the form starts empty |
| SurveyManagement.SurveyForm.Checked | fe/src/pages/SurveyManagement.tsx:249-257 | a payload only with a title, a deadline and a non-empty roster; deploy applies the same guards at lines 337-356 |
| SurveyManagement.SurveyForm.SaveClicked | fe/src/pages/SurveyManagement.tsx:249-329 | the guards, then the request; the form is cleared only when the server created the survey |
| SurveyManagement.SurveyForm.DeployClicked | fe/src/pages/SurveyManagement.tsx:331-436 | the pending, title/deadline, past-deadline and roster guards, then the request; a link `origin/survey/<formId or id>` exactly when the server created the survey, which also clears the form |
| LocalSurveyManagement.MaxId | src/pages/SurveyManagement.tsx:256 | the largest survey id, attained by some survey |
| LocalSurveyManagement.NextId | src/pages/SurveyManagement.tsx:256 | one past the largest id, 1 for an empty list, so larger than every existing id |
| LocalSurveyManagement.NewSurveyKeepsDistinct | src/pages/SurveyManagement.tsx:255-266 | appending a new survey keeps survey ids distinct |
| LocalSurveyManagement.SurveyAdmin.constructor | src/pages/SurveyManagement.tsx:189-195 | the page shows the stored list with an empty form |
| LocalSurveyManagement.SurveyAdmin.AddStudentClicked | src/pages/SurveyManagement.tsx:207-231 | the same guards as the server-backed page; a success appends the student without email and clears the inputs |
| LocalSurveyManagement.SurveyAdmin.DeleteStudentClicked | src/pages/SurveyManagement.tsx:233-237 | delete happens only when confirmed |
| LocalSurveyManagement.SurveyAdmin.Append | src/pages/SurveyManagement.tsx:245-276 | with a title, a deadline and a roster, the new survey is appended to the list and the store and the form is cleared; otherwise nothing changes |
| LocalSurveyManagement.SurveyAdmin.SaveClicked | src/pages/SurveyManagement.tsx:245-276 | save appends an inactive survey to the list and writes the list to the store, clearing the form; a rejected save changes nothing; the add-student inputs are untouched |
| LocalSurveyManagement.SurveyAdmin.DeployClicked | src/pages/SurveyManagement.tsx:278-310 | deploy appends an active survey and writes the list to the store, giving the link `origin/survey/<id>` exactly on success; a rejected deploy changes nothing; the add-student inputs are untouched |
| LocalSurveyManagement.WithoutId | src/pages/SurveyManagement.tsx:69 | exactly the surveys with another id are kept (their order by WithoutIdAppend) |
| LocalSurveyManagement.WithoutIdAppend | src/pages/SurveyManagement.tsx:69 | filtering keeps order: filtering two lists joined is filtering each |
| LocalSurveyManagement.WithoutAbsentId | src/pages/SurveyManagement.tsx:69 | filtering an id no survey has changes nothing |
| LocalSurveyManagement.ClearAnswers | src/pages/SurveyManagement.tsx:79-82 | the loop removes exactly the listed students' response and flag keys |
| LocalSurveyManagement.StoreResponses | src/pages/SurveyManagement.tsx:169-178 | the loop writes each response and its flag in order |
| LocalSurveyManagement.WithResponsesFrame | src/pages/SurveyManagement.tsx:169-178 | writing responses leaves every other key as it was |
| LocalSurveyManagement.WithResponsesKeepsSurveys | src/pages/SurveyManagement.tsx:169-182 | writing responses leaves the survey list as it was, so the refresh reads the list just written |
| LocalSurveyManagement.WithResponsesStored | src/pages/SurveyManagement.tsx:169-178 | with distinct students every response ends up stored with its flag |
| LocalSurveyManagement.ResetExample | src/pages/SurveyManagement.tsx:65-182 | the survey list loses every id-1 survey and gains the example at the end; the answers and matching keys are removed, then the responses written |
| LocalSurveyManagement.SurveyAdmin.InitializeExampleData | src/pages/SurveyManagement.tsx:56-187 | nothing without confirmation; otherwise the reset, with the page showing the stored list |
| LocalSurveyManagement.ResetLeavesOneExample | src/pages/SurveyManagement.tsx:69-112 | after the reset exactly one survey has id 1, the example, at the end; every other survey is kept and ids stay distinct |
| LocalSurveyManagement.ResetKeepsOrder | src/pages/SurveyManagement.tsx:69-112 | the reset keeps the other surveys in their stored order: the list it puts before the example filters part by part, and with no survey 1 it is the stored list whole |
| LocalSurveyManagement.WithoutIdDistinct | src/pages/SurveyManagement.tsx:69 | filtering keeps ids distinct |
| LocalSurveyManagement.ExampleResponsesDistinct | src/pages/SurveyManagement.tsx:117-166 | the four example responses are from four different students |
| LocalSurveyManagement.ExampleResponseStored | src/pages/SurveyManagement.tsx:169-178 | after the reset each example response is stored with its flag |
| LocalSurveyManagement.FifthStudentUnanswered | src/pages/SurveyManagement.tsx:72-178 | the fifth example student has no response or flag after the reset, whatever was stored before |
| Surveys.FindSurvey | src/pages/Survey.tsx:26 | the first survey with the id, none exactly when no survey has it |
| Surveys.WithAnswerOnlyChanges | src/pages/Survey.tsx:144-150 | an answer change sets its own field and no other |
| SurveyPage.SurveyNumberOfLink | fe/src/pages/Survey.tsx:27-28 | the route parameter of a survey link reads back as that survey's id |
| SurveyPage.SubmitCheckIff | fe/src/pages/Survey.tsx:79-103 | a submit passes exactly when verified, not submitted, the four required answers given and a survey id present; mbti, major and notes never matter |
| SurveyPage.StudentForm.constructor | fe/src/pages/Survey.tsx:27-44 | the page starts unverified and unsubmitted with empty fields |
| SurveyPage.StudentForm.StudentIdChanged | fe/src/pages/Survey.tsx:128-133 | a new id resets verified and submitted |
| SurveyPage.StudentForm.StudentNameChanged | fe/src/pages/Survey.tsx:134-138 | a new name resets verified and submitted |
| SurveyPage.StudentForm.AnswerChanged | fe/src/pages/Survey.tsx:120-126 | only the answer changes |
| SurveyPage.StudentForm.Verify | fe/src/pages/Survey.tsx:54-76 | an error for an empty id or name or a missing survey id; otherwise always verified |
| SurveyPage.StudentForm.Submit | fe/src/pages/Survey.tsx:78-118 | the guards in order; a success turns the page submitted, so a repeat is rejected |
| LocalSurveyPage.RosterFacts | src/pages/Survey.tsx:21-39 | the roster is the listed students' ids and names, else the ids with empty names, and empty for an unknown survey |
| LocalSurveyPage.IdOnlyRosterNeverMatches | src/pages/Survey.tsx:30-33 | no student with a non-empty name matches an id-only roster |
| LocalSurveyPage.SubmittedFacts | src/pages/Survey.tsx:137-138 | the two writes store the response and set the flag, and change no survey and no other flag |
| LocalSurveyPage.LocalStudentForm.constructor | src/pages/Survey.tsx:42-59 | the page starts unverified and unsubmitted over the stored data |
| LocalSurveyPage.LocalStudentForm.CheckSubmitted | src/pages/Survey.tsx:61-68 | the effect marks the page submitted when the stored flag is set |
| LocalSurveyPage.LocalStudentForm.StudentIdChanged | src/pages/Survey.tsx:152-156 | a new id resets verified and submitted, then submitted follows the new id's stored flag |
| LocalSurveyPage.LocalStudentForm.StudentNameChanged | src/pages/Survey.tsx:158-162 | a new name resets verified and submitted |
| LocalSurveyPage.LocalStudentForm.AnswerChanged | src/pages/Survey.tsx:144-150 | only the answer changes |
| LocalSurveyPage.LocalStudentForm.Verify | src/pages/Survey.tsx:70-100 | an error for an empty id or name or no survey id; otherwise verified exactly when the roster has that id and name, and then submitted when the stored flag is set |
| LocalSurveyPage.LocalStudentForm.Submit | src/pages/Survey.tsx:102-142 | the guards in order; a success stores the response and the flag and turns the page submitted, and happens only when no flag was stored |
| ResultsPage.SelectionFromQuery | fe/src/pages/Results.tsx:66-73 | selected exactly when `parseInt` reads a number, with that number |
| ResultsPage.SelectionOfRedirect | fe/src/pages/Matching.tsx:160 | the redirect after a match selects that survey |
| ResultsPage.SummaryOf | fe/src/pages/Results.tsx:99-105 | 2·count students, count pairs, rate 100 when there are rows and 0 otherwise, unmatched 0 |
| ResultsPage.WholeIsHundred | fe/src/pages/Results.tsx:101-104 | all of a positive amount rounds to 100 percent |
| ResultsPage.ResultsView.constructor | fe/src/pages/Results.tsx:61-84 | the selection comes from the query parameter and no row is shown |
| ResultsPage.ResultsView.SelectionChanged | fe/src/pages/Results.tsx:77-84 | the new selection, with still no row |
| ResultsPage.ResultsView.Cards | fe/src/pages/Results.tsx:99-105 | the cards are all zero, since both data sources are empty |
| LocalResultsPage.WithResults | src/pages/Results.tsx:47-52 | exactly the surveys with a stored result, no more than the list |
| LocalResultsPage.WithResultsAppend | src/pages/Results.tsx:47-52 | the filter keeps the list order |
| LocalResultsPage.WithResultsAll | src/pages/Results.tsx:47-52 | when every survey has results, all are listed |
| LocalResultsPage.RoomNumber | src/pages/Results.tsx:67 | room numbers start with "A" and have at least four characters |
| LocalResultsPage.RoomNumberDigits | src/pages/Results.tsx:67 | "A" then k + 1 zero-padded to three digits |
| LocalResultsPage.RoomNumberInjective | src/pages/Results.tsx:67 | no two rooms share a number |
| LocalResultsPage.MatchResultsFacts | src/pages/Results.tsx:59-75 | none without a readable stored result; otherwise one row per pair with id k + 1, members "<id> <name>", the pair's score, and distinct ids and room numbers |
| LocalResultsPage.ShownRowsDistinct | src/pages/Results.tsx:59-75 | the table of stored results shows every room number once and every edit button with its own id |
| LocalResultsPage.LocalResultsView.constructor | src/pages/Results.tsx:78-101 | the surveys with results, the selection from the query parameter, and that survey's rows |
| LocalResultsPage.LocalResultsView.SelectionChanged | src/pages/Results.tsx:94-101 | the rows follow the selection, none without one |
| LocalResultsPage.LocalResultsView.Cards | src/pages/Results.tsx:116-122 | twice the rows are matched and each row is a pair; 100 percent exactly when there are rows |
| ApiErrors.FallbackMessage | src/api/config/axios.ts:53 | the server message if non-empty, else the error's own, else the default text |
| ApiErrors.Override | src/api/config/axios.ts:58-80 | the interceptor overrides exactly 401, 403, 404 and every status from 500 up |
| ApiErrors.ErrorForTable | src/api/config/axios.ts:52-80 | the status table: fixed code and message for 401/403/404/>=500, the server's code and the fallback message otherwise; the status is always copied and the message is never empty |
| ApiErrors.Intercept | src/api/config/axios.ts:50-85 | the four sequential status rules compute the table |
| ApiErrors.Normalize | src/api/config/axios.ts:95-111 | data exactly on success, an error exactly on failure |
| ApiErrors.NormalizeFacts | src/api/config/axios.ts:95-132 | success passes the data; the interceptor's error passes unchanged; anything else is UNKNOWN_ERROR with no status |
| ApiErrors.FailedRequest | src/api/config/axios.ts:50-111 | a server failure reaches the caller as exactly the interceptor's error, with the table's code |
| Text.ContainsIff | fe/src/utils/excelParser.ts:114 | `includes` is the substring relation |
| Text.TrimIdempotent | fe/src/utils/excelParser.ts:62-64 | trimming leaves no whitespace at either end and is idempotent |
| Text.ToLowerIdempotent | fe/src/utils/excelParser.ts:44 | lower-casing leaves no capitals, keeps whitespace where it was and is idempotent |
| Text.NatToStringInjective | src/pages/Results.tsx:67 | distinct numbers render differently |
| Text.PadStart | src/pages/Results.tsx:67 | `padStart`: fill characters in front up to the width, then the string |
| Text.PadStartNatInjective | src/pages/Results.tsx:67 | zero-padded positive numbers stay distinct |
| Text.NotParsedIsZero | fe/src/pages/SurveyManagement.tsx:40 | where `parseInt` gives NaN the model reads 0, as `\|\| 0` and the falsy checks do |
| Text.ParseNumberOfNat | fe/src/pages/SurveyManagement.tsx:40 | a rendered natural number has no hex prefix and `parseInt` with no radix reads it back |
| Text.HexReading | fe/src/pages/SurveyManagement.tsx:40 | "0x1A" is hex-prefixed and reads as 26 with no radix, but as 0 in base ten |
| Text.ParseIntOfNat | src/pages/Survey.tsx:43 | a rendered natural number is parsed back |
| Text.ParseIntOfInt | src/pages/Survey.tsx:43 | any rendered integer parses, and back to itself |

## Left out

- Randomness: `Math.random` room scores are the `scores` parameter of `RoomEditor.RoomBoard.Load`.
- `generateMockRooms` is random: the mock rooms of an empty roster are parameters.
- The unreachable branch of `StudentMatchingPopup.tsx:178-189` is not modelled. It needs a destination room with fewer than two slots, and every room keeps two.
- Negative drag indexes are not modelled; locations carry natural indexes.
- Spreadsheet decoding (`FileReader`, `XLSX`) is left out; the parser starts from the decoded row matrix, with every cell read as text.
- The empty-parse alert of `fe/src/pages/SurveyManagement.tsx:198-201` is not modelled: the parser already rejects an empty result.
- Dates and clocks are left out: creation dates, deadlines as dates, `submittedAt`, and the past-deadline check, which is a parameter of `DeployClicked`.
- Floating point is left out. `Math.round` of a percentage is computed exactly on rationals, half rounding up. In floating point the page can show one less: 23 responses of 40 give `(23 / 40) * 100` = 57.49999999999999, which the page rounds to 57 and `Matching.RoundedPercent` to 58.
- Lower-casing maps ASCII capitals only. The keywords compared against are ASCII or Hangul, which JavaScript's full Unicode mapping cannot produce from other characters.
- Trimming removes exactly ECMAScript's WhiteSpace and LineTerminator characters: TAB, VT, FF, SP, NBSP, ZWNBSP, the Zs category, LF, CR, LS and PS. The Zs set is that of current Unicode.
- Reading integers is exact: the floating-point rounding `parseInt` applies to very long digit strings is not modelled.
- `parseInt` with no radix (`fe/src/pages/SurveyManagement.tsx:40`) is modelled with its "0x"/"0X" hexadecimal reading (`Text.ParseNumberOr0`). It does not model the legacy octal reading, which ECMAScript no longer allows. The other call sites pass radix 10.
- JSON encoding of `localStorage` is left out. Values are decoded; anything the page would fail to parse is `Unreadable`.
- Network calls, authentication, the axios instance and the request interceptor's token are left out. API replies are parameters.
- React hooks and effects are modelled as method calls in the order React runs them; re-render timing is not modelled.
- `alert`, the clipboard, `setTimeout` and `window.location` are left out; `confirm` answers and the origin are parameters.
- The server-backed pages' data sources are stubs returning empty lists. The matching page's list and responses are parameters; the results page always shows nothing.
- The `boolean` field type of the request is never produced by the code and is not modelled.
- Alert-only handlers are not modelled: `handleEditSurvey`, `handleDeleteSurvey`, `handleUploadExcel`, `handleEditMatch`, `handleDownloadResults`, `handleSaveMatching`.
- An `Error` instance that also has an `error` property is not modelled: it would pass through like the interceptor's object.
- The identical `get`, `post`, `put`, `delete` and `patch` wrappers are one function, `ApiErrors.Normalize`.
- Room members' optional email is a string, with the empty string standing for a missing one.
- The request and response type files under `fe/src/types/` are not modelled beyond the records the pages use.
