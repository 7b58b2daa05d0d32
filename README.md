# Hostel attendance app — a Dafny model of its core logic

The hostel app has a Flask backend and a React Native front end. The backend
keeps a list of students and a list of attendance rows. Each row holds one
student's day: an entry time and status, and an exit time and status.

This project models:

- **The backend's list operations.** The administrator login check, adding,
  editing and deleting students, the student login lookup, and a student's own
  logs. The two JSON files become one in-memory store, a class whose fields are
  the two lists.
- **The attendance-log pipeline, in the four screens that each build it.**
  Every row is expanded into an entry event and/or an exit event. The events
  are sorted most recent first. Then each screen narrows them its own way:
  - the administrator's log browser filters by UTC date, type and search text;
  - the dashboard keeps today's events by local date string and counts them;
  - the student home counts today's and all events;
  - the student log screen keeps a local day window and a type.

  The four copies differ, and the model keeps each difference: the placeholder
  rules, the way "same day" is decided, and the student screens' overrides.
- **The add-student form.** The field-by-field validation, in which later
  writes win. The change handler, the multipart payload and the submit-error
  message.
- **The login screen.** The first-failure guard chains of both roles, and the
  role switch that empties the form.
- **The roster search and its date formatting.**
- **`hexToRgba`.** It reads three two-character slots with `parseInt(…, 16)`.

## How the model is built

- **Scalars.**
  - JSON scalars are `Values.Value`: `Undefined`, `Null`, a string or an
    integer. JavaScript truthiness, `||`, `String(v)` and Python's `str(v)`
    are spelled out on it.
  - Fields the backend only ever stores as strings are `Option<string>`.
  - `Backend.StudentRecord` uses `Value` for its fields so that the screens
    and the store share one type. Python has no `undefined`, and the store
    never writes it: a missing form key gives null, and an edit keeps the old
    field (`Backend.StoreNeverWritesUndefined`).
- **Dates.**
  - `Date` is the datatype `Timeline.Calendar` of uninterpreted functions
    over millisecond time values. `None` stands for an Invalid Date.
  - The calendar is passed to every operation that needs it. The few laws a
    proof needs are stated as predicates and required only by that proof.
    For example, local midnight is a fixed point of `setHours(0, 0, 0, 0)`.
- **Sorting.** `Array.prototype.sort` with the comparator
  `new Date(b.time) - new Date(a.time)` is `Timeline.SortDesc`, a stable
  insertion sort. It is a permutation for all inputs, stable for equal times,
  and sorted and idempotent when every time parses.
- **Imperative code.**
  - Each screen's `forEach` + `push` loop is a `method` with a `while` loop.
    It is proved equal to a functional expansion. The properties are lemmas
    about that function.
  - The backend store, the add-student form, the login screen and the student
    log screen's date state are classes. Their methods update the fields in
    place.
- **The home screen's `date_only` field** is a Dafny `array<string>`, because
  the screen compares it with `===`, which compares arrays by identity.

## Model

| member | source | states |
|---|---|---|
| Backend.AdminLogin | HostelApp-BACKEND/app.py:37-43 | the reply is 200 exactly for admin/1234, with status success; every other pair gets 401 "Invalid credentials" |
| Backend.Store.AddStudent | HostelApp-BACKEND/app.py:50-64 | exactly one record is appended, numbered `len + 1` and filled from the form (null for a missing key); the records before it and the logs are unchanged; the reply is 201 "Student added" |
| Backend.Store.EditStudent | HostelApp-BACKEND/app.py:67-78 | the loop updates only the first record with the id; the answer is 404 "Student not found" exactly when no record has the id; otherwise it is 200 "Student updated" with the updated record |
| Backend.FirstWithId | HostelApp-BACKEND/app.py:70-71 | the index found holds the id, and no earlier record holds it |
| Backend.StoreNeverWritesUndefined | HostelApp-BACKEND/app.py:50-78 | a new record holds null exactly for a missing form key and never `Undefined`; an edit never introduces `Undefined` |
| Backend.EditFirstIsUpdateAt | HostelApp-BACKEND/app.py:70-78 | an edit changes at most one position: the first record with the id, updated as `form.get(key, old)` says; with no such record nothing changes |
| Backend.EditKeepsIds | HostelApp-BACKEND/app.py:70-75 | an edit keeps the number of records, their order and every id |
| Backend.EmptyEditChangesNothing | HostelApp-BACKEND/app.py:72-75 | a form without any of the four keys keeps every field as it was |
| Backend.Delete | HostelApp-BACKEND/app.py:83 | the order-preserving subsequence of records whose id differs |
| Backend.DeleteRemovesEvery | HostelApp-BACKEND/app.py:83 | no record with the id survives, and the survivors plus the removed records are all the records |
| Backend.Store.DeleteStudent | HostelApp-BACKEND/app.py:81-85 | the store holds the records with other ids, in order; the reply is success whether or not anything was removed |
| Backend.FindStudent | HostelApp-BACKEND/app.py:104-106 | the result is the first record whose name is equal and whose `str(register_no)` equals `str` of the argument; none exactly when no record matches |
| Backend.StudentLogin | HostelApp-BACKEND/app.py:99-107 | success exactly when some record matches; otherwise 404 "Student not found" |
| Backend.NullRegisterMatchesNoneText | HostelApp-BACKEND/app.py:105 | a record with a null register number is found by the text "None", since both sides go through `str` |
| Backend.MyLogs | HostelApp-BACKEND/app.py:114-118 | the order-preserving subsequence of logs whose `student_id` equals the integer asked for, keeping every copy of a matching log and none of another |
| Backend.DuplicateIdAfterDelete | HostelApp-BACKEND/app.py:50-85 | as written: with ids 1 and 2, deleting 1 and then adding gives two records with id 2 |
| Backend.MaxId | HostelApp-BACKEND/app.py:55 | no record has an id above the maximum |
| Backend.FreshIdStaysUnique | HostelApp-BACKEND/app.py:50-85 | corrected: a delete keeps ids unique, and adding with one past the largest id keeps them unique |
| Backend.FilterSubseqIndices | HostelApp-BACKEND/app.py:83 | the comprehension keeps unique ids unique |
| ManageLogs.ProcessLogs | HostelApp-Native-Frontend/src/Screen/Admin/ManageLogs.js:172-235 | absent or empty logs give `[]`; otherwise the push loop's result is the row-by-row expansion, sorted most recent first |
| ManageLogs.ProcessedCount | HostelApp-Native-Frontend/src/Screen/Admin/ManageLogs.js:195-222 | the number of events is the number of rows with a truthy entry time plus the number with a truthy exit time |
| ManageLogs.RowEventsCount | HostelApp-Native-Frontend/src/Screen/Admin/ManageLogs.js:195-222 | one row gives one event per truthy time, so a row with neither time gives none |
| ManageLogs.ProcessedMembers | HostelApp-Native-Frontend/src/Screen/Admin/ManageLogs.js:195-222 | an event is in the result exactly when it is the entry event or the exit event of some row whose time is set |
| ManageLogs.PlaceholdersFilled | HostelApp-Native-Frontend/src/Screen/Admin/ManageLogs.js:197-219 | every event has a non-empty name, register number and status (the placeholders), its `original_log_id` is its row's id, and its id is the row's `_entry`/`_exit` id |
| ManageLogs.EntryIdsCounted | HostelApp-Native-Frontend/src/Screen/Admin/ManageLogs.js:197 | the events with id `x_entry` are as many as the rows with id text `x` and an entry time |
| ManageLogs.ProcessedKeepsDuplicateIds | HostelApp-Native-Frontend/src/Screen/Admin/ManageLogs.js:197-231 | duplicate source ids are not merged, before or after the sort |
| ManageLogs.ProcessedSorted | HostelApp-Native-Frontend/src/Screen/Admin/ManageLogs.js:231 | when every present time parses, the parsed times are non-increasing along the result |
| ManageLogs.SingleRowOrder | HostelApp-Native-Frontend/src/Screen/Admin/ManageLogs.js:195-231 | a row with both times gives its entry and then its exit, swapped by the sort only when the exit is strictly later |
| ManageLogs.FilteredLogs | HostelApp-Native-Frontend/src/Screen/Admin/ManageLogs.js:239-265 | the order-preserving subsequence of events on the selected UTC date, of the selected type ('All' matches both), matching the search, keeping every copy of a kept event and none of a dropped one |
| ManageLogs.InvalidTimeNeverKept | HostelApp-Native-Frontend/src/Screen/Admin/ManageLogs.js:162-169 | an unparseable time becomes 'Invalid Date', which is never a selected date |
| ManageLogs.FormatDate | HostelApp-Native-Frontend/src/Screen/Admin/ManageLogs.js:145 | the selected date prints as all of its ISO string before the first `T` (the whole string when there is none), and when every ISO string starts with a digit or a sign, never 'Invalid Date' |
| ManageLogs.FormatLogDate | HostelApp-Native-Frontend/src/Screen/Admin/ManageLogs.js:162-169 | an unparseable time gives 'Invalid Date' (the caught RangeError); a parseable one gives the same date text as the selected-date formatter, so 'Invalid Date' appears exactly for unparseable times |
| ManageLogs.SearchIgnoresQueryCase | HostelApp-Native-Frontend/src/Screen/Admin/ManageLogs.js:246-249 | the name and register-number tests ignore the query's case; only the case-sensitive student-id test can tell the two apart |
| ManageLogs.SearchByName | HostelApp-Native-Frontend/src/Screen/Admin/ManageLogs.js:247 | the name test is a case-insensitive substring test: a name holding the query in any case is found, and when neither the register number nor the student id holds a non-empty query, the result is the name test |
| ManageLogs.SearchFindsSurname | HostelApp-Native-Frontend/src/Screen/Admin/ManageLogs.js:247 | an instance: the query "SMITH" finds an event named "Jane Smith" |
| Dashboard.ProcessLogs | HostelApp-Native-Frontend/src/Screen/Admin/Dashboard.js:25-58 | the push loop's result is the row-by-row expansion, sorted most recent first |
| Dashboard.CopiedVerbatim | HostelApp-Native-Frontend/src/Screen/Admin/Dashboard.js:28-54 | an event is in the result exactly when it is some row's entry or exit event, with name, register number, student id and status copied without placeholders |
| Dashboard.ProcessedCount | HostelApp-Native-Frontend/src/Screen/Admin/Dashboard.js:28-54 | one event per truthy entry time and per truthy exit time; a row with neither gives nothing |
| Dashboard.TodayLogs | HostelApp-Native-Frontend/src/Screen/Admin/Dashboard.js:61-64 | the order-preserving subsequence of events whose local date string is today's, keeping every copy of such an event and none of another |
| Dashboard.TodayCountsAddUp | HostelApp-Native-Frontend/src/Screen/Admin/Dashboard.js:66-67 | today's entries plus today's exits are today's events, and no more than all events |
| Dashboard.DateString | HostelApp-Native-Frontend/src/Screen/Admin/Dashboard.js:62 | a parsed time prints its local date string; when no valid date prints 'Invalid Date', that text appears exactly for an unparseable time |
| Dashboard.InvalidTimeNeverToday | HostelApp-Native-Frontend/src/Screen/Admin/Dashboard.js:62-63 | an unparseable time prints 'Invalid Date', which is never today's date string |
| Dashboard.RecentLogs | HostelApp-Native-Frontend/src/Screen/Admin/Dashboard.js:115-124 | min(5, n) rows; row i has the type, time and register number of event i, and its name, or 'Unknown' when that name is missing or empty |
| Dashboard.RecentAreMostRecent | HostelApp-Native-Frontend/src/Screen/Admin/Dashboard.js:115-124 | on sorted parseable events, no event left out of the five is later than one kept |
| StudentHome.ProcessedLogs | HostelApp-Native-Frontend/src/Screen/Student/Home.js:30-58 | absent or empty logs give `[]`; otherwise the events are the expansion (status without default), sorted most recent first, and each `date_only` array holds its time split at spaces |
| StudentHome.PushRow | HostelApp-Native-Frontend/src/Screen/Student/Home.js:36-53 | one row gives its entry event, then its exit event, each with a freshly allocated split array |
| StudentHome.Stats | HostelApp-Native-Frontend/src/Screen/Student/Home.js:61-70 | as written: today's counts are always 0, and the totals are the numbers of entry and exit events, adding up to all events |
| StudentHome.TotalsMatchRows | HostelApp-Native-Frontend/src/Screen/Student/Home.js:35-67 | total entries and exits are the numbers of rows with an entry time and with an exit time |
| StudentHome.TodayCountBounded | HostelApp-Native-Frontend/src/Screen/Student/Home.js:64-65 | corrected count: today's count of a kind never exceeds that kind's total, and both together never exceed the events |
| StudentHome.TodayCountSeesToday | HostelApp-Native-Frontend/src/Screen/Student/Home.js:62-65 | corrected count: an event whose date part is today's UTC day is counted |
| StudentHome.RecentLogs | HostelApp-Native-Frontend/src/Screen/Student/Home.js:73 | the first min(5, n) processed events, unchanged |
| StudentHome.RecentAreMostRecent | HostelApp-Native-Frontend/src/Screen/Student/Home.js:73 | on sorted parseable events, no event left out of the five is later than one kept |
| ViewLogs.PushRow | HostelApp-Native-Frontend/src/Screen/Student/ViewLogs.js:69-95 | one row's events, entry first; a present time that does not parse throws the RangeError of `toISOString` |
| ViewLogs.ProcessedLogs | HostelApp-Native-Frontend/src/Screen/Student/ViewLogs.js:64-99 | absent or empty logs give `[]`; it fails exactly when some present time does not parse; otherwise it gives the expansion sorted most recent first |
| ViewLogs.ProcessedSpeaksForStudent | HostelApp-Native-Frontend/src/Screen/Student/ViewLogs.js:68-95 | every event's name is the student's or 'Student'; its register number and student id are the student's when truthy and otherwise its row's; `date` is the ISO form of its own time; its id is a row's `_entry`/`_exit` id |
| ViewLogs.ExpandedCount | HostelApp-Native-Frontend/src/Screen/Student/ViewLogs.js:68-96 | the expansion has one event per row with a truthy entry time and one per row with a truthy exit time |
| ViewLogs.ExpandedMembers | HostelApp-Native-Frontend/src/Screen/Student/ViewLogs.js:68-96 | an event is in the expansion exactly when it is among some row's own events |
| ViewLogs.ProcessedSorted | HostelApp-Native-Frontend/src/Screen/Student/ViewLogs.js:98 | the result is most recent first and has one element per expanded event |
| ViewLogs.FilteredLogs | HostelApp-Native-Frontend/src/Screen/Student/ViewLogs.js:102-129 | the order-preserving subsequence of events whose time lies in the local day window, both ends included, and whose type matches, keeping every copy of a kept event and none of a dropped one |
| ViewLogs.TypeViewsPartition | HostelApp-Native-Frontend/src/Screen/Student/ViewLogs.js:116 | the 'Entry' and the 'Exit' views of a day together are as long as its 'All' view |
| ViewLogs.MidnightKeepsDay | HostelApp-Native-Frontend/src/Screen/Student/ViewLogs.js:104-109 | normalising the picked date to local midnight selects the same day as the picked moment |
| ViewLogs.Screen.HandleDateChange | HostelApp-Native-Frontend/src/Screen/Student/ViewLogs.js:146-159 | the picker closes; a picked date is stored at local midnight; a dismissal keeps the old date |
| AddStudent.SetOnlyThatField | HostelApp-Native-Frontend/src/Screen/Admin/AddStudent.js:40 | the spread update sets the named field and leaves every other field as it was |
| AddStudent.Form.HandleChange | HostelApp-Native-Frontend/src/Screen/Admin/AddStudent.js:39-52 | the field is set and marked touched, only its own error is cleared (when set), and the shared error is cleared |
| AddStudent.RequiredErrors | HostelApp-Native-Frontend/src/Screen/Admin/AddStudent.js:81-88 | the first block's checks, in the source's order |
| AddStudent.RequiredOverlayMeaning | HostelApp-Native-Frontend/src/Screen/Admin/AddStudent.js:84-88 | after the first block exactly the blank required fields have an error, each its own required message |
| AddStudent.FormatErrors | HostelApp-Native-Frontend/src/Screen/Admin/AddStudent.js:90-109 | the second block's checks, in the source's order, applied over the first block's errors |
| AddStudent.FormatOverlayKeys | HostelApp-Native-Frontend/src/Screen/Admin/AddStudent.js:90-109 | after the second block a field has an error exactly when it had one or fails its format |
| AddStudent.FormatOverlayValues | HostelApp-Native-Frontend/src/Screen/Admin/AddStudent.js:90-109 | a failed format's message replaces the required message; otherwise the earlier message stays |
| AddStudent.ExpectedErrorLayers | HostelApp-Native-Frontend/src/Screen/Admin/AddStudent.js:84-109 | per field: the format message when a non-empty value fails its pattern, else the required message when blank, else none |
| AddStudent.ValidationLayers | HostelApp-Native-Frontend/src/Screen/Admin/AddStudent.js:81-109 | the two blocks together leave exactly the field-by-field expected message |
| AddStudent.NewErrors | HostelApp-Native-Frontend/src/Screen/Admin/AddStudent.js:81-109 | the error map holds a key exactly for the fields with an expected message, each with that message |
| AddStudent.Form.ValidateForm | HostelApp-Native-Frontend/src/Screen/Admin/AddStudent.js:80-113 | the errors shown are the expected ones, and the answer is true exactly when no field has an error |
| AddStudent.ValidIff | HostelApp-Native-Frontend/src/Screen/Admin/AddStudent.js:84-112 | the form passes exactly when name and class are not blank, register and room numbers are digits, the year is four digits, and phone and email are empty or well formed |
| AddStudent.SpacesGetFormatMessage | HostelApp-Native-Frontend/src/Screen/Admin/AddStudent.js:84-109 | a register number, room number, year or phone number made of spaces only gets its format message, not the required one |
| AddStudent.InitialErrors | HostelApp-Native-Frontend/src/Screen/Admin/AddStudent.js:84-88 | the untouched form reports exactly the five required fields as missing |
| AddStudent.BuildPayload | HostelApp-Native-Frontend/src/Screen/Admin/AddStudent.js:128-142 | the loop over `Object.keys(student)` appends, key by key in declaration order, that key's entries |
| AddStudent.AppendKey | HostelApp-Native-Frontend/src/Screen/Admin/AddStudent.js:131-141 | one iteration appends exactly that key's entries after the ones already there |
| AddStudent.KeysListEveryFieldOnce | HostelApp-Native-Frontend/src/Screen/Admin/AddStudent.js:130 | the key list names every field once |
| AddStudent.PickedIsPartsFor | HostelApp-Native-Frontend/src/Screen/Admin/AddStudent.js:130-142 | the payload entries under one key are exactly what that key contributes |
| AddStudent.PayloadPicture | HostelApp-Native-Frontend/src/Screen/Admin/AddStudent.js:131-136 | the picture is sent only when one is set, and then once |
| AddStudent.PayloadPictureFields | HostelApp-Native-Frontend/src/Screen/Admin/AddStudent.js:132-136 | the picture is sent with its own uri; its type is the asset's or 'image/jpeg', and its name is the asset's or `photo_<now>.jpg`, so neither is empty |
| AddStudent.PayloadDob | HostelApp-Native-Frontend/src/Screen/Admin/AddStudent.js:137-138 | the birth date is always sent, once, as its UTC calendar date |
| AddStudent.PayloadText | HostelApp-Native-Frontend/src/Screen/Admin/AddStudent.js:139-141 | a text field is sent once and verbatim exactly when it is not empty |
| AddStudent.Form.HandleSubmit | HostelApp-Native-Frontend/src/Screen/Admin/AddStudent.js:115-142 | every field is touched; the errors shown are exactly the field-by-field expected messages and the shared error is unchanged; a payload is built exactly when the form is valid, and it is the key-by-key payload |
| AddStudent.SubmitErrorMessage | HostelApp-Native-Frontend/src/Screen/Admin/AddStudent.js:158-170 | the default text without a message; otherwise the lower-cased text is tested in the order duplicate, network, timeout, and an unmatched message passes unchanged |
| AddStudent.DefaultIsNotDuplicate | HostelApp-Native-Frontend/src/Screen/Admin/AddStudent.js:158-165 | the default text is never rewritten as a duplicate |
| Login.AdminGuardIff | HostelApp-Native-Frontend/src/Screen/Login.js:45-52 | the administrator may proceed exactly when neither field is blank; a blank username is reported first, and a blank password only after a username |
| Login.StudentGuardIff | HostelApp-Native-Frontend/src/Screen/Login.js:65-76 | a student may proceed exactly when the name is not blank and the register number is all digits; a blank name is reported first, then a blank register number, then a register number that is not all digits |
| Login.PaddedRegisterNoRejected | HostelApp-Native-Frontend/src/Screen/Login.js:69-76 | a register number with a leading or trailing space passes the blank test and fails the untrimmed digits test |
| Login.ReplyAlertIff | HostelApp-Native-Frontend/src/Screen/Login.js:58-86 | only a 'success' status shows no alert; otherwise 'Login Failed' with the backend's message, or, when it has none, 'Invalid credentials' for the administrator and 'Invalid name or register number' for a student |
| Login.CatchAlert | HostelApp-Native-Frontend/src/Screen/Login.js:88-91 | a thrown error shows its own message, else the shared error, else 'Unknown error occurred'; the message is never empty |
| Login.Screen.HandleLogin | HostelApp-Native-Frontend/src/Screen/Login.js:40-79 | the shared error is cleared; the role's guard decides the alert; a request is sent exactly when no guard fails, and it carries the role's inputs |
| Login.Screen.SwitchRole | HostelApp-Native-Frontend/src/Screen/Login.js:196-225 | the role is set, the four inputs are emptied and the shared error is cleared |
| ManageStudents.Filtered | HostelApp-Native-Frontend/src/Screen/Admin/ManageStudents.js:34-44 | the order-preserving subsequence of non-null entries that match the search, keeping every copy of a matching entry and none of another |
| ManageStudents.EmptySearchKeepsAll | HostelApp-Native-Frontend/src/Screen/Admin/ManageStudents.js:34-44 | an empty search keeps every non-null entry, in order |
| ManageStudents.SearchIgnoresQueryCase | HostelApp-Native-Frontend/src/Screen/Admin/ManageStudents.js:37 | a query and its lower-cased form select the same entries |
| ManageStudents.CapitalRoomIsNotFound | HostelApp-Native-Frontend/src/Screen/Admin/ManageStudents.js:40-42 | the non-name fields are not lower-cased: a student with room "B2" is not found by the search "B2" unless the name, register number or class holds "b2" |
| ManageStudents.FormatDate | HostelApp-Native-Frontend/src/Screen/Admin/ManageStudents.js:47-58 | a missing, empty or zero date gives 'N/A'; a date that does not parse gives 'Invalid Date'; when no formatted date reads 'N/A', 'N/A' appears exactly for a missing or zero date |
| Colors.HexToRgba | HostelApp-Native-Frontend/utils/global.js:11-15 | whatever the input, the output has the shape `rgba(…)` and ends with the alpha text verbatim (1 when omitted) |
| Colors.WellFormedChannel | HostelApp-Native-Frontend/utils/global.js:12-14 | for `#RRGGBB` each channel is the base-16 value of its two digits, in 0..255 |
| Colors.TwoDigits | HostelApp-Native-Frontend/utils/global.js:12-14 | `parseInt` of two hex digits in any letter case is their base-16 value |
| Colors.OnlySlotsMatter | HostelApp-Native-Frontend/utils/global.js:12-14 | only characters 1 to 6 matter: character 0 is never checked and a tail after index 7 is ignored |
| Colors.AlphaDefaultsToOne | HostelApp-Native-Frontend/utils/global.js:11 | an omitted alpha prints as 1 |
| Colors.EncodeRoundTrip | HostelApp-Native-Frontend/utils/global.js:11-15 | round trip: a colour encoded from three bytes prints those bytes back in decimal |
| Colors.SignedSlotGoesNegative | HostelApp-Native-Frontend/utils/global.js:12-14 | nothing bounds a channel: a `-` and a digit in a slot read as a negative number |
| Colors.ShorthandIsMisread | HostelApp-Native-Frontend/utils/global.js:12-14 | `#RGB` reads as the value of `RG`, then `B` alone, then NaN |
| Timeline.SortDesc | HostelApp-Native-Frontend/src/Screen/Admin/ManageLogs.js:231 | the most-recent-first `sort` gives one element per input element; the rows below state that it permutes, orders, is stable and is idempotent |
| Timeline.SortPermutes | HostelApp-Native-Frontend/src/Screen/Admin/ManageLogs.js:231 | the sort is a permutation |
| Timeline.SortSorted | HostelApp-Native-Frontend/src/Screen/Admin/ManageLogs.js:231 | on parseable times the sort is most recent first |
| Timeline.SortStable | HostelApp-Native-Frontend/src/Screen/Admin/ManageLogs.js:231 | events with equal time values keep their input order |
| Timeline.SortIdempotent | HostelApp-Native-Frontend/src/Screen/Admin/ManageLogs.js:231 | sorting twice is sorting once |
| Timeline.UtcDayShape | HostelApp-Native-Frontend/src/Screen/Admin/ManageLogs.js:145 | `split('T')[0]` of the ISO string is all of it before the first `T`: a prefix holding no `T`, followed by a `T` unless it is the whole string; when every ISO string starts with a digit or a sign, it is never 'Invalid Date' |
| Timeline.UtcDayIsNotInvalid | HostelApp-Native-Frontend/src/Screen/Admin/ManageLogs.js:145 | a UTC date taken from `toISOString` is never 'Invalid Date' |
| Text.BlankIffAllSpace | HostelApp-Native-Frontend/src/Screen/Login.js:45 | `!s.trim()` holds exactly when every character is white space |
| Text.JoinSplit | HostelApp-Native-Frontend/src/Screen/Student/Home.js:42 | `split` loses nothing: joining the parts gives the text back |
| Text.EmailHasOneAt | HostelApp-Native-Frontend/src/Screen/Admin/AddStudent.js:99 | an accepted email has no white space and exactly one `@`, neither first nor last |

## Left out

- File I/O. `load_json`, `save_json` and the JSON file initialisation are left out, and so are Flask routing and request parsing. The two lists are the fields of `Backend.Store`. The `int()` of the `student_id` query parameter is out as well: `Backend.MyLogs` takes the integer.
- Context.js is not part of this model. It holds the HTTP calls and the storage. The login screens' network calls are therefore modelled only up to the request they would send: `Login.Screen.HandleLogin` returns that request.
- React's asynchronous state updates, re-rendering, memo dependencies, refresh and loading flags, image picking, permissions, Alerts after success, console logging and navigation are all left out.
- Locale and time-zone formatting (`toLocaleTimeString`, `toLocaleDateString`, local day boundaries, `toDateString`) are uninterpreted fields of `Timeline.Calendar`. The times shown in recent lists are kept as the raw time text.
- The comparator on unparseable times. `NaN` from subtracting Invalid Dates is modelled as "not before", which is one of the implementation-defined orders. Sortedness lemmas require parseable times.
- Numbers are integers. Floating-point values, such as an `alpha` of 0.5, appear only as text: `Colors.HexToRgba` takes alpha as its printed text.
- `Colors.HexToRgba`: the argument is a string. The crash on a non-string `hex` is not modelled.
- `Text.Lower`: lower-cases ASCII letters only. Unicode case mapping of other letters is not modelled.
- Fields that app.py can hold as a non-string (name, times, statuses) are modelled as strings or null. The crash of `.toLowerCase()` or `.split()` on a number is excluded by typing.
- The roster search reads `room` and `class`, which app.py's records lack: app.py stores `room_no` and `course`. `ManageStudents.StudentRow` keeps both as values that may be `Undefined`.

## Findings

| source | as written | input that shows it | evidently intended | confidence | as-written member | corrected member |
|---|---|---|---|---|---|---|
| HostelApp-Native-Frontend/src/Screen/Student/Home.js:62-65 | `log.date_only === today` compares two arrays built by `split`, which is identity, so it is always false | any log whose entry time is today: today's entry count is still 0 | compare the date part of the time with today's UTC date | high (not executed) | StudentHome.Stats | StudentHome.TodayCountSeesToday |
| HostelApp-BACKEND/app.py:55 | a new student's id is `len(students) + 1` | students with ids 1 and 2; delete 1, then add: two students have id 2, and editing or deleting id 2 now hits both or the wrong one | an id one past every id in use | high (not executed) | Backend.DuplicateIdAfterDelete | Backend.FreshIdStaysUnique |
