# Classroom attendance app: verified model of the client-side rules

The app lets a teacher open a class, mark each student Present, Absent or
Late with three status pills, submit the roll, and later view the most
recent record of that class. This project models the small pieces of real
logic in the React Native screens:

- **Attendance sheet** (`attendance_sheet.dfy`, module `AttendanceSheet`). The
  class `Sheet` holds the roster (`students`), the map from student id to
  status (`attendance`) and the `isLoading`/`isSubmitting` flags. `Load`
  fills the map with `Present` for every roster student. `Toggle` sets one
  entry. `PressPill` is the only way the screen calls `Toggle`. `BuildPayload`
  and `Submit` assemble the submission: one `{studentId, status}` per roster
  student, in roster order, with `Absent` for a missing entry. The invariant
  `Sheet.Valid` says the map's keys are exactly the roster ids and every
  value is one of `Present`, `Absent`, `Late`. The payload date is the part
  of the ISO timestamp before the first `T` (`DatePart`). `PillColor` gives a
  pill's background colour.
- **Record screen** (`attendance_record.dfy`, module `AttendanceRecord`).
  `FetchLastRecord` classifies the outcome of fetching the latest record. A
  404 leaves no record and no alert, so the empty state is shown. Any other
  non-2xx status, a failed request or an unreadable body raises an alert.
  A 2xx response with a record stores it. `Summarize` counts the total and
  each status with a filter and a length. `StatusColor` gives a row's colour.
- **Login** (`login.dfy`, module `Login`). `HandleLogin` rejects an empty
  email or password. Otherwise `DeriveRole` picks the role from the
  lower-cased email: `student` if it contains "student", else `admin` if it
  contains "admin", else `teacher`.
- **Registration** (`register.dfy`, module `Register`). `HandleRegister`
  rejects the form when any of name, email or password is empty. Otherwise
  it takes the success path with the fixed role `teacher`.

Shared definitions are in `statuses.dfy` (the status strings, the option
list and the `{studentId, status}` entry) and `roles.dfy` (the three roles).

Statuses are strings, as in the app, so "only the three options are
stored" is a proved invariant rather than a consequence of typing.

The code does not check statuses before submitting: the payload carries
whatever the map holds. The model proves the map can only hold the three
options, because `Load` stores only `Present` and a pill press
(`PressPill`) is the only caller of `Toggle` (`Sheet.Valid`).

## Model

| member | source | states |
|---|---|---|
| `AttendanceSheet.InitialAttendance` | screens/StudentsScreen.js:41-44 | the reduce over the roster yields a map whose keys are exactly the roster ids, every value `Present` (loop proved by invariant) |
| `AttendanceSheet.Sheet.constructor` | screens/StudentsScreen.js:23-26 | the screen starts with an empty roster and map, loading set, not submitting; the invariant holds |
| `AttendanceSheet.Sheet.Load` | screens/StudentsScreen.js:33-52 | after loading, the roster is the fetched one, the map's keys are exactly its ids, every value is `Present`, loading is cleared and the invariant holds |
| `AttendanceSheet.Sheet.Toggle` | screens/StudentsScreen.js:54-59 | sets one id to the given status and leaves every other key and value unchanged; the invariant survives exactly when the id is on the roster and the status is one of the three options |
| `AttendanceSheet.Sheet.PressPill` | screens/StudentsScreen.js:103-116 | a pill press sets the row's student to that pill's option, so every stored status stays one of `Present`/`Absent`/`Late` |
| `AttendanceSheet.StudentStatuses` | screens/StudentsScreen.js:66-69 | one entry per roster student in roster order: same length, entry i has student i's id and the stored status, or `Absent` when none is stored (or it is empty) |
| `AttendanceSheet.StatusOrAbsent` | screens/StudentsScreen.js:68 | the submitted status is never empty: it is `Absent` or the student's stored value (which one is fixed by `PayloadStatus`) |
| `AttendanceSheet.PayloadStatus` | screens/StudentsScreen.js:68 | a payload status is the map's value when the student has a non-empty one, and `Absent` when the student has no entry |
| `AttendanceSheet.UntouchedRollIsAllPresent` | screens/StudentsScreen.js:41-69 | with the map as loaded and no toggles, every submitted status is `Present` |
| `AttendanceSheet.MissingEntryDefaultsToAbsent` | screens/StudentsScreen.js:66-69 | roster s1, s2, s3 with s1 Present, s3 Late and nothing for s2 submits (s1, Present), (s2, Absent), (s3, Late) |
| `AttendanceSheet.DatePart` | screens/StudentsScreen.js:65 | the date is a prefix of the timestamp, contains no 'T', and is followed by a 'T' unless it is the whole string |
| `AttendanceSheet.DatePartUnique` | screens/StudentsScreen.js:65 | those three properties determine the date part: any such prefix is it |
| `AttendanceSheet.DatePartOfTimestamp` | screens/StudentsScreen.js:65 | for a timestamp "date T rest" whose date has no 'T', the payload date is exactly that date |
| `AttendanceSheet.Sheet.BuildPayload` | screens/StudentsScreen.js:63-70 | the payload carries the class id and the date part of the timestamp; its statuses follow the roster one for one with the stored-or-`Absent` status; under the invariant each is the stored status and one of the three options |
| `AttendanceSheet.Sheet.Submit` | screens/StudentsScreen.js:61-85 | submitting returns exactly the payload of the class id, the timestamp's date part and the roster-ordered statuses, leaves the roster and map as they were and ends with the submitting flag cleared |
| `AttendanceSheet.PillColor` | screens/StudentsScreen.js:87-94 | an inactive pill is always light grey; an active pill of an unknown status is `#CCCCCC` |
| `AttendanceSheet.ActivePillColorsDistinct` | screens/StudentsScreen.js:87-94 | active Present, Absent and Late pills are green, red and amber, pairwise different and different from both greys |
| `AttendanceRecord.FetchLastRecord` | screens/AttendanceRecordScreen.js:21-48 | 404 leaves no record and no alert; another non-2xx status or a failed request raises an alert and keeps the held record; a 2xx with a readable record stores it without alert, an unreadable body alerts |
| `AttendanceRecord.NotFoundShowsEmptyState` | screens/AttendanceRecordScreen.js:27-31 | after a 404 the screen shows the empty state and no alert, whatever it held before |
| `AttendanceRecord.OtherFailuresAlert` | screens/AttendanceRecordScreen.js:33-44 | any non-2xx status other than 404, and a failed request, take the error path: alert, record unchanged |
| `AttendanceRecord.OkShowsRecord` | screens/AttendanceRecordScreen.js:37-40 | a 2xx response with a record shows that record with its summary, without alert |
| `AttendanceRecord.IsOk` | screens/AttendanceRecordScreen.js:33 | `response.ok` is a 2xx status; its meaning for the screen is stated by `AlertIffError` |
| `AttendanceRecord.AlertIffError` | screens/AttendanceRecordScreen.js:21-48 | an alert is raised exactly when the response is neither a 404 nor a readable 2xx |
| `AttendanceRecord.Render` | screens/AttendanceRecordScreen.js:75-88 | no record renders the empty state; a record renders its details with total equal to the number of entries |
| `AttendanceRecord.WithStatus` | screens/AttendanceRecordScreen.js:86-88 | the filter keeps exactly the entries with that status and nothing else |
| `AttendanceRecord.CountIsOccurrences` | screens/AttendanceRecordScreen.js:86-88 | the filter keeps exactly as many entries as the status occurs in the status column |
| `AttendanceRecord.CountOf` | screens/AttendanceRecordScreen.js:86-88 | filter-then-length is at most the number of entries and equals the number of occurrences of exactly that status in the status column |
| `AttendanceRecord.Summarize` | screens/AttendanceRecordScreen.js:85-88 | the total is the number of entries, and the present, absent and late counts are the numbers of occurrences of those statuses in the status column |
| `AttendanceRecord.CountPermutation` | screens/AttendanceRecordScreen.js:86-88 | a count is the same for any reordering of the entries |
| `AttendanceRecord.SummaryOrderIndependent` | screens/AttendanceRecordScreen.js:85-88 | the whole summary (total and three counts) is the same for any reordering of the entries |
| `AttendanceRecord.CountsBoundedByTotal` | screens/AttendanceRecordScreen.js:85-88 | present + absent + late never exceeds the total, and equals it exactly when every status is one of the three options |
| `AttendanceRecord.SummaryExample` | screens/AttendanceRecordScreen.js:85-88 | Present, Present, Absent, Late summarises to total 4, present 2, absent 1, late 1 |
| `AttendanceRecord.StatusColor` | screens/AttendanceRecordScreen.js:50-55 | any status other than the three options gets `#666` |
| `AttendanceRecord.StatusColorsDistinct` | screens/AttendanceRecordScreen.js:50-55 | Present, Absent and Late get green, red and amber, pairwise different and different from `#666` |
| `AttendanceRecord.RowColorMatchesActivePill` | screens/AttendanceRecordScreen.js:50-55 | a record row of one of the three statuses has the colour of that status's active pill on the attendance screen; an unknown status is coloured differently on the two screens |
| `Login.HandleLogin` | screens/LoginScreen.js:20-51 | the login is rejected, with no navigation and no loading, exactly when the email or the password is empty; otherwise it navigates with the derived role, setting and then clearing the loading flag |
| `Login.LowerString` | screens/LoginScreen.js:36 | lower-casing keeps the length and lower-cases each character |
| `Login.ContainsIffOccurs` | screens/LoginScreen.js:36-38 | the recursive substring search holds exactly when the word occurs at some index |
| `Login.Contains` | screens/LoginScreen.js:36-38 | `includes`; its meaning, occurrence at some index, is stated by `ContainsIffOccurs` |
| `Login.DeriveRole` | screens/LoginScreen.js:35-40 | `student` exactly when the lower-cased email contains "student"; `admin` exactly when it contains "admin" but not "student"; `teacher` exactly when it contains neither |
| `Login.LowerStringIdempotent` | screens/LoginScreen.js:36-38 | lower-casing twice equals lower-casing once |
| `Login.RoleIgnoresCase` | screens/LoginScreen.js:36-38 | an email and its lower-case form get the same role |
| `Login.StudentOutranksAdmin` | screens/LoginScreen.js:36-40 | "Admin.Student", which contains both words, is a student |
| `Login.UpperCaseAdmin` | screens/LoginScreen.js:38-39 | "ADMIN" is an administrator: the test is case-insensitive |
| `Login.LoginRoleName` | screens/LoginScreen.js:35-43 | an accepted login always passes one of "teacher", "student", "admin" to the dashboard |
| `Register.HandleRegister` | screens/RegisterScreen.js:12-35 | registration is rejected exactly when name, email or password is empty; otherwise it succeeds with role `teacher`, setting and then clearing the loading flag |
| `Register.RegistrationAlwaysTeacher` | screens/RegisterScreen.js:9 | every successful registration is for "teacher", and the loading flag ends cleared |

## Left out

- The Express/Mongoose server (`server.js`): routes, queries, seeding and mock authentication. The "latest record" order is a database sort, so there is no code to verify.
- `DashboardScreen.js` and `App.js`: mock data, view selection and navigation only.
- `fetch`, `Alert`, `navigation`, `console`, timers and styles. A failed request and an unreadable body are inputs of `FetchLastRecord`. An alert is a boolean in its result.
- The clock. The ISO timestamp is a parameter of `Sheet.BuildPayload` and `Sheet.Submit`.
- `Sheet.Load`: the roster is a parameter. The app's simulated fetch always delivers the same ten mock students and never fails, so its error branch (an alert) cannot run and is not modelled.
- `Sheet.Submit`: the simulated send always succeeds, so its error branch is not modelled. The disabled button that prevents a second press while submitting is concurrency and is not modelled.
- `Login.HandleLogin`, `Register.HandleRegister`: the simulated request never fails, so the catch branch (an alert) is not modelled.
- The asynchronous timing of the `isLoading`/`isSubmitting` flags: only their set-then-reset order is modelled.
- `Login.LowerString`: lower-cases only ASCII `A`-`Z`; JavaScript's `toLowerCase` also folds other Unicode letters.
- `AttendanceRecord.FetchLastRecord`: a JSON body is either a record or unreadable; a body of another shape (no `studentStatuses`, or `null`) is not modelled.
- The pill text colour (`screens/StudentsScreen.js:106`) and the student-name fallback in record rows: display styling only.
