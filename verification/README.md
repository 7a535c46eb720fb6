# Curve Portal backend: a Dafny model of its handlers and document models

This project models the core of the Curve Portal backend, a student-management service for a
training programme. It covers seven source files:

- **Cohort onboarding.** `createCohort` reads a roster from a spreadsheet. It refuses a cohort
  number that already exists. Otherwise it creates the cohort's empty scheme, then one student
  per roster row, each with a fresh 8-hex-digit admission code. It then creates the cohort and an
  attendance document with one class day per Monday, Wednesday and Friday.
- **Face attendance.** `registerFace` stores an encrypted face descriptor. `loginFace` matches a
  probe descriptor against it with a distance threshold of 0.6. It then moves the student's
  entry for one class day from Absent to Present, with score 20, exactly once. Three read-only
  queries project the ledger.
- **Schemes.** Lessons are appended to one of three tracks, read by short name, or cleared.
- **Student accounts.**
  - Onboarding with an admission code, then login.
  - The reset-token flow: forgot password, then reset password.
  - Password change, and profile update through a field whitelist.
  - Deactivation, logout through a JWT version counter, and the student list.
- **Document models.** The student and user schemas share the password logic:
  - a minimum length of 8;
  - a confirmation validator;
  - a hash-on-save hook;
  - a `passwordChangedAt` hook backdated by one second;
  - `changedPasswordAfter`;
  - reset tokens that live ten minutes;
  - a find filter that hides deactivated documents.

  The user schema adds a role enum.

How the model is built:

- Values are datatypes. Documents that handlers change in place are classes:
  `StudentModel.Student`, `UserModel.User`, `SchemeController.SchemeStore`,
  `AttendanceController.AttendanceBook` and `CohortController.Portal`.
- Every method that changes state is proved against a pure function of the old state, and the
  lemmas are proved about those functions.
- A collection is a `seq` in collection order. `findOne` is the first visible match.
- Dates are whole days counted from 1970-01-01, and times are milliseconds.
- Things the model cannot compute are parameters or inputs:
  - bcrypt, bcrypt.compare and sha256;
  - the descriptor cipher and the distance function;
  - random bytes, generated ids and the clock;
  - whether an email was sent.

Behaviour of the code that the model keeps as written:

- `registerFace` refuses a student only when the field `descriptor` is set, but it writes
  `faceDescriptor` and `initVector`. So a student who registered a face can register again,
  and "Face already registered" is never answered after a registration.
- `loginFace` casts `classDay` twice: once by the query's Number cast (`dayQuery`) and once by
  `parseInt` (`dayParsed`, `None` for NaN). The two can disagree, which makes "Class day entry
  not found" reachable.
- No handler checks the length of a descriptor or the outcome of decryption. The distance
  function and the cipher are called as they are.
- Handlers that load a student without `.select("+password")` (updateStudent, resetPassword)
  hold no password value. Any assignment to the path then marks it modified, even of
  undefined, so the hashing hook runs. An onboarding form without a password therefore fails
  in that hook and stores nothing.
- `getSchemeByName` and `deleteSchemeByName` index a plain object with the lower-cased name.
  So an inherited key such as `constructor` passes the check. A read then answers with no
  array, and a delete saves the document unchanged.
- In `getAttendanceForClassDay`, the second "not found" branch cannot fire. The document was
  selected for holding that class day.

## Model

| member | source | states |
|---|---|---|
| Hex.Encode | controllers/cohortController.js:13 | the hex text of n bytes has 2n characters, all in 0-9a-f |
| Hex.DecodeEncode | controllers/cohortController.js:13 | decoding the hex text of bytes gives back exactly those bytes |
| JsValues.ToLower | controllers/schemeController.js:59 | lower-casing keeps the length and maps each character through ASCII lower-casing |
| JsValues.Lowercased | models/studentModel.js:20 | the `lowercase: true` setter: an absent value stays absent, a present one is lower-cased |
| Search.FirstIndex | controllers/attendanceController.js:82-85 | `find` returns the first satisfying index, and None only when no element satisfies |
| Search.FirstIndexAgrees | controllers/attendanceController.js:82-85 | two searches that agree at every position find the same index |
| Search.Filter | controllers/attendanceController.js:199-203 | `filter` keeps exactly the satisfying elements and never grows the sequence |
| Search.FilterCounts | controllers/attendanceController.js:199-203 | `filter` keeps each satisfying element as many times as it occurs, and no other element |
| Search.FilterConcat | controllers/attendanceController.js:199-203 | `filter` keeps the order: the filter of a + b is the filter of a followed by the filter of b |
| PasswordPolicy.CheckCredentials | models/studentModel.js:46-64 | the check passes iff both fields exist where required, a modified password has at least 8 characters, and a set confirmation equals the password; a failure names the password or the confirmation path |
| PasswordPolicy.RunSaveHooks | models/studentModel.js:77-93 | an unmodified password leaves the credentials unchanged; a modified one becomes its hash and drops the confirmation; the change time moves only for a modified password on a stored document, to now - 1000 |
| PasswordPolicy.SaveCredentials | models/studentModel.js:46-93 | save fails exactly on a failed validation (when validating) or on hashing a missing password; on success the hook guarantees hold |
| PasswordPolicy.PasswordChangedAfter | models/studentModel.js:107-117 | a token is reported stale only when there is a change time and the token was issued before it; a token issued a whole second or more before the change is always stale |
| PasswordPolicy.WholeSeconds | models/studentModel.js:109-112 | parseInt of a millisecond count divided by 1000 lies within one second of it, rounded toward zero |
| PasswordPolicy.ComparePassword | models/studentModel.js:100-105 | correctPassword, shared by both schemas: no answer (a throw) iff no hash is stored, otherwise true iff compare accepts the candidate and false iff it rejects it |
| PasswordPolicy.PasswordChangedAfterMeaning | models/studentModel.js:107-117 | changedPasswordAfter in milliseconds: for a non-negative change time, a token is stale iff (iat + 1) * 1000 <= changedAt |
| PasswordPolicy.FreshTokenSurvivesChange | models/studentModel.js:89-93 | because of the one-second backdating, a token issued in the second of the save or later is never stale |
| PasswordPolicy.TruncDivMonotone | models/studentModel.js:109-112 | parseInt of a quotient by 1000 is monotone |
| PasswordPolicy.ResetExpiry | models/studentModel.js:127 | a reset token is usable exactly at times strictly before creation + 600000 ms |
| AttendanceModel.StatusName | models/attendanceModel.js:20-24 | every status name casts back to its status |
| AttendanceModel.ParseStatus | models/attendanceModel.js:20-24 | a missing status defaults to Absent, and a given one is accepted iff it is "Absent" or "Present" |
| AttendanceModel.CastEntry | models/attendanceModel.js:14-28 | an entry casts iff its status is in the enum; the status defaults to Absent and the score to 0 |
| AttendanceModel.SeedEntry | controllers/cohortController.js:100-103 | the seeded entry is what the schema makes of `{studentId, status: "Absent"}`, with no check-in time |
| StudentModel.SaveStudent | models/studentModel.js:46-93 | save of a whole student succeeds exactly when save of its credentials does; only the credentials change, and the document is no longer new or dirty |
| StudentModel.AssignPassword | models/studentModel.js:46-52 | assigning a password on a document loaded without it (`select: false`) always marks the path modified; on one loaded with it, exactly when the value changes; nothing else changes |
| StudentModel.AssignConfirm | models/studentModel.js:53-64 | the same for confirmPassword |
| StudentModel.Student.Create | controllers/cohortController.js:57-65 | a new student has the given fields, the email lower-cased by its setter, plus the schema defaults: status active, active true |
| StudentModel.Student.SetPassword | controllers/studentController.js:60 | the new state is the password assignment of the old state, on a document loaded with or without its password |
| StudentModel.Student.SetConfirmPassword | controllers/studentController.js:61 | the new state is the confirmation assignment of the old state |
| StudentModel.Student.ClearPasswordReset | controllers/studentController.js:121-122 | the token and its expiry are removed and nothing else changes |
| StudentModel.Student.SetFaceTemplate | controllers/attendanceController.js:34-35 | the encoded vector and the cipher text are written together, and nothing else changes |
| StudentModel.Student.RevertTo | controllers/studentController.js:64 | a document whose save is rejected is restored to the state it was loaded in, so nothing of the request is stored |
| StudentModel.Student.HashPasswordHook | models/studentModel.js:77-87 | the first hook on the document: the new state is HashHook of the old credentials |
| StudentModel.Student.ChangedAtHookStep | models/studentModel.js:89-93 | the second hook on the document: the new state is ChangedAtHook of the old credentials |
| StudentModel.Student.Save | models/studentModel.js:77-93 | validators then both hooks: succeeds iff SaveStudent does, with exactly its new state, and changes nothing on failure |
| StudentModel.Student.ChangedPasswordAfter | models/studentModel.js:107-117 | false without a change time; otherwise whether the token's issue second precedes the change's whole second |
| StudentModel.Student.CreatePasswordResetToken | models/studentModel.js:119-130 | the returned token is the 64-digit hex of 32 random bytes; its sha256 is stored, with expiry now + 10 min |
| StudentModel.Student.CorrectPassword | models/studentModel.js:100-105 | no answer (a throw) iff no hash is stored; otherwise true iff compare accepts the candidate and false iff it rejects it; equal to ComparePassword on the stored hash |
| StudentModel.Matches | models/studentModel.js:95-98 | a query finds only active documents; an email query compares the stored email with the lower-cased queried one; a reset-token query needs an expiry still ahead |
| StudentModel.FindOne | models/studentModel.js:95-98 | finds the first matching document, and finds only active ones |
| UserModel.RoleName | models/userModel.js:34-38 | every role's name casts back to that role |
| UserModel.ParseRole | models/userModel.js:34-38 | a missing role defaults to student, and a given one is accepted iff it is in the enum |
| UserModel.SaveUser | models/userModel.js:39-86 | save of a user is the shared credential save with password and confirmPassword required |
| UserModel.CreateUserSave | models/userModel.js:39-57 | creating a user succeeds iff the password has at least 8 characters and the confirmation equals it; the hash is then stored and no change time is recorded |
| UserModel.ValidatedResaveNeedsConfirmation | models/userModel.js:46-80 | after a password save, a second validated save fails on the required confirmation, which the first hook removed |
| UserModel.User.Create | models/userModel.js:20-45 | a new user has the given fields, the email lower-cased by its setter, default active, and both password paths modified |
| UserModel.User.HashPasswordHook | models/userModel.js:70-80 | the first hook on a user document |
| UserModel.User.ChangedAtHookStep | models/userModel.js:82-86 | the second hook on a user document |
| UserModel.User.Save | models/userModel.js:70-86 | succeeds iff SaveUser does, with exactly its new state, and changes nothing on failure |
| UserModel.User.ChangedPasswordAfter | models/userModel.js:100-110 | as for students |
| UserModel.User.CreatePasswordResetToken | models/userModel.js:112-125 | as for students |
| UserModel.User.CorrectPassword | models/userModel.js:93-98 | as for students: no answer iff no hash is stored, otherwise exactly compare's answer; equal to ComparePassword on the stored hash |
| AttendanceController.SetEntry | controllers/attendanceController.js:115-117 | the entry at one position is replaced; every other position keeps its entry; the ledger keeps its shape |
| AttendanceController.FirstSheet | controllers/attendanceController.js:71-73 | the first document holding a class day with the number; None iff no document holds one |
| AttendanceController.FirstEntry | controllers/attendanceController.js:94-96 | the student's first entry in a class day; None iff the student has no entry there |
| AttendanceController.Locate | controllers/attendanceController.js:71-102 | succeeds iff the first document with the queried day has a class day with the parsed number whose first such day lists the student, and then gives the first entry; "not in sheets" iff no document has the day; "entry not found" iff that document has no class day with the parsed number; "student not found" iff its first such day does not list the student |
| AttendanceController.CheckIn | controllers/attendanceController.js:104-117 | fails iff the located entry is already Present (or location fails); on success only that entry changes, to Present with the check-in time and score 20 |
| AttendanceController.SameSheetShapeHasDay | controllers/attendanceController.js:71-73 | documents of the same shape hold the same class days |
| AttendanceController.FirstSheetAgrees | controllers/attendanceController.js:71-73 | ledgers of the same shape have the same first document for a day |
| AttendanceController.FirstDayAgrees | controllers/attendanceController.js:82-85 | documents of the same shape have the same first class day of each number |
| AttendanceController.FirstEntryAgrees | controllers/attendanceController.js:94-96 | class days of the same shape list the student's first entry at the same place |
| AttendanceController.LocateDependsOnShape | controllers/attendanceController.js:71-102 | the finds depend only on days and student ids, never on statuses or scores |
| AttendanceController.CheckInOnce | controllers/attendanceController.js:105-112 | after a successful check-in, checking the same student in again fails with AlreadyPresent |
| AttendanceController.CheckInPreservesInvariant | controllers/attendanceController.js:114-117 | check-in keeps every entry consistent: a check-in time exactly on Present entries, score 0 or 20 |
| AttendanceController.SetEntryCommutes | controllers/attendanceController.js:115-117 | updates of two different positions commute |
| AttendanceController.CheckInsCommute | controllers/attendanceController.js:114-120 | check-ins of two different students both succeed in either order and give the same ledger |
| AttendanceController.FaceGate | controllers/attendanceController.js:47-68 | the checks before the ledger, in order: passes iff both inputs are present, the visible student is found, a face is registered with its vector, and the distance is below 0.6; "not registered" iff no face is stored; a distance of 0.6 or more is the mismatch |
| AttendanceController.LoginFaceSpec | controllers/attendanceController.js:44-127 | loginFace succeeds iff the inputs are present, the student is found, the face matches, classDay casts to a Number, the finds locate the student's entry and it is not yet Present; then only that entry changes, to Present at now with score 20; a failed gate answers its error, a failed cast ClassDayCastFailed |
| AttendanceController.AttendanceBook.LoginFace | controllers/attendanceController.js:44-127 | the ledger becomes LoginFaceSpec's result on success and is unchanged on failure; the greeting carries the first name |
| AttendanceController.RegisterFace | controllers/attendanceController.js:12-42 | each guard's error iff its condition, in order ("data required", "not found", "already registered"); once they pass, the vector and cipher text are written together and saved, so the answer is success or a rejected save; a rejected save stores nothing; other students are unchanged |
| AttendanceController.AttendanceForCohort | controllers/attendanceController.js:129-151 | succeeds iff an id is given and some document is the cohort's; then exactly the cohort's documents, each as often as stored, in collection order |
| AttendanceController.AttendanceForClassDay | controllers/attendanceController.js:153-183 | succeeds iff some document of the cohort holds the parsed day, and returns the first class day of that number in the first such document, as findOne and find choose |
| AttendanceController.FirstDay | controllers/attendanceController.js:171-173 | the first class day with that number |
| AttendanceController.RowOf | controllers/attendanceController.js:204-213 | a row carries the day, the date, and the status and score of the student's first entry |
| AttendanceController.DayRows | controllers/attendanceController.js:198-214 | a document gives no more rows than class days, every row is dated by one of its class days, and none iff the student attends none |
| AttendanceController.DayRowsInDayOrder | controllers/attendanceController.js:198-214 | a document's rows are one row per attended class day, in class-day order: the k-th row is the row of the k-th attended day |
| AttendanceController.DayRowsConcat | controllers/attendanceController.js:198-214 | the rows of two runs of class days are the rows of the first followed by those of the second |
| AttendanceController.History | controllers/attendanceController.js:196-216 | the history is empty iff the student attends no class day of any document |
| AttendanceController.DayRowsMember | controllers/attendanceController.js:198-214 | a row is among a document's rows iff it is the row of a class day the student attends |
| AttendanceController.HistoryMember | controllers/attendanceController.js:196-216 | a row is in the history iff it is the row of a class day in some document that the student attends |
| AttendanceController.HistoryConcat | controllers/attendanceController.js:196-216 | rows follow document order: the history of a + b is history(a) + history(b) |
| AttendanceController.NoAttendanceNoRows | controllers/attendanceController.js:199-203 | a document the student is absent from contributes no rows |
| AttendanceController.PrefilterKeepsHistory | controllers/attendanceController.js:192-194 | the query's prefilter on the student id does not change the history |
| AttendanceController.AttendanceForStudent | controllers/attendanceController.js:185-229 | succeeds iff the student is in some class day, and then returns the (non-empty) history |
| SchemeModel.WithLessons | controllers/schemeController.js:114 | the chosen track is replaced and the other two, the id and the cohort are kept |
| SchemeModel.EmptyScheme | controllers/cohortController.js:46-53 | a new scheme has three empty tracks |
| SchemeController.ParseSchemeType | controllers/schemeController.js:9-18 | accepted iff the type is one of the three field names, exactly |
| SchemeController.LookupName | controllers/schemeController.js:53-60 | a name selects a track iff its lower-case form is the track's short name; inherited keys pass as keys that select nothing |
| SchemeController.ToLowerIdempotent | controllers/schemeController.js:59 | lower-casing twice is lower-casing once |
| SchemeController.LookupIgnoresCase | controllers/schemeController.js:97 | a name and its lower-cased form select the same key |
| SchemeController.FindScheme | controllers/schemeController.js:20-24 | findById: the first document with the id; a missing id finds nothing |
| SchemeController.CreateSchemeSpec | controllers/schemeController.js:5-37 | the type check, then the find; succeeds iff the type is valid and the document exists, and then the lessons are appended to exactly one track of exactly one document |
| SchemeController.DeleteSchemeSpec | controllers/schemeController.js:87-126 | missing name, invalid name, missing id (a cast error) and missing document fail in that order, and it succeeds iff none applies; on success one track of one document is emptied, or nothing changes for an inherited key |
| SchemeController.DeleteSchemeIdempotent | controllers/schemeController.js:113-117 | clearing a track twice leaves what clearing it once left |
| SchemeController.SchemeStore.CreateScheme | controllers/schemeController.js:5-37 | the element-by-element push leaves the collection as CreateSchemeSpec says, and unchanged on failure |
| SchemeController.SchemeStore.GetSchemeByName | controllers/schemeController.js:49-85 | the name check, then the first document, then the chosen track; succeeds iff the name is a key and a document exists |
| SchemeController.SchemeStore.DeleteSchemeByName | controllers/schemeController.js:87-126 | the collection becomes DeleteSchemeSpec's result, and is unchanged on failure |
| CohortController.EntryOf | controllers/cohortController.js:30-36 | columns 1-5 are first name, last name, email, stack and gender |
| CohortController.ReadRoster | controllers/cohortController.js:27-39 | the eachRow loop collects one entry per row numbered above 1, in row order |
| CohortController.RosterSkipsHeader | controllers/cohortController.js:27-39 | with row 1 first and increasing row numbers, the roster is every row but the first, in order |
| CohortController.Weekday | controllers/cohortController.js:93-96 | getDay is in 0..6 |
| CohortController.Seeds | controllers/cohortController.js:100-103 | one Absent entry per enrolled student, in order |
| CohortController.GenerateClassDays | controllers/cohortController.js:89-107 | the loop yields days numbered 1..n in increasing date order, whose dates are exactly the Mon/Wed/Fri dates from start to end, each seeding every enrolled student |
| CohortController.LastIsLatest | controllers/cohortController.js:95-107 | the last class day of a schedule has its latest class date |
| CohortController.DropLast | controllers/cohortController.js:95-107 | a schedule without its last day is the schedule up to the day before it |
| CohortController.ScheduleEmptyIff | controllers/cohortController.js:95-107 | a schedule is empty iff the range holds no Mon/Wed/Fri |
| CohortController.ScheduleIsUnique | controllers/cohortController.js:89-107 | the schedule description determines the list completely |
| CohortController.AdmissionCode | controllers/cohortController.js:13 | 8 hex digits that decode to the 4 random bytes |
| CohortController.Admitted | controllers/cohortController.js:57-65 | a roster student is stored with its names and stack, its email lower-cased, its code and cohort, and without gender and password, not onboarded, active |
| CohortController.Enrolled | controllers/cohortController.js:86 | `Student.find({cohort})`: exactly the ids of the visible students of the cohort |
| CohortController.EnrolledConcat | controllers/cohortController.js:86 | the ids keep collection order: enrolment over a + b is enrolment over a followed by b |
| CohortController.Admit | controllers/cohortController.js:55-65 | Student.create of one roster entry gives a fresh student in the Admitted state |
| CohortController.Portal.AdmitAll | controllers/cohortController.js:55-77 | one fresh student per roster entry is appended, in roster order, with the given id and code |
| CohortController.Portal.AddAttendance | controllers/cohortController.js:86-113 | one attendance document is appended, whose class days are the schedule over the cohort's visible students |
| CohortController.Portal.CreateCohort | controllers/cohortController.js:15-121 | fails iff the cohort number exists, then changes nothing; otherwise appends the empty scheme, the students, the cohort and the scheduled sheet, and answers the roster size |
| StudentController.FindInvitation | controllers/studentController.js:36-54 | onboarding checks in order: unknown email, already onboarded, then admission-code mismatch; passes iff none applies |
| StudentController.OnboardingSave | controllers/studentController.js:37-64 | onboarding saves iff the form has a password of >= 8 characters and any confirmation matches; without password and confirmation the hashing hook fails; on success the student is onboarded, with the profile copied and the hash stored, and the new token is not stale |
| StudentController.ApplyOnboarding | controllers/studentController.js:56-62 | the assignments of updateStudent |
| StudentController.UpdateStudent | controllers/studentController.js:35-72 | a failed check or a rejected save changes nothing; otherwise the student becomes the saved onboarded state and gets a session; an email failure comes after the save |
| StudentController.Login | controllers/studentController.js:74-92 | a missing field gives 400; an unknown email and a wrong password give the same error; success only for a visible student whose email is the lower-cased one given and whose hash accepts the password |
| StudentController.ForgetPassword | controllers/studentController.js:94-126 | the emailed token's sha256 and expiry are stored; a rejected save stores nothing; after an email failure the token and expiry are cleared again |
| StudentController.ApplyReset | controllers/studentController.js:144-147 | the reset assignments leave no token and no expiry |
| StudentController.ResetTokenSingleUse | controllers/studentController.js:135-148 | the reset clears the token on the pending document, and a successful save stores no token |
| StudentController.ApplyResetTo | controllers/studentController.js:144-147 | the reset assignments on the document |
| StudentController.ResetPassword | controllers/studentController.js:128-155 | an unknown or expired token changes nothing; a rejected save changes nothing and the token still works; a successful save stores the new password and the student then matches no reset-token query |
| StudentController.UpdatePassword | controllers/studentController.js:157-175 | a wrong current password or a rejected save changes nothing; otherwise the new password is saved, the change time is now - 1000, and the new session is not stale |
| StudentController.FilterObj | controllers/studentController.js:177-183 | exactly the keys both in the object and in the allowed list, with their values |
| StudentController.Whitelisted | controllers/studentController.js:177-183 | what filterObj keeps of a body: a key is kept iff it is in the body and on the whitelist, with the body's value |
| StudentController.ApplyProfile | controllers/studentController.js:199-206 | the $set changes only firstName, lastName and gender |
| StudentController.ProfileUpdateIsConfined | controllers/studentController.js:187-206 | whatever the body, the update changes only the three profile fields, and only to the body's values under those keys |
| StudentController.ApplyProfileTo | controllers/studentController.js:199-206 | the $set on the document |
| StudentController.UpdateMe | controllers/studentController.js:185-214 | a body with a password is refused; otherwise an invalid whitelisted part is refused, and a valid one succeeds and is set on the found student; a refusal changes nothing |
| StudentController.DeleteMe | controllers/studentController.js:216-223 | the student is deactivated and is then found by no query |
| StudentController.Logout | controllers/studentController.js:225-234 | jwtVersion increases by exactly 1, so no earlier session is current any more |
| StudentController.AllStudents | controllers/studentController.js:236-245 | exactly the visible students |
| StudentController.AllStudentsConcat | controllers/studentController.js:236-245 | the list keeps collection order: listing a + b lists a, then b |

## Left out

- Mongoose strict mode. `hasOnboard`, `jwtVersion`, `descriptor`, `faceDescriptor` and
  `initVector` are not declared in the student schema, so strict mode would drop writes to them.
  The model stores them as the handlers intend.
- A failed save is modelled by writing the loaded state back (`Student.RevertTo`). The model
  keeps one object per document, not a separate in-memory copy, so it does not capture a
  handler's later reads of its discarded copy; none of the handlers makes any.
- Validators other than password minLength, the confirmation validator, the user schema's
  required password fields, and (for updateMe) the first-name, last-name and gender update
  validators. Not modelled: required names and emails, email format, `unique`, and the stack
  and status enums.
- `populate` on attendance queries. An entry whose student was deleted, or deactivated by
  deleteMe (the pre-find hook hides it), populates to null. `s.studentId.equals` then throws:
  in loginFace for any such entry before the student's own (attendanceController.js:94-96),
  and in getAttendanceForStudent for any such entry it reaches (attendanceController.js:200-201,
  205-206). The model compares ids and does not raise these errors.
- Cast errors. A student or scheme id that is not an ObjectId makes `findById` throw
  (attendanceController.js:20 and 52, schemeController.js:20), and so do the queries on
  `cohortId` (attendanceController.js:138) and on `classDays.students.studentId` (192). The
  models of FindOne, FindScheme, AttendanceForCohort and AttendanceForStudent treat such an id
  as one that matches nothing. A missing id in deleteSchemeByName (schemeController.js:107,
  which wraps it as `{_id: id}`) is modelled as the cast error `SchemeIdCastFailed`.
- JsValues.ToLower: lower-cases ASCII letters only. JavaScript's `toLowerCase` also folds other
  letters, so "BAC\u212AEND" (with KELVIN SIGN) becomes "backend" and "İ" becomes "i̇" there,
  while the model leaves those characters unchanged.
- UserModel.User.CreatePasswordResetToken: the plaintext token is also written to the console
  (userModel.js:120); console output is not modelled.
- The user schema's find filter (userModel.js:88-91): no handler in this model queries users.
- The descriptor cipher, the distance function, bcrypt, sha256 and base64. These are
  parameters, so no property of the cryptography is claimed.
- JWT signing, cookies, the `protect` middleware and HTTP responses. A session is the
  (id, jwtVersion) pair that signToken signs. The password is cleared from the response only.
- Email delivery. It is a boolean input. In createCohort every admission email is assumed to be
  sent. A failure there would leave created students without a cohort.
- Concurrency of `Promise.all` in createCohort. Students are created in roster order.
- Request bodies. Each is a record of optional strings, or a string map for updateMe. Cells are
  optional strings. Non-string JSON values and ExcelJS cell types are not modelled.
- Calendar arithmetic. The model uses day numbers and `(d + 4) % 7` for the weekday, with no
  time zones.
- The Mongoose Number cast of `classDay`. Its outcome is an input: `dayQuery` in loginFace
  (attendanceController.js:71-73) and `parsed` in getAttendanceForClassDay, with None for a
  value the cast rejects, which fails as `ClassDayCastFailed`.
- Scheme documents. The model links them to cohorts only by `cohortNumber`, and `getAllScheme`
  (a plain find) is not modelled.
- StudentController.FilterObj: values are strings, as JSON bodies give them here.
- utils/webauthn.js, app.js, the routes and the cohort model are not part of this model.
