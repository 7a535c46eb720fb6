/**
 * The attendance handlers: face registration, face check-in against the ledger, and the
 * three read-only queries. The ledger is the sequence of attendance documents, one per
 * cohort, in collection order. The face match is an abstract distance compared with 0.6;
 * the cipher that stores a descriptor is an abstract function.
 */
module AttendanceController {
  import opened Wrappers
  import opened Search
  import opened JsValues
  import opened AttendanceModel
  import StudentModel

  /** A descriptor matches when its distance to the stored one is below this. */
  const MatchThreshold: real := 0.6
  /** The score a check-in grants. */
  const CheckInScore := 20

  datatype AttendanceError =
    | RegistrationDataRequired   // 400 "Student ID and Face data are required"
    | RegisterStudentNotFound    // 404 "Student not found"
    | FaceAlreadyRegistered      // 400
    | RegisterSaveFailed         // the save after registration rejected the document
    | FaceAndStudentIdRequired   // 400 "Face ID and student ID are required"
    | StudentNotFound            // 404 "Student not found."
    | FaceNotRegistered          // 400 "Student has not registered a Face."
    | InitVectorMissing          // Buffer.from(undefined) throws
    | FaceMismatch               // 400 "Face does not match"
    | ClassDayNotInSheets        // 404 "Class day not found in attendance sheet."
    | ClassDayEntryNotFound      // 404 "Class day entry not found in attendance sheet."
    | StudentNotInClassDay       // 404 "Student not found in attendance entry."
    | AlreadyPresent(firstName: Option<string>)  // 400
    | CohortIdRequired           // 400
    | NoAttendanceRecords        // 404
    | CohortAndDayRequired       // 400
    | ClassDayCastFailed         // Mongoose cannot cast classDay to a Number (a CastError)
    | AttendanceForDayNotFound   // 404
    | StudentIdRequired          // 400
    | NoRecordsForStudent        // 404, answered with status "fail"

  // ---------------------------------------------------------------------------
  // Positions in the ledger

  /** An entry's address: attendance document, class day within it, entry within that. */
  datatype Pos = Pos(sheet: nat, day: nat, entry: nat)

  predicate ValidPos(sheets: seq<Attendance>, p: Pos) {
    && p.sheet < |sheets|
    && p.day < |sheets[p.sheet].classDays|
    && p.entry < |sheets[p.sheet].classDays[p.day].students|
  }

  function EntryAt(sheets: seq<Attendance>, p: Pos): StudentAttendance
    requires ValidPos(sheets, p)
  {
    sheets[p.sheet].classDays[p.day].students[p.entry]
  }

  predicate SameDayShape(c: ClassDay, d: ClassDay) {
    && c.day == d.day
    && c.date == d.date
    && |c.students| == |d.students|
    && forall k :: 0 <= k < |c.students| ==> c.students[k].studentId == d.students[k].studentId
  }

  predicate SameSheetShape(x: Attendance, y: Attendance) {
    && x.cohortId == y.cohortId
    && |x.classDays| == |y.classDays|
    && forall j :: 0 <= j < |x.classDays| ==> SameDayShape(x.classDays[j], y.classDays[j])
  }

  /** Same documents, cohorts, class days, dates and enrolled students; entries may differ. */
  predicate SameShape(a: seq<Attendance>, b: seq<Attendance>) {
    && |a| == |b|
    && forall i :: 0 <= i < |a| ==> SameSheetShape(a[i], b[i])
  }

  /** Replace the entry at `p`, leaving every other part of the ledger as it was. */
  function SetEntry(sheets: seq<Attendance>, p: Pos, e: StudentAttendance): (r: seq<Attendance>)
    requires ValidPos(sheets, p)
    ensures |r| == |sheets| && ValidPos(r, p) && EntryAt(r, p) == e
    ensures forall q :: ValidPos(sheets, q) <==> ValidPos(r, q)
    ensures forall q :: ValidPos(sheets, q) && q != p ==> EntryAt(r, q) == EntryAt(sheets, q)
    ensures e.studentId == EntryAt(sheets, p).studentId ==> SameShape(sheets, r)
  {
    var a := sheets[p.sheet];
    var cd := a.classDays[p.day];
    sheets[p.sheet := a.(classDays := a.classDays[p.day := cd.(students := cd.students[p.entry := e])])]
  }

  // ---------------------------------------------------------------------------
  // loginFace

  predicate HasDay(a: Attendance, day: int) {
    exists j :: 0 <= j < |a.classDays| && a.classDays[j].day == day
  }

  /** `Attendance.findOne({"classDays.day": day})`: the first document holding a class day numbered `day`. */
  function FirstSheet(sheets: seq<Attendance>, day: int): (r: Option<nat>)
    ensures r.Some? ==> r.value < |sheets| && HasDay(sheets[r.value], day)
    ensures r.Some? ==> forall i :: 0 <= i < r.value ==> !HasDay(sheets[i], day)
    ensures r.None? <==> forall i :: 0 <= i < |sheets| ==> !HasDay(sheets[i], day)
  {
    FirstIndex(sheets, (a: Attendance) => HasDay(a, day))
  }

  /** `students.find(s => s.studentId.equals(sid))`: the student's first entry in a class day. */
  function FirstEntry(cd: ClassDay, sid: StudentId): (r: Option<nat>)
    ensures r.Some? ==> r.value < |cd.students| && cd.students[r.value].studentId == sid
    ensures r.Some? ==> forall k :: 0 <= k < r.value ==> cd.students[k].studentId != sid
    ensures r.None? <==> !Attends(cd, sid)
  {
    FirstIndex(cd.students, (e: StudentAttendance) => e.studentId == sid)
  }

  /**
   * The three finds of loginFace: the first document holding a class day numbered
   * `dayQuery` (the query's cast of classDay), within it the first class day whose number
   * is `dayParsed` (parseInt of classDay; None for NaN), within that the first entry of
   * the student. Each find that comes up empty has its own error.
   */
  function Locate(sheets: seq<Attendance>, dayQuery: int, dayParsed: Option<int>, sid: StudentId): (r: Result<Pos, AttendanceError>)
    ensures r.Ok? ==> ValidPos(sheets, r.value) && EntryAt(sheets, r.value).studentId == sid
    ensures r.Ok? ==> (HasDay(sheets[r.value.sheet], dayQuery)
      && dayParsed == Some(sheets[r.value.sheet].classDays[r.value.day].day))
    ensures r.Ok? ==> forall i :: 0 <= i < r.value.sheet ==> !HasDay(sheets[i], dayQuery)
    ensures r.Ok? ==> forall j :: 0 <= j < r.value.day ==> dayParsed != Some(sheets[r.value.sheet].classDays[j].day)
    ensures r.Ok? ==> forall k :: 0 <= k < r.value.entry ==>
      sheets[r.value.sheet].classDays[r.value.day].students[k].studentId != sid
    ensures r == Err(ClassDayNotInSheets) <==> forall i :: 0 <= i < |sheets| ==> !HasDay(sheets[i], dayQuery)
    ensures r == Err(ClassDayEntryNotFound) <==>
      (&& FirstSheet(sheets, dayQuery).Some?
       && (dayParsed.None? || !HasDay(sheets[FirstSheet(sheets, dayQuery).value], dayParsed.value)))
    ensures r == Err(StudentNotInClassDay) <==>
      (&& FirstSheet(sheets, dayQuery).Some? && dayParsed.Some?
       && var a := sheets[FirstSheet(sheets, dayQuery).value];
          HasDay(a, dayParsed.value) && !Attends(a.classDays[FirstDay(a, dayParsed.value)], sid))
    ensures r.Ok? <==>
      (&& FirstSheet(sheets, dayQuery).Some? && dayParsed.Some?
       && var a := sheets[FirstSheet(sheets, dayQuery).value];
          HasDay(a, dayParsed.value) && Attends(a.classDays[FirstDay(a, dayParsed.value)], sid))
    ensures r.Err? ==> r.error in {ClassDayNotInSheets, ClassDayEntryNotFound, StudentNotInClassDay}
  {
    match FirstSheet(sheets, dayQuery)
    case None => Err(ClassDayNotInSheets)
    case Some(i) =>
      if dayParsed.None? || !HasDay(sheets[i], dayParsed.value) then Err(ClassDayEntryNotFound)
      else
        var j := FirstDay(sheets[i], dayParsed.value);
        match FirstEntry(sheets[i].classDays[j], sid)
        case None => Err(StudentNotInClassDay)
        case Some(k) => Ok(Pos(i, j, k))
  }

  function MarkPresent(e: StudentAttendance, now: Millis): StudentAttendance {
    e.(status := Present, checkInTime := Some(now), score := CheckInScore)
  }

  /**
   * The ledger part of loginFace: locate the entry, refuse a student already Present, and
   * otherwise mark that one entry Present at `now` with score 20.
   */
  function CheckIn(sheets: seq<Attendance>, dayQuery: int, dayParsed: Option<int>, sid: StudentId,
                   firstName: Option<string>, now: Millis): (r: Result<seq<Attendance>, AttendanceError>)
    ensures Locate(sheets, dayQuery, dayParsed, sid).Err? ==> r == Err(Locate(sheets, dayQuery, dayParsed, sid).error)
    ensures Locate(sheets, dayQuery, dayParsed, sid).Ok? ==>
      var p := Locate(sheets, dayQuery, dayParsed, sid).value;
      && (r.Err? <==> EntryAt(sheets, p).status == Present)
      && (r.Err? ==> r.error == AlreadyPresent(firstName))
      && (r.Ok? ==>
            && SameShape(sheets, r.value)
            && EntryAt(r.value, p) == EntryAt(sheets, p).(status := Present, checkInTime := Some(now), score := CheckInScore)
            && forall q :: ValidPos(sheets, q) && q != p ==> EntryAt(r.value, q) == EntryAt(sheets, q))
  {
    match Locate(sheets, dayQuery, dayParsed, sid)
    case Err(e) => Err(e)
    case Ok(p) =>
      var entry := EntryAt(sheets, p);
      if entry.status == Present then Err(AlreadyPresent(firstName))
      else Ok(SetEntry(sheets, p, MarkPresent(entry, now)))
  }

  /** Whether two students' attendance documents answer `HasDay` alike. */
  lemma SameSheetShapeHasDay(x: Attendance, y: Attendance, day: int)
    requires SameSheetShape(x, y)
    ensures HasDay(x, day) == HasDay(y, day)
  {
    if HasDay(x, day) {
      var j :| 0 <= j < |x.classDays| && x.classDays[j].day == day;
      assert SameDayShape(x.classDays[j], y.classDays[j]);
    }
    if HasDay(y, day) {
      var j :| 0 <= j < |y.classDays| && y.classDays[j].day == day;
      assert SameDayShape(x.classDays[j], y.classDays[j]);
    }
  }

  /** The finds depend only on the ledger's shape, never on statuses or scores. */
  lemma {:induction false} LocateDependsOnShape(a: seq<Attendance>, b: seq<Attendance>, dayQuery: int, dayParsed: Option<int>, sid: StudentId)
    requires SameShape(a, b)
    ensures Locate(a, dayQuery, dayParsed, sid) == Locate(b, dayQuery, dayParsed, sid)
  {
    FirstSheetAgrees(a, b, dayQuery);
    var found := FirstSheet(a, dayQuery);
    if found.Some? && dayParsed.Some? {
      var i := found.value;
      FirstDayAgrees(a[i], b[i], dayParsed.value);
      if HasDay(a[i], dayParsed.value) {
        var j := FirstDay(a[i], dayParsed.value);
        FirstEntryAgrees(a[i].classDays[j], b[i].classDays[j], sid);
      }
    }
  }

  /** Ledgers of the same shape have the same first document holding a class day. */
  lemma FirstSheetAgrees(a: seq<Attendance>, b: seq<Attendance>, day: int)
    requires SameShape(a, b)
    ensures FirstSheet(a, day) == FirstSheet(b, day)
  {
    forall i | 0 <= i < |a|
      ensures HasDay(a[i], day) == HasDay(b[i], day)
    {
      SameSheetShapeHasDay(a[i], b[i], day);
    }
    var x, y := FirstSheet(a, day), FirstSheet(b, day);
    if x.Some? {
      assert HasDay(b[x.value], day);
    }
    if y.Some? {
      assert HasDay(a[y.value], day);
    }
  }

  /** Documents of the same shape hold the same class days, and the same first one of each number. */
  lemma FirstDayAgrees(x: Attendance, y: Attendance, day: int)
    requires SameSheetShape(x, y)
    ensures HasDay(x, day) == HasDay(y, day)
    ensures HasDay(x, day) ==> FirstDay(x, day) == FirstDay(y, day)
  {
    SameSheetShapeHasDay(x, y, day);
    if HasDay(x, day) {
      var j, j' := FirstDay(x, day), FirstDay(y, day);
      assert SameDayShape(x.classDays[j'], y.classDays[j']);
      assert SameDayShape(x.classDays[j], y.classDays[j]);
    }
  }

  /** Class days of the same shape list each student's first entry at the same place. */
  lemma FirstEntryAgrees(c: ClassDay, d: ClassDay, sid: StudentId)
    requires SameDayShape(c, d)
    ensures FirstEntry(c, sid) == FirstEntry(d, sid)
  {
    var x, y := FirstEntry(c, sid), FirstEntry(d, sid);
    if x.Some? {
      assert d.students[x.value].studentId == sid;
    }
    if y.Some? {
      assert c.students[y.value].studentId == sid;
    }
  }

  /**
   * A check-in happens once: after a successful check-in, the same student on the same
   * class day is refused as already Present, whatever the time, and the score is not
   * granted again.
   */
  lemma {:induction false} CheckInOnce(sheets: seq<Attendance>, dayQuery: int, dayParsed: Option<int>, sid: StudentId,
                                       firstName: Option<string>, now: Millis, later: Millis)
    requires CheckIn(sheets, dayQuery, dayParsed, sid, firstName, now).Ok?
    ensures CheckIn(CheckIn(sheets, dayQuery, dayParsed, sid, firstName, now).value, dayQuery, dayParsed, sid, firstName, later)
      == Err(AlreadyPresent(firstName))
  {
    var after := CheckIn(sheets, dayQuery, dayParsed, sid, firstName, now).value;
    LocateDependsOnShape(sheets, after, dayQuery, dayParsed, sid);
  }

  /** What the schema comment promises of an entry, together with the scores check-in grants. */
  predicate EntryInvariant(e: StudentAttendance) {
    && CheckInRecorded(e)
    && (e.status == Absent ==> e.score == 0)
    && (e.status == Present ==> e.score == CheckInScore)
  }

  ghost predicate LedgerInvariant(sheets: seq<Attendance>) {
    forall p :: ValidPos(sheets, p) ==> EntryInvariant(EntryAt(sheets, p))
  }

  /** Check-in keeps every entry consistent: a check-in time exactly on Present entries. */
  lemma CheckInPreservesInvariant(sheets: seq<Attendance>, dayQuery: int, dayParsed: Option<int>, sid: StudentId,
                                  firstName: Option<string>, now: Millis)
    requires LedgerInvariant(sheets)
    requires CheckIn(sheets, dayQuery, dayParsed, sid, firstName, now).Ok?
    ensures LedgerInvariant(CheckIn(sheets, dayQuery, dayParsed, sid, firstName, now).value)
  {
    var after := CheckIn(sheets, dayQuery, dayParsed, sid, firstName, now).value;
    var p := Locate(sheets, dayQuery, dayParsed, sid).value;
    forall q | ValidPos(after, q)
      ensures EntryInvariant(EntryAt(after, q))
    {
      assert ValidPos(sheets, q);
    }
  }

  lemma SetEntryCommutes(sheets: seq<Attendance>, p: Pos, e: StudentAttendance, q: Pos, f: StudentAttendance)
    requires ValidPos(sheets, p) && ValidPos(sheets, q) && p != q
    ensures SetEntry(SetEntry(sheets, p, e), q, f) == SetEntry(SetEntry(sheets, q, f), p, e)
  {
    var pq := SetEntry(SetEntry(sheets, p, e), q, f);
    var qp := SetEntry(SetEntry(sheets, q, f), p, e);
    assert |pq| == |qp|;
    forall i | 0 <= i < |pq|
      ensures pq[i] == qp[i]
    {
      if i == p.sheet || i == q.sheet {
        var x, y := pq[i], qp[i];
        assert |x.classDays| == |y.classDays|;
        forall j | 0 <= j < |x.classDays|
          ensures x.classDays[j] == y.classDays[j]
        {
          var c, d := x.classDays[j], y.classDays[j];
          assert |c.students| == |d.students|;
          forall k | 0 <= k < |c.students|
            ensures c.students[k] == d.students[k]
          {
            assert c.students[k] == EntryAt(pq, Pos(i, j, k));
            assert d.students[k] == EntryAt(qp, Pos(i, j, k));
          }
          assert c.students == d.students;
        }
        assert x.classDays == y.classDays;
      }
    }
  }

  /**
   * Check-ins of two different students do not interfere: whichever is handled first,
   * both succeed and the ledger ends the same, so neither update is lost.
   */
  lemma {:induction false} CheckInsCommute(sheets: seq<Attendance>, dayQuery: int, dayParsed: Option<int>,
                                           a: StudentId, b: StudentId, nameA: Option<string>, nameB: Option<string>,
                                           now: Millis)
    requires a != b
    requires CheckIn(sheets, dayQuery, dayParsed, a, nameA, now).Ok?
    requires CheckIn(sheets, dayQuery, dayParsed, b, nameB, now).Ok?
    ensures CheckIn(CheckIn(sheets, dayQuery, dayParsed, a, nameA, now).value, dayQuery, dayParsed, b, nameB, now).Ok?
    ensures CheckIn(CheckIn(sheets, dayQuery, dayParsed, b, nameB, now).value, dayQuery, dayParsed, a, nameA, now).Ok?
    ensures CheckIn(CheckIn(sheets, dayQuery, dayParsed, a, nameA, now).value, dayQuery, dayParsed, b, nameB, now).value
      == CheckIn(CheckIn(sheets, dayQuery, dayParsed, b, nameB, now).value, dayQuery, dayParsed, a, nameA, now).value
  {
    var pa := Locate(sheets, dayQuery, dayParsed, a).value;
    var pb := Locate(sheets, dayQuery, dayParsed, b).value;
    assert pa != pb by {
      assert EntryAt(sheets, pa).studentId != EntryAt(sheets, pb).studentId;
    }
    var afterA := CheckIn(sheets, dayQuery, dayParsed, a, nameA, now).value;
    var afterB := CheckIn(sheets, dayQuery, dayParsed, b, nameB, now).value;
    LocateDependsOnShape(sheets, afterA, dayQuery, dayParsed, b);
    LocateDependsOnShape(sheets, afterB, dayQuery, dayParsed, a);
    assert EntryAt(afterA, pb) == EntryAt(sheets, pb);
    assert EntryAt(afterB, pa) == EntryAt(sheets, pa);
    SetEntryCommutes(sheets, pa, MarkPresent(EntryAt(sheets, pa), now), pb, MarkPresent(EntryAt(sheets, pb), now));
  }

  /** A stored face template that the descriptor matches: below the distance threshold. */
  predicate FaceMatches(s: StudentModel.Student, descriptor: StudentModel.Descriptor,
                        faceDistance: (StudentModel.Descriptor, string, string) -> real)
    reads s
  {
    && Truthy(s.faceDescriptor) && s.initVector.Some?
    && faceDistance(descriptor, s.faceDescriptor.value, s.initVector.value) < MatchThreshold
  }

  /**
   * The checks loginFace makes before it reads any ledger: both inputs present, the
   * student found (deactivated students are not), a registered face, its stored vector,
   * and a distance below the threshold. The result is the student's index.
   */
  function FaceGate(students: seq<StudentModel.Student>, descriptor: Option<StudentModel.Descriptor>,
                    studentId: Option<string>,
                    faceDistance: (StudentModel.Descriptor, string, string) -> real): (r: Result<nat, AttendanceError>)
    reads students
    ensures descriptor.None? || !Truthy(studentId) ==> r == Err(FaceAndStudentIdRequired)
    ensures descriptor.Some? && Truthy(studentId) ==>
      (r == Err(StudentNotFound) <==> StudentModel.FindOne(students, StudentModel.ById(studentId.value)).None?)
    ensures r.Ok? ==> (descriptor.Some? && Truthy(studentId)
      && StudentModel.FindOne(students, StudentModel.ById(studentId.value)) == Some(r.value))
    ensures r.Ok? ==> (r.value < |students| && students[r.value].active
      && Truthy(students[r.value].faceDescriptor) && students[r.value].initVector.Some?
      && faceDistance(descriptor.value, students[r.value].faceDescriptor.value, students[r.value].initVector.value) < MatchThreshold)
    ensures r == Err(FaceMismatch) ==> (descriptor.Some? && Truthy(studentId)
      && StudentModel.FindOne(students, StudentModel.ById(studentId.value)).Some?
      && var s := students[StudentModel.FindOne(students, StudentModel.ById(studentId.value)).value];
         s.faceDescriptor.Some? && s.initVector.Some?
         && faceDistance(descriptor.value, s.faceDescriptor.value, s.initVector.value) >= MatchThreshold)
    ensures r.Ok? <==>
      (&& descriptor.Some? && Truthy(studentId)
       && StudentModel.FindOne(students, StudentModel.ById(studentId.value)).Some?
       && FaceMatches(students[StudentModel.FindOne(students, StudentModel.ById(studentId.value)).value], descriptor.value, faceDistance))
    ensures descriptor.Some? && Truthy(studentId) && StudentModel.FindOne(students, StudentModel.ById(studentId.value)).Some? ==>
      var s := students[StudentModel.FindOne(students, StudentModel.ById(studentId.value)).value];
      && (r == Err(FaceNotRegistered) <==> !Truthy(s.faceDescriptor))
      && (r == Err(InitVectorMissing) <==> Truthy(s.faceDescriptor) && s.initVector.None?)
      && ((Truthy(s.faceDescriptor) && s.initVector.Some?
             && faceDistance(descriptor.value, s.faceDescriptor.value, s.initVector.value) >= MatchThreshold)
            ==> r == Err(FaceMismatch))
  {
    if descriptor.None? || !Truthy(studentId) then Err(FaceAndStudentIdRequired)
    else match StudentModel.FindOne(students, StudentModel.ById(studentId.value))
      case None => Err(StudentNotFound)
      case Some(i) =>
        var s := students[i];
        if !Truthy(s.faceDescriptor) then Err(FaceNotRegistered)
        else if s.initVector.None? then Err(InitVectorMissing)
        else if faceDistance(descriptor.value, s.faceDescriptor.value, s.initVector.value) >= MatchThreshold then Err(FaceMismatch)
        else Ok(i)
  }

  /**
   * loginFace from request to outcome: the gate, then the check-in of the found student.
   * It succeeds exactly when both inputs are present, the student is found, the face
   * matches, the finds locate the student's entry and that entry is not yet Present; the
   * one entry is then marked Present at `now` with score 20 and nothing else changes. A
   * classDay that the query cannot cast to a Number (`dayQuery` None) fails the find.
   */
  function LoginFaceSpec(sheets: seq<Attendance>, students: seq<StudentModel.Student>,
                         descriptor: Option<StudentModel.Descriptor>, studentId: Option<string>,
                         dayQuery: Option<int>, dayParsed: Option<int>,
                         faceDistance: (StudentModel.Descriptor, string, string) -> real, now: Millis): (r: Result<seq<Attendance>, AttendanceError>)
    reads students
    ensures FaceGate(students, descriptor, studentId, faceDistance).Err? ==>
      r == Err(FaceGate(students, descriptor, studentId, faceDistance).error)
    ensures FaceGate(students, descriptor, studentId, faceDistance).Ok? && dayQuery.None? ==> r == Err(ClassDayCastFailed)
    ensures r.Ok? <==>
      (&& descriptor.Some? && Truthy(studentId)
       && StudentModel.FindOne(students, StudentModel.ById(studentId.value)).Some?
       && var s := students[StudentModel.FindOne(students, StudentModel.ById(studentId.value)).value];
          && FaceMatches(s, descriptor.value, faceDistance)
          && dayQuery.Some?
          && Locate(sheets, dayQuery.value, dayParsed, s.id).Ok?
          && EntryAt(sheets, Locate(sheets, dayQuery.value, dayParsed, s.id).value).status != Present)
    ensures r.Ok? ==>
      var s := students[StudentModel.FindOne(students, StudentModel.ById(studentId.value)).value];
      var p := Locate(sheets, dayQuery.value, dayParsed, s.id).value;
      && SameShape(sheets, r.value)
      && EntryAt(r.value, p) == EntryAt(sheets, p).(status := Present, checkInTime := Some(now), score := CheckInScore)
      && forall q :: ValidPos(sheets, q) && q != p ==> EntryAt(r.value, q) == EntryAt(sheets, q)
  {
    match FaceGate(students, descriptor, studentId, faceDistance)
    case Err(e) => Err(e)
    case Ok(i) =>
      if dayQuery.None? then Err(ClassDayCastFailed)
      else CheckIn(sheets, dayQuery.value, dayParsed, students[i].id, students[i].firstName, now)
  }

  // ---------------------------------------------------------------------------
  // Read-only queries

  /** getAttendance: every document of the cohort, in collection order; none is an error. */
  function AttendanceForCohort(sheets: seq<Attendance>, cohortId: Option<string>): (r: Result<seq<Attendance>, AttendanceError>)
    ensures !Truthy(cohortId) ==> r == Err(CohortIdRequired)
    ensures Truthy(cohortId) ==>
      (r == Err(NoAttendanceRecords) <==> forall i :: 0 <= i < |sheets| ==> sheets[i].cohortId != cohortId.value)
    ensures r.Ok? ==> (|r.value| > 0
      && (forall i :: 0 <= i < |r.value| ==> r.value[i] in sheets && r.value[i].cohortId == cohortId.value)
      && (forall i :: 0 <= i < |sheets| && sheets[i].cohortId == cohortId.value ==> sheets[i] in r.value))
    ensures Truthy(cohortId) && (exists i :: 0 <= i < |sheets| && sheets[i].cohortId == cohortId.value) ==> r.Ok?
    ensures r.Ok? ==> forall x :: multiset(r.value)[x] == if x.cohortId == cohortId.value then multiset(sheets)[x] else 0
    ensures r.Ok? ==> r.value == Filter(sheets, (a: Attendance) => a.cohortId == cohortId.value)
  {
    if !Truthy(cohortId) then Err(CohortIdRequired)
    else
      var found := Filter(sheets, (a: Attendance) => a.cohortId == cohortId.value);
      FilterCounts(sheets, (a: Attendance) => a.cohortId == cohortId.value);
      if |found| == 0 then Err(NoAttendanceRecords)
      else
        assert found[0] in sheets;
        Ok(found)
  }

  /**
   * getAttendanceForClassDay: the first document of the cohort that holds the class day,
   * and in it the first class day with that number. The source's second not-found check
   * cannot fire, since the document was selected for holding that day.
   */
  function AttendanceForClassDay(sheets: seq<Attendance>, cohortId: Option<string>, classDay: Option<string>,
                                 parsed: Option<int>): (r: Result<ClassDay, AttendanceError>)
    ensures !Truthy(cohortId) || !Truthy(classDay) ==> r == Err(CohortAndDayRequired)
    ensures Truthy(cohortId) && Truthy(classDay) && parsed.None? ==> r == Err(ClassDayCastFailed)
    ensures r.Ok? <==> (Truthy(cohortId) && Truthy(classDay) && parsed.Some?
      && exists i :: 0 <= i < |sheets| && sheets[i].cohortId == cohortId.value && HasDay(sheets[i], parsed.value))
    ensures r.Ok? ==> (r.value.day == parsed.value
      && exists i :: 0 <= i < |sheets| && sheets[i].cohortId == cohortId.value && r.value in sheets[i].classDays)
    ensures r.Ok? ==> exists i ::
      && 0 <= i < |sheets| && sheets[i].cohortId == cohortId.value && HasDay(sheets[i], parsed.value)
      && (forall i' :: 0 <= i' < i ==> !(sheets[i'].cohortId == cohortId.value && HasDay(sheets[i'], parsed.value)))
      && r.value == sheets[i].classDays[FirstDay(sheets[i], parsed.value)]
  {
    if !Truthy(cohortId) || !Truthy(classDay) then Err(CohortAndDayRequired)
    else if parsed.None? then Err(ClassDayCastFailed)
    else
      var d := parsed.value;
      match FirstIndex(sheets, (a: Attendance) => a.cohortId == cohortId.value && HasDay(a, d))
      case None => Err(AttendanceForDayNotFound)
      case Some(i) => Ok(sheets[i].classDays[FirstDay(sheets[i], d)])
  }

  /** The index of the first class day numbered `day`, in a document known to hold one. */
  function FirstDay(a: Attendance, day: int): (j: int)
    requires HasDay(a, day)
    ensures 0 <= j < |a.classDays| && a.classDays[j].day == day
    ensures forall k :: 0 <= k < j ==> a.classDays[k].day != day
  {
    var found := FirstIndex(a.classDays, (cd: ClassDay) => cd.day == day);
    if found.Some? then found.value
    else
      assert false;
      0
  }

  /** One row of a student's attendance history. */
  datatype HistoryRow = HistoryRow(classDay: int, date: Day, status: Status, score: int)

  predicate Attends(cd: ClassDay, sid: StudentId) {
    exists k :: 0 <= k < |cd.students| && cd.students[k].studentId == sid
  }

  /** The row for a class day the student attends: their first entry's status and score. */
  function RowOf(cd: ClassDay, sid: StudentId): (row: HistoryRow)
    requires Attends(cd, sid)
    ensures row.classDay == cd.day && row.date == cd.date
    ensures exists k :: (0 <= k < |cd.students| && cd.students[k].studentId == sid
      && (forall k' :: 0 <= k' < k ==> cd.students[k'].studentId != sid)
      && row.status == cd.students[k].status && row.score == cd.students[k].score)
  {
    var found := FirstEntry(cd, sid);
    if found.Some? then
      var e := cd.students[found.value];
      HistoryRow(cd.day, cd.date, e.status, e.score)
    else
      assert false;
      HistoryRow(cd.day, cd.date, Absent, 0)
  }

  /** classDays.filter(attended).map(row) for one document: a row per attended day, none for the others. */
  function DayRows(days: seq<ClassDay>, sid: StudentId): (rows: seq<HistoryRow>)
    ensures |rows| <= |days|
    ensures |rows| == 0 <==> forall j :: 0 <= j < |days| ==> !Attends(days[j], sid)
    ensures forall r :: r in rows ==> exists j :: 0 <= j < |days| && r.classDay == days[j].day && r.date == days[j].date
  {
    if |days| == 0 then []
    else
      var rest := DayRows(days[1..], sid);
      assert forall j :: 0 < j < |days| ==> days[j] == days[1..][j - 1];
      (if Attends(days[0], sid) then [RowOf(days[0], sid)] else []) + rest
  }

  /** The rows of every document, flattened in collection order. */
  function History(sheets: seq<Attendance>, sid: StudentId): (rows: seq<HistoryRow>)
    ensures |rows| == 0 <==>
      forall i, j :: 0 <= i < |sheets| && 0 <= j < |sheets[i].classDays| ==> !Attends(sheets[i].classDays[j], sid)
  {
    if |sheets| == 0 then []
    else
      var rest := History(sheets[1..], sid);
      assert forall i :: 0 < i < |sheets| ==> sheets[i] == sheets[1..][i - 1];
      DayRows(sheets[0].classDays, sid) + rest
  }

  predicate HoldsStudent(a: Attendance, sid: StudentId) {
    exists j :: 0 <= j < |a.classDays| && Attends(a.classDays[j], sid)
  }

  lemma {:induction false} DayRowsMember(days: seq<ClassDay>, sid: StudentId, row: HistoryRow)
    ensures row in DayRows(days, sid) <==>
      exists j :: 0 <= j < |days| && Attends(days[j], sid) && row == RowOf(days[j], sid)
    decreases |days|
  {
    if |days| > 0 {
      DayRowsMember(days[1..], sid, row);
      if row in DayRows(days[1..], sid) {
        var j :| 0 <= j < |days[1..]| && Attends(days[1..][j], sid) && row == RowOf(days[1..][j], sid);
        assert days[j + 1] == days[1..][j];
      }
      if exists j :: 0 <= j < |days| && Attends(days[j], sid) && row == RowOf(days[j], sid) {
        var j :| 0 <= j < |days| && Attends(days[j], sid) && row == RowOf(days[j], sid);
        if j > 0 {
          assert days[1..][j - 1] == days[j];
        }
      }
    }
  }

  /**
   * Exactly the class days the student attends appear in the history, each as the row of
   * that day: a row is in the history iff some document holds a class day the student
   * attends whose row it is.
   */
  lemma {:induction false} HistoryMember(sheets: seq<Attendance>, sid: StudentId, row: HistoryRow)
    ensures row in History(sheets, sid) <==>
      exists i, j :: 0 <= i < |sheets| && 0 <= j < |sheets[i].classDays|
        && Attends(sheets[i].classDays[j], sid) && row == RowOf(sheets[i].classDays[j], sid)
    decreases |sheets|
  {
    if |sheets| > 0 {
      var rest := sheets[1..];
      DayRowsMember(sheets[0].classDays, sid, row);
      HistoryMember(rest, sid, row);
      assert History(sheets, sid) == DayRows(sheets[0].classDays, sid) + History(rest, sid);
      if row in History(rest, sid) {
        var i, j :| 0 <= i < |rest| && 0 <= j < |rest[i].classDays|
          && Attends(rest[i].classDays[j], sid) && row == RowOf(rest[i].classDays[j], sid);
        assert sheets[i + 1] == rest[i];
      }
      if exists i, j :: 0 <= i < |sheets| && 0 <= j < |sheets[i].classDays|
          && Attends(sheets[i].classDays[j], sid) && row == RowOf(sheets[i].classDays[j], sid) {
        var i, j :| 0 <= i < |sheets| && 0 <= j < |sheets[i].classDays|
          && Attends(sheets[i].classDays[j], sid) && row == RowOf(sheets[i].classDays[j], sid);
        if i > 0 {
          assert rest[i - 1] == sheets[i];
        }
      }
    }
  }

  /** Rows keep document order: the history of two runs of documents is the two histories joined. */
  lemma {:induction false} HistoryConcat(a: seq<Attendance>, b: seq<Attendance>, sid: StudentId)
    ensures History(a + b, sid) == History(a, sid) + History(b, sid)
    decreases |a|
  {
    if |a| > 0 {
      assert (a + b)[1..] == a[1..] + b;
      HistoryConcat(a[1..], b, sid);
    } else {
      assert a + b == b;
    }
  }

  /** The rows of a document are the rows of its attended class days, one each, in class-day order. */
  lemma {:induction false} DayRowsInDayOrder(days: seq<ClassDay>, sid: StudentId)
    ensures var attended := Filter(days, (cd: ClassDay) => Attends(cd, sid));
      && |DayRows(days, sid)| == |attended|
      && forall k :: 0 <= k < |attended| ==> DayRows(days, sid)[k] == RowOf(attended[k], sid)
    decreases |days|
  {
    if |days| > 0 {
      DayRowsInDayOrder(days[1..], sid);
    }
  }

  /** The rows of two runs of class days are the rows of the first followed by those of the second. */
  lemma {:induction false} DayRowsConcat(a: seq<ClassDay>, b: seq<ClassDay>, sid: StudentId)
    ensures DayRows(a + b, sid) == DayRows(a, sid) + DayRows(b, sid)
    decreases |a|
  {
    if |a| > 0 {
      assert (a + b)[1..] == a[1..] + b;
      DayRowsConcat(a[1..], b, sid);
    } else {
      assert a + b == b;
    }
  }

  lemma {:induction false} NoAttendanceNoRows(days: seq<ClassDay>, sid: StudentId)
    requires forall j :: 0 <= j < |days| ==> !Attends(days[j], sid)
    ensures DayRows(days, sid) == []
    decreases |days|
  {
    if |days| > 0 {
      NoAttendanceNoRows(days[1..], sid);
    }
  }

  /**
   * The query's filter on `classDays.students.studentId` drops only documents that
   * contribute no rows, so it does not change the history.
   */
  lemma {:induction false} PrefilterKeepsHistory(sheets: seq<Attendance>, sid: StudentId, keep: Attendance -> bool)
    requires forall a :: HoldsStudent(a, sid) ==> keep(a)
    ensures History(Filter(sheets, keep), sid) == History(sheets, sid)
    decreases |sheets|
  {
    if |sheets| > 0 {
      var rest := Filter(sheets[1..], keep);
      PrefilterKeepsHistory(sheets[1..], sid, keep);
      var kept := Filter(sheets, keep);
      if keep(sheets[0]) {
        assert kept == [sheets[0]] + rest;
        assert kept[0] == sheets[0] && kept[1..] == rest;
      } else {
        assert kept == rest;
        NoAttendanceNoRows(sheets[0].classDays, sid);
      }
    }
  }

  /**
   * getAttendanceForStudent: the history over the documents the query selects; an empty
   * history is answered as a failure.
   */
  function AttendanceForStudent(sheets: seq<Attendance>, studentId: Option<string>): (r: Result<seq<HistoryRow>, AttendanceError>)
    ensures !Truthy(studentId) ==> r == Err(StudentIdRequired)
    ensures Truthy(studentId) ==> (r.Ok? <==>
      exists i, j :: 0 <= i < |sheets| && 0 <= j < |sheets[i].classDays| && Attends(sheets[i].classDays[j], studentId.value))
    ensures r.Ok? ==> r.value == History(sheets, studentId.value) && |r.value| > 0
  {
    if !Truthy(studentId) then Err(StudentIdRequired)
    else
      var sid := studentId.value;
      var holds := (a: Attendance) => HoldsStudent(a, sid);
      var rows := History(Filter(sheets, holds), sid);
      PrefilterKeepsHistory(sheets, sid, holds);
      if |rows| == 0 then Err(NoRecordsForStudent)
      else
        HistoryMember(sheets, sid, rows[0]);
        Ok(rows)
  }

  // ---------------------------------------------------------------------------
  // The ledger as the handlers change it

  class AttendanceBook {
    var sheets: seq<Attendance>

    constructor (sheets: seq<Attendance>)
      ensures this.sheets == sheets
    {
      this.sheets := sheets;
    }

    /**
     * loginFace: the gate, the three finds, the Present guard, then the in-place update of
     * the one entry. Returns the greeted first name.
     */
    method LoginFace(students: seq<StudentModel.Student>, descriptor: Option<StudentModel.Descriptor>,
                     studentId: Option<string>, dayQuery: Option<int>, dayParsed: Option<int>,
                     faceDistance: (StudentModel.Descriptor, string, string) -> real, now: Millis)
      returns (r: Result<Option<string>, AttendanceError>)
      modifies this
      ensures var spec := LoginFaceSpec(old(sheets), students, descriptor, studentId, dayQuery, dayParsed, faceDistance, now);
        && (r.Ok? <==> spec.Ok?)
        && (spec.Ok? ==> sheets == spec.value)
        && (spec.Err? ==> r == Err(spec.error) && sheets == old(sheets))
      ensures r.Ok? ==> r.value == students[FaceGate(students, descriptor, studentId, faceDistance).value].firstName
    {
      var gate := FaceGate(students, descriptor, studentId, faceDistance);
      if gate.Err? {
        return Err(gate.error);
      }
      var student := students[gate.value];
      if dayQuery.None? {
        return Err(ClassDayCastFailed);
      }
      var located := Locate(sheets, dayQuery.value, dayParsed, student.id);
      if located.Err? {
        return Err(located.error);
      }
      var p := located.value;
      var entry := EntryAt(sheets, p);
      if entry.status == Present {
        return Err(AlreadyPresent(student.firstName));
      }
      sheets := SetEntry(sheets, p, MarkPresent(entry, now));
      r := Ok(student.firstName);
    }
  }

  /**
   * registerFace: both inputs present, the student found, the guard on `descriptor` (a
   * field no handler writes, so a student with a registered face is re-registered), then
   * the stored vector and cipher text are written together and the document saved. A
   * rejected save stores nothing.
   */
  method RegisterFace(students: seq<StudentModel.Student>, studentId: Option<string>,
                      descriptor: Option<StudentModel.Descriptor>, iv: string,
                      base64: string -> string, encrypt: (StudentModel.Descriptor, string) -> string,
                      bcrypt: string -> string, now: Millis)
    returns (r: Outcome<AttendanceError>)
    modifies students
    ensures r == Fail(RegistrationDataRequired) <==> !Truthy(studentId) || descriptor.None?
    ensures r == Fail(RegisterStudentNotFound) <==>
      Truthy(studentId) && descriptor.Some? && old(StudentModel.FindOne(students, StudentModel.ById(studentId.value))).None?
    ensures Truthy(studentId) && descriptor.Some? && old(StudentModel.FindOne(students, StudentModel.ById(studentId.value))).Some?
      && old(students[StudentModel.FindOne(students, StudentModel.ById(studentId.value)).value].descriptor).None?
      ==> r.Pass? || r == Fail(RegisterSaveFailed)
    ensures r.Fail? && r.error != RegisterSaveFailed ==> forall s :: s in students ==> unchanged(s)
    ensures r == Fail(FaceAlreadyRegistered) <==>
      && Truthy(studentId) && descriptor.Some?
      && old(StudentModel.FindOne(students, StudentModel.ById(studentId.value))).Some?
      && old(students[StudentModel.FindOne(students, StudentModel.ById(studentId.value)).value].descriptor).Some?
    ensures r.Pass? || r == Fail(RegisterSaveFailed) ==>
      && Truthy(studentId) && descriptor.Some?
      && old(StudentModel.FindOne(students, StudentModel.ById(studentId.value))).Some?
      && var i := old(StudentModel.FindOne(students, StudentModel.ById(studentId.value))).value;
         var before := old(students[i].State());
         var written := before.(initVector := Some(base64(iv)), faceDescriptor := Some(encrypt(descriptor.value, iv)));
         && before.descriptor.None?
         && (r.Pass? <==> StudentModel.SaveStudent(written, true, bcrypt, now).Ok?)
         && (r.Pass? ==> students[i].State() == StudentModel.SaveStudent(written, true, bcrypt, now).value)
         && (r.Fail? ==> students[i].State() == before)
         && forall s :: s in students && s != students[i] ==> unchanged(s)
  {
    if !Truthy(studentId) || descriptor.None? {
      return Fail(RegistrationDataRequired);
    }
    var found := StudentModel.FindOne(students, StudentModel.ById(studentId.value));
    if found.None? {
      return Fail(RegisterStudentNotFound);
    }
    var student := students[found.value];
    if student.descriptor.Some? {
      return Fail(FaceAlreadyRegistered);
    }
    var loaded := student.State();
    student.SetFaceTemplate(base64(iv), encrypt(descriptor.value, iv));
    var saved := student.Save(true, bcrypt, now);
    if saved.Fail? {
      student.RevertTo(loaded);
      return Fail(RegisterSaveFailed);
    }
    r := Pass;
  }
}
