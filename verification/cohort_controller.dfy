/**
 * createCohort: read the roster from the uploaded worksheet, refuse an existing cohort
 * number, then create the cohort's empty scheme, one student per roster row (each with a
 * fresh admission code), the cohort itself, and its attendance document with a Monday,
 * Wednesday and Friday class day for every date from start to end.
 *
 * Dates are whole days counted from 1970-01-01, a Thursday, so the weekday of day `d`
 * (0 = Sunday) is `(d + 4) % 7`.
 */
module CohortController {
  import opened Wrappers
  import opened Search
  import Hex
  import opened AttendanceModel
  import opened SchemeModel
  import StudentModel
  import PasswordPolicy
  import JsValues

  // ---------------------------------------------------------------------------
  // The roster

  /** A worksheet row as eachRow yields it: its 1-based number and its cell values. */
  datatype Row = Row(number: int, cells: seq<Option<string>>)

  /** `row.getCell(column).value`, columns counted from 1; a cell past the end is empty. */
  function Cell(row: Row, column: nat): Option<string> {
    if 1 <= column <= |row.cells| then row.cells[column - 1] else None
  }

  datatype RosterEntry = RosterEntry(
    firstName: Option<string>,
    lastName: Option<string>,
    email: Option<string>,
    stack: Option<string>,
    gender: Option<string>)

  /** Columns 1 to 5 are first name, last name, email, stack and gender. */
  function EntryOf(row: Row): (e: RosterEntry)
    ensures e.firstName == Cell(row, 1) && e.lastName == Cell(row, 2) && e.email == Cell(row, 3)
    ensures e.stack == Cell(row, 4) && e.gender == Cell(row, 5)
  {
    RosterEntry(Cell(row, 1), Cell(row, 2), Cell(row, 3), Cell(row, 4), Cell(row, 5))
  }

  /** The entries of every row numbered above 1, in row order. */
  function Roster(rows: seq<Row>): seq<RosterEntry> {
    if |rows| == 0 then []
    else Roster(rows[..|rows| - 1]) + (if rows[|rows| - 1].number > 1 then [EntryOf(rows[|rows| - 1])] else [])
  }

  /** The eachRow callback over the worksheet: skip row 1, push one entry per other row. */
  method ReadRoster(rows: seq<Row>) returns (roster: seq<RosterEntry>)
    ensures roster == Roster(rows)
  {
    roster := [];
    var i := 0;
    while i < |rows|
      invariant 0 <= i <= |rows|
      invariant roster == Roster(rows[..i])
    {
      assert rows[..i + 1][..i] == rows[..i];
      if rows[i].number > 1 {
        roster := roster + [EntryOf(rows[i])];
      }
      i := i + 1;
    }
    assert rows[..|rows|] == rows;
  }

  /**
   * With a header in row 1 and rows numbered in increasing order, the roster is every row
   * after the first, in order.
   */
  lemma {:induction false} RosterSkipsHeader(rows: seq<Row>)
    requires |rows| > 0 && rows[0].number == 1
    requires forall i, j :: 0 <= i < j < |rows| ==> rows[i].number < rows[j].number
    ensures |Roster(rows)| == |rows| - 1
    ensures forall k :: 0 <= k < |rows| - 1 ==> Roster(rows)[k] == EntryOf(rows[k + 1])
    decreases |rows|
  {
    if |rows| > 1 {
      var init := rows[..|rows| - 1];
      RosterSkipsHeader(init);
      assert rows[|rows| - 1].number > rows[0].number;
    }
  }

  // ---------------------------------------------------------------------------
  // Class-day generation

  function Weekday(d: Day): (w: int)
    ensures 0 <= w < 7
  {
    (d + 4) % 7
  }

  /** Monday, Wednesday and Friday. */
  const ClassWeekdays: set<int> := {1, 3, 5}

  predicate IsClassDate(d: Day) {
    Weekday(d) in ClassWeekdays
  }

  /** `students.map(s => ({studentId: s._id, status: "Absent"}))`. */
  function Seeds(enrolled: seq<StudentId>): (r: seq<StudentAttendance>)
    ensures |r| == |enrolled|
    ensures forall i :: 0 <= i < |r| ==> r[i] == SeedEntry(enrolled[i])
  {
    if |enrolled| == 0 then [] else [SeedEntry(enrolled[0])] + Seeds(enrolled[1..])
  }

  /**
   * What the generation loop produces: class days numbered 1, 2, ... in increasing date
   * order, whose dates are exactly the Mondays, Wednesdays and Fridays from start to end,
   * each listing every enrolled student, in order, as Absent.
   */
  predicate IsSchedule(classDays: seq<ClassDay>, start: Day, end: Day, enrolled: seq<StudentId>) {
    && (forall i :: 0 <= i < |classDays| ==>
          && classDays[i].day == i + 1
          && start <= classDays[i].date <= end
          && IsClassDate(classDays[i].date)
          && classDays[i].students == Seeds(enrolled))
    && (forall i, j :: 0 <= i < j < |classDays| ==> classDays[i].date < classDays[j].date)
    && (forall d :: start <= d <= end && IsClassDate(d) ==>
          exists i :: 0 <= i < |classDays| && classDays[i].date == d)
  }

  /** The `while (start <= end)` loop. */
  method GenerateClassDays(start: Day, end: Day, enrolled: seq<StudentId>) returns (classDays: seq<ClassDay>)
    ensures IsSchedule(classDays, start, end, enrolled)
    ensures start > end ==> classDays == []
  {
    classDays := [];
    ghost var dates: seq<Day> := [];
    var d := start;
    while d <= end
      invariant start <= d && (start <= end ==> d <= end + 1)
      invariant start > end ==> classDays == []
      invariant |dates| == |classDays|
      invariant forall i :: 0 <= i < |classDays| ==> dates[i] == classDays[i].date
      invariant forall i :: 0 <= i < |classDays| ==>
        && classDays[i].day == i + 1
        && start <= classDays[i].date < d
        && IsClassDate(classDays[i].date)
        && classDays[i].students == Seeds(enrolled)
      invariant forall i, j :: 0 <= i < j < |classDays| ==> classDays[i].date < classDays[j].date
      invariant forall x :: start <= x < d && IsClassDate(x) ==> x in dates
      decreases end - d
    {
      if IsClassDate(d) {
        classDays := classDays + [ClassDay(|classDays| + 1, d, Seeds(enrolled))];
        dates := dates + [d];
      }
      d := d + 1;
    }
    CoveredDates(classDays, dates, start, end);
  }

  /** Every date the loop passed is in `dates`, which lists the class days' dates. */
  lemma CoveredDates(classDays: seq<ClassDay>, dates: seq<Day>, start: Day, end: Day)
    requires |dates| == |classDays|
    requires forall i :: 0 <= i < |classDays| ==> dates[i] == classDays[i].date
    requires forall x :: start <= x <= end && IsClassDate(x) ==> x in dates
    ensures forall x :: start <= x <= end && IsClassDate(x) ==>
      exists i :: 0 <= i < |classDays| && classDays[i].date == x
  {
    forall x | start <= x <= end && IsClassDate(x)
      ensures exists i :: 0 <= i < |classDays| && classDays[i].date == x
    {
      var i :| 0 <= i < |dates| && dates[i] == x;
      assert classDays[i].date == x;
    }
  }

  /** The last class day of a schedule carries its latest class date. */
  lemma LastIsLatest(a: seq<ClassDay>, start: Day, end: Day, enrolled: seq<StudentId>, d: Day)
    requires IsSchedule(a, start, end, enrolled) && |a| > 0
    requires start <= d <= end && IsClassDate(d)
    ensures d <= a[|a| - 1].date
  {
    var i :| 0 <= i < |a| && a[i].date == d;
    if i < |a| - 1 {
      assert a[i].date < a[|a| - 1].date;
    }
  }

  /** Without its last class day, a schedule is the schedule up to the day before that one. */
  lemma DropLast(a: seq<ClassDay>, start: Day, end: Day, enrolled: seq<StudentId>)
    requires IsSchedule(a, start, end, enrolled) && |a| > 0
    ensures IsSchedule(a[..|a| - 1], start, a[|a| - 1].date - 1, enrolled)
  {
    var a' := a[..|a| - 1];
    var end' := a[|a| - 1].date - 1;
    forall i | 0 <= i < |a'|
      ensures a'[i].date <= end'
    {
      assert a[i].date < a[|a| - 1].date;
    }
    forall d | start <= d <= end' && IsClassDate(d)
      ensures exists i :: 0 <= i < |a'| && a'[i].date == d
    {
      var i :| 0 <= i < |a| && a[i].date == d;
      assert i != |a| - 1;
      assert a'[i].date == d;
    }
  }

  /** A schedule is empty exactly when the range holds no class date. */
  lemma ScheduleEmptyIff(a: seq<ClassDay>, start: Day, end: Day, enrolled: seq<StudentId>)
    requires IsSchedule(a, start, end, enrolled)
    ensures |a| > 0 <==> exists d :: start <= d <= end && IsClassDate(d)
  {
    if |a| > 0 {
      assert start <= a[0].date <= end && IsClassDate(a[0].date);
    }
  }

  /** Two schedules of the same range end on the same class date. */
  lemma SameLastDate(a: seq<ClassDay>, b: seq<ClassDay>, start: Day, end: Day, enrolled: seq<StudentId>)
    requires IsSchedule(a, start, end, enrolled) && IsSchedule(b, start, end, enrolled)
    requires |a| > 0 && |b| > 0
    ensures a[|a| - 1].date == b[|b| - 1].date
  {
    LastIsLatest(b, start, end, enrolled, a[|a| - 1].date);
    LastIsLatest(a, start, end, enrolled, b[|b| - 1].date);
  }

  /** Two schedules that agree but for their last class days, ending on the same date, agree. */
  lemma SameLast(a: seq<ClassDay>, b: seq<ClassDay>, start: Day, end: Day, enrolled: seq<StudentId>)
    requires IsSchedule(a, start, end, enrolled) && IsSchedule(b, start, end, enrolled)
    requires |a| > 0 && |b| > 0 && a[..|a| - 1] == b[..|b| - 1]
    requires a[|a| - 1].date == b[|b| - 1].date
    ensures a == b
  {
    assert |a| == |b|;
    assert a[|a| - 1] == b[|b| - 1];
    assert a == a[..|a| - 1] + [a[|a| - 1]];
    assert b == b[..|b| - 1] + [b[|b| - 1]];
  }

  /**
   * Two lists that both meet the schedule's description are the same list: the
   * description leaves the loop nothing to choose.
   */
  lemma {:induction false} ScheduleIsUnique(a: seq<ClassDay>, b: seq<ClassDay>, start: Day, end: Day, enrolled: seq<StudentId>)
    requires IsSchedule(a, start, end, enrolled) && IsSchedule(b, start, end, enrolled)
    ensures a == b
    decreases |a| + |b|
  {
    ScheduleEmptyIff(a, start, end, enrolled);
    ScheduleEmptyIff(b, start, end, enrolled);
    if |a| > 0 {
      SameLastDate(a, b, start, end, enrolled);
      DropLast(a, start, end, enrolled);
      DropLast(b, start, end, enrolled);
      ScheduleIsUnique(a[..|a| - 1], b[..|b| - 1], start, a[|a| - 1].date - 1, enrolled);
      SameLast(a, b, start, end, enrolled);
    }
  }

  // ---------------------------------------------------------------------------
  // Admission codes

  /** generateAdmissionCode: four random bytes (an input here) as eight hex digits. */
  function AdmissionCode(random: seq<Hex.Byte>): (code: string)
    requires |random| == 4
    ensures |code| == 8 && Hex.IsHexString(code)
    ensures Hex.Decode(code) == Some(random)
  {
    Hex.DecodeEncode(random);
    Hex.Encode(random)
  }

  // ---------------------------------------------------------------------------
  // createCohort

  /** The request body's cohort details. */
  datatype CohortInput = CohortInput(cohortNumber: int, startDate: Day, endDate: Day)

  datatype CohortRecord = CohortRecord(id: CohortId, cohortNumber: int, startDate: Day, endDate: Day, cohortStatus: string)

  datatype CohortError = CohortExists   // 400 "Cohort already exists"

  /**
   * A roster entry as Student.create stores it: names and stack copied, the email through
   * the schema's lowercase setter, gender read from the sheet but not passed.
   */
  function Admitted(e: RosterEntry, code: string, cohortNumber: int): (st: StudentModel.StudentState)
    ensures st.gender.None? && st.password.None? && !st.hasOnboard && st.active && !st.isNew
    ensures st.admissionCode == code && st.cohort == cohortNumber
    ensures st.firstName == e.firstName && st.lastName == e.lastName && st.stack == e.stack
    ensures st.email == JsValues.Lowercased(e.email)
  {
    StudentModel.StudentState(e.firstName, e.lastName, JsValues.Lowercased(e.email), code, cohortNumber, "active", e.stack,
      None, None, None, None, None, None, true, false, 0, None, None, None, false, {})
  }

  /** `Student.find({cohort})`: the ids of the cohort's visible students, in collection order. */
  function Enrolled(students: seq<StudentModel.Student>, cohortNumber: int): (ids: seq<StudentId>)
    reads students
    ensures |ids| <= |students|
    ensures forall id :: id in ids <==>
      exists i :: 0 <= i < |students| && students[i].id == id && students[i].active && students[i].cohort == cohortNumber
  {
    if |students| == 0 then []
    else
      var s := students[0];
      var rest := Enrolled(students[1..], cohortNumber);
      assert forall i :: 0 < i < |students| ==> students[i] == students[1..][i - 1];
      (if s.active && s.cohort == cohortNumber then [s.id] else []) + rest
  }

  /** The ids keep the collection's order: enrolment over two runs of documents is each run's in turn. */
  lemma {:induction false} EnrolledConcat(a: seq<StudentModel.Student>, b: seq<StudentModel.Student>, cohortNumber: int)
    ensures Enrolled(a + b, cohortNumber) == Enrolled(a, cohortNumber) + Enrolled(b, cohortNumber)
    decreases |a|
  {
    if |a| == 0 {
      assert a + b == b;
    } else {
      assert (a + b)[1..] == a[1..] + b;
      EnrolledConcat(a[1..], b, cohortNumber);
    }
  }

  /**
   * Student.create for one roster entry: a new document saved at once. No password is
   * set, so neither save hook changes anything.
   */
  method Admit(e: RosterEntry, id: StudentId, code: string, cohortNumber: int, bcrypt: string -> string, now: int)
    returns (s: StudentModel.Student)
    ensures fresh(s) && s.id == id && s.State() == Admitted(e, code, cohortNumber)
  {
    s := new StudentModel.Student.Create(id, e.firstName, e.lastName, e.email, code, cohortNumber, e.stack);
    var saved := s.Save(true, bcrypt, now);
  }

  class Portal {
    var cohorts: seq<CohortRecord>
    var schemes: seq<SchemeRecord>
    var students: seq<StudentModel.Student>
    var sheets: seq<Attendance>

    constructor (cohorts: seq<CohortRecord>, schemes: seq<SchemeRecord>, students: seq<StudentModel.Student>, sheets: seq<Attendance>)
      ensures this.cohorts == cohorts && this.schemes == schemes && this.students == students && this.sheets == sheets
    {
      this.cohorts := cohorts;
      this.schemes := schemes;
      this.students := students;
      this.sheets := sheets;
    }

    /** The roster mapped to new students, appended to the collection in roster order. */
    method AdmitAll(roster: seq<RosterEntry>, cohortNumber: int, newIds: seq<StudentId>, draws: seq<seq<Hex.Byte>>,
                    bcrypt: string -> string, now: int)
      requires |newIds| == |roster| && |draws| == |roster|
      requires forall k :: 0 <= k < |draws| ==> |draws[k]| == 4
      modifies this
      ensures cohorts == old(cohorts) && schemes == old(schemes) && sheets == old(sheets)
      ensures |students| == |old(students)| + |roster| && students[..|old(students)|] == old(students)
      ensures fresh(students[|old(students)|..])
      ensures forall j :: 0 <= j < |roster| ==>
        (students[|old(students)| + j].id == newIds[j]
         && students[|old(students)| + j].State() == Admitted(roster[j], AdmissionCode(draws[j]), cohortNumber))
    {
      var k := 0;
      ghost var added: seq<StudentModel.Student> := [];
      while k < |roster|
        invariant 0 <= k <= |roster|
        invariant cohorts == old(cohorts) && schemes == old(schemes) && sheets == old(sheets)
        invariant students == old(students) + added && |added| == k && fresh(added)
        invariant forall j :: 0 <= j < k ==>
          (students[|old(students)| + j].id == newIds[j]
           && students[|old(students)| + j].State() == Admitted(roster[j], AdmissionCode(draws[j]), cohortNumber))
      {
        var s := Admit(roster[k], newIds[k], AdmissionCode(draws[k]), cohortNumber, bcrypt, now);
        students := students + [s];
        added := added + [s];
        k := k + 1;
      }
      assert students[|old(students)|..] == added;
    }

    /** Attendance.create: one sheet for the cohort, seeded from its visible students. */
    method AddAttendance(cohortId: CohortId, start: Day, end: Day, cohortNumber: int)
      modifies this
      ensures cohorts == old(cohorts) && schemes == old(schemes) && students == old(students)
      ensures |sheets| == |old(sheets)| + 1 && sheets[..|old(sheets)|] == old(sheets)
      ensures sheets[|old(sheets)|].cohortId == cohortId
      ensures IsSchedule(sheets[|old(sheets)|].classDays, start, end, Enrolled(students, cohortNumber))
    {
      var enrolled := Enrolled(students, cohortNumber);
      var classDays := GenerateClassDays(start, end, enrolled);
      sheets := sheets + [Attendance(cohortId, classDays)];
    }

    /**
     * createCohort. Generated ids, random bytes, the hash function and the clock are
     * inputs: `newIds[k]` and `draws[k]` go to the k-th roster student.
     */
    method CreateCohort(input: CohortInput, rows: seq<Row>, schemeId: string, cohortId: CohortId,
                        newIds: seq<StudentId>, draws: seq<seq<Hex.Byte>>, bcrypt: string -> string, now: int)
      returns (r: Result<nat, CohortError>)
      requires |newIds| == |Roster(rows)| && |draws| == |Roster(rows)|
      requires forall k :: 0 <= k < |draws| ==> |draws[k]| == 4
      modifies this
      ensures r == Err(CohortExists) <==> exists c :: c in old(cohorts) && c.cohortNumber == input.cohortNumber
      ensures r.Err? ==>
        cohorts == old(cohorts) && schemes == old(schemes) && students == old(students) && sheets == old(sheets)
      ensures r.Ok? ==> r.value == |Roster(rows)|
      ensures r.Ok? ==> schemes == old(schemes) + [EmptyScheme(schemeId, input.cohortNumber)]
      ensures r.Ok? ==> cohorts == old(cohorts) + [CohortRecord(cohortId, input.cohortNumber, input.startDate, input.endDate, "active")]
      ensures r.Ok? ==> |students| == |old(students)| + r.value && students[..|old(students)|] == old(students)
      ensures r.Ok? ==> fresh(students[|old(students)|..])
      ensures r.Ok? ==> forall k :: 0 <= k < r.value ==>
        (students[|old(students)| + k].id == newIds[k]
         && students[|old(students)| + k].State() == Admitted(Roster(rows)[k], AdmissionCode(draws[k]), input.cohortNumber))
      ensures r.Ok? ==> |sheets| == |old(sheets)| + 1 && sheets[..|old(sheets)|] == old(sheets)
      ensures r.Ok? ==> (sheets[|old(sheets)|].cohortId == cohortId
        && IsSchedule(sheets[|old(sheets)|].classDays, input.startDate, input.endDate, Enrolled(students, input.cohortNumber)))
    {
      var roster := ReadRoster(rows);
      var previous := FirstIndex(cohorts, (c: CohortRecord) => c.cohortNumber == input.cohortNumber);
      if previous.Some? {
        return Err(CohortExists);
      }
      schemes := schemes + [EmptyScheme(schemeId, input.cohortNumber)];
      AdmitAll(roster, input.cohortNumber, newIds, draws, bcrypt, now);
      cohorts := cohorts + [CohortRecord(cohortId, input.cohortNumber, input.startDate, input.endDate, "active")];
      AddAttendance(cohortId, input.startDate, input.endDate, input.cohortNumber);
      r := Ok(|roster|);
    }
  }
}
