/**
 * The attendance document: one per cohort, a sequence of class days, each holding one
 * entry per enrolled student. Dates are whole days counted from 1970-01-01; check-in
 * times are milliseconds.
 */
module AttendanceModel {
  import opened Wrappers

  type StudentId = string
  type CohortId = string
  type Day = int
  type Millis = int

  /** The status enum; a missing status takes the default, Absent. */
  datatype Status = Absent | Present

  function StatusName(s: Status): (name: string)
    ensures ParseStatus(Some(name)) == Some(s)
  {
    match s
    case Absent => "Absent"
    case Present => "Present"
  }

  /** Casting a raw status: the default for a missing value, the enum check for a given one. */
  function ParseStatus(raw: Option<string>): (r: Option<Status>)
    ensures raw.None? ==> r == Some(Absent)
    ensures raw.Some? ==> (r.Some? <==> raw.value == "Absent" || raw.value == "Present")
  {
    match raw
    case None => Some(Absent)
    case Some(name) =>
      if name == "Absent" then Some(Absent)
      else if name == "Present" then Some(Present)
      else None
  }

  datatype StudentAttendance = StudentAttendance(
    studentId: StudentId,
    status: Status,
    checkInTime: Option<Millis>,
    checkOutTime: Option<Millis>,
    score: int)

  /** `day` and `date` are required; the types make them always present. */
  datatype ClassDay = ClassDay(day: int, date: Day, students: seq<StudentAttendance>)

  datatype Attendance = Attendance(cohortId: CohortId, classDays: seq<ClassDay>)

  /** A student entry as a handler writes it, before the schema fills in defaults. */
  datatype EntryInput = EntryInput(
    studentId: StudentId,
    status: Option<string>,
    checkInTime: Option<Millis>,
    score: Option<int>)

  datatype CastError = InvalidStatus(value: string)

  /** The schema applied to one entry: enum validation and the defaults Absent and 0. */
  function CastEntry(input: EntryInput): (r: Result<StudentAttendance, CastError>)
    ensures r.Err? <==> ParseStatus(input.status).None?
    ensures r.Ok? ==> r.value.studentId == input.studentId
    ensures r.Ok? && input.status.None? ==> r.value.status == Absent
    ensures r.Ok? && input.status.Some? ==> StatusName(r.value.status) == input.status.value
    ensures r.Ok? && input.score.None? ==> r.value.score == 0
    ensures r.Ok? && input.checkInTime.None? ==> r.value.checkInTime.None?
  {
    match ParseStatus(input.status)
    case None => Err(InvalidStatus(input.status.value))
    case Some(status) =>
      Ok(StudentAttendance(
        input.studentId,
        status,
        input.checkInTime,
        None,
        if input.score.Some? then input.score.value else 0))
  }

  /** "checkInTime: only filled if marked Present", read in both directions. */
  predicate CheckInRecorded(e: StudentAttendance) {
    e.checkInTime.Some? <==> e.status == Present
  }

  /** The entry the schema makes of `{studentId, status: "Absent"}`. */
  function SeedEntry(id: StudentId): (e: StudentAttendance)
    ensures CastEntry(EntryInput(id, Some("Absent"), None, None)) == Ok(e)
    ensures CheckInRecorded(e) && e.studentId == id
  {
    StudentAttendance(id, Absent, None, None, 0)
  }
}
