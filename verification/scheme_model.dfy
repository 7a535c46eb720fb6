/** The scheme document: a cohort's three lesson plans, one array per track. */
module SchemeModel {
  import opened Wrappers

  /** The three tracks, named by their array field. */
  datatype SchemeKind = Frontend | Backend | ProductDesign

  function FieldName(k: SchemeKind): string {
    match k
    case Frontend => "frontendScheme"
    case Backend => "backendScheme"
    case ProductDesign => "productDesignScheme"
  }

  /** One planned lesson; every field is optional in the schema. */
  datatype Lesson = Lesson(day: Option<int>, subject: Option<string>, date: Option<int>)

  datatype SchemeRecord = SchemeRecord(
    id: string,
    cohortNumber: int,
    frontendScheme: seq<Lesson>,
    backendScheme: seq<Lesson>,
    productDesignScheme: seq<Lesson>)

  function Lessons(rec: SchemeRecord, k: SchemeKind): seq<Lesson> {
    match k
    case Frontend => rec.frontendScheme
    case Backend => rec.backendScheme
    case ProductDesign => rec.productDesignScheme
  }

  /** The record with the array of track `k` replaced and the other two kept. */
  function WithLessons(rec: SchemeRecord, k: SchemeKind, lessons: seq<Lesson>): (r: SchemeRecord)
    ensures Lessons(r, k) == lessons
    ensures forall other :: other != k ==> Lessons(r, other) == Lessons(rec, other)
    ensures r.id == rec.id && r.cohortNumber == rec.cohortNumber
  {
    match k
    case Frontend => rec.(frontendScheme := lessons)
    case Backend => rec.(backendScheme := lessons)
    case ProductDesign => rec.(productDesignScheme := lessons)
  }

  /** The scheme a new cohort starts with. */
  function EmptyScheme(id: string, cohortNumber: int): (r: SchemeRecord)
    ensures forall k :: Lessons(r, k) == []
    ensures r.id == id && r.cohortNumber == cohortNumber
  {
    SchemeRecord(id, cohortNumber, [], [], [])
  }
}
