/**
 * The scheme handlers over the collection of scheme documents: append parsed lessons to
 * one track, read one track by its short name, clear one track.
 */
module SchemeController {
  import opened Wrappers
  import opened Search
  import opened JsValues
  import opened SchemeModel

  datatype SchemeError =
    | InvalidSchemeType   // 400 "Invalid scheme type"
    | InvalidSchemeName   // 400 "Invalid scheme name. ..."
    | SchemeNotFound      // 404 "Scheme not found"
    | MissingSchemeName   // undefined.toLowerCase() throws
    | SchemeIdCastFailed  // 500: `findById({_id: undefined})` cannot cast its filter

  /** createScheme's check: `schemeType` must be one of the three field names exactly. */
  function ParseSchemeType(schemeType: Option<string>): (r: Option<SchemeKind>)
    ensures forall k :: r == Some(k) <==> schemeType == Some(FieldName(k))
    ensures r.None? <==> schemeType.None? || schemeType.value !in {"frontendScheme", "backendScheme", "productDesignScheme"}
  {
    if schemeType == Some("frontendScheme") then Some(Frontend)
    else if schemeType == Some("backendScheme") then Some(Backend)
    else if schemeType == Some("productDesignScheme") then Some(ProductDesign)
    else None
  }

  /** The keys of the `validSchemes` object literal. */
  function ShortName(k: SchemeKind): string {
    match k
    case Frontend => "frontend"
    case Backend => "backend"
    case ProductDesign => "productdesign"
  }

  /**
   * What indexing the `validSchemes` object yields: one of its own keys, a lower-case key
   * every object inherits (a truthy value that names no array), or undefined.
   */
  datatype KeyLookup = OwnKey(kind: SchemeKind) | InheritedKey | NoKey

  const InheritedNames: set<string> := {"constructor", "__proto__"}

  /** `validSchemes[schemeName.toLowerCase()]`. */
  function LookupName(schemeName: string): (r: KeyLookup)
    ensures forall k :: r == OwnKey(k) <==> ToLower(schemeName) == ShortName(k)
    ensures r == InheritedKey <==> ToLower(schemeName) in InheritedNames
  {
    var key := ToLower(schemeName);
    if key == "frontend" then OwnKey(Frontend)
    else if key == "backend" then OwnKey(Backend)
    else if key == "productdesign" then OwnKey(ProductDesign)
    else if key in InheritedNames then InheritedKey
    else NoKey
  }

  lemma LowerCharIdempotent(c: char)
    ensures LowerChar(LowerChar(c)) == LowerChar(c)
  {
  }

  /** Lower-casing twice is lower-casing once. */
  lemma {:induction false} ToLowerIdempotent(s: string)
    ensures ToLower(ToLower(s)) == ToLower(s)
  {
    var once := ToLower(s);
    forall i | 0 <= i < |s|
      ensures ToLower(once)[i] == once[i]
    {
      LowerCharIdempotent(s[i]);
    }
  }

  /** The lookup is case-insensitive: a name and its lower-cased form select the same key. */
  lemma {:induction false} LookupIgnoresCase(schemeName: string)
    ensures LookupName(ToLower(schemeName)) == LookupName(schemeName)
  {
    ToLowerIdempotent(schemeName);
  }

  /** `findById`: the first document with the id; an absent id finds nothing. */
  function FindScheme(docs: seq<SchemeRecord>, id: Option<string>): (r: Option<nat>)
    ensures r.Some? ==> id.Some? && r.value < |docs| && docs[r.value].id == id.value
    ensures r.None? ==> id.None? || forall i :: 0 <= i < |docs| ==> docs[i].id != id.value
  {
    if id.None? then None else FirstIndex(docs, (d: SchemeRecord) => d.id == id.value)
  }

  /** createScheme on the collection: the type check, the find, then the append. */
  function CreateSchemeSpec(docs: seq<SchemeRecord>, schemeType: Option<string>, id: Option<string>,
                            parsedData: seq<Lesson>): (r: Result<seq<SchemeRecord>, SchemeError>)
    ensures ParseSchemeType(schemeType).None? ==> r == Err(InvalidSchemeType)
    ensures ParseSchemeType(schemeType).Some? && FindScheme(docs, id).None? ==> r == Err(SchemeNotFound)
    ensures r.Ok? <==> ParseSchemeType(schemeType).Some? && FindScheme(docs, id).Some?
    ensures r.Ok? ==> |r.value| == |docs|
    ensures r.Ok? ==>
      var k, i := ParseSchemeType(schemeType).value, FindScheme(docs, id).value;
      && Lessons(r.value[i], k) == Lessons(docs[i], k) + parsedData
      && (forall other :: other != k ==> Lessons(r.value[i], other) == Lessons(docs[i], other))
      && r.value[i].id == docs[i].id && r.value[i].cohortNumber == docs[i].cohortNumber
      && (forall j :: 0 <= j < |docs| && j != i ==> r.value[j] == docs[j])
  {
    match ParseSchemeType(schemeType)
    case None => Err(InvalidSchemeType)
    case Some(k) =>
      match FindScheme(docs, id)
      case None => Err(SchemeNotFound)
      case Some(i) => Ok(docs[i := WithLessons(docs[i], k, Lessons(docs[i], k) + parsedData)])
  }

  /**
   * deleteSchemeByName on the collection. A missing name throws; an inherited key passes
   * the check but names no array, so the document is saved unchanged. The find wraps the id
   * in `{_id: id}`, so a missing id leaves an object the ObjectId cast rejects.
   */
  function DeleteSchemeSpec(docs: seq<SchemeRecord>, schemeName: Option<string>, id: Option<string>): (r: Result<seq<SchemeRecord>, SchemeError>)
    ensures schemeName.None? ==> r == Err(MissingSchemeName)
    ensures schemeName.Some? && LookupName(schemeName.value) == NoKey ==> r == Err(InvalidSchemeName)
    ensures schemeName.Some? && LookupName(schemeName.value) != NoKey && id.None? ==> r == Err(SchemeIdCastFailed)
    ensures schemeName.Some? && LookupName(schemeName.value) != NoKey && id.Some? && FindScheme(docs, id).None?
      ==> r == Err(SchemeNotFound)
    ensures r.Ok? <==> schemeName.Some? && LookupName(schemeName.value) != NoKey && id.Some? && FindScheme(docs, id).Some?
    ensures r.Ok? && LookupName(schemeName.value) == InheritedKey ==> r.value == docs
    ensures r.Ok? && LookupName(schemeName.value).OwnKey? ==>
      var k, i := LookupName(schemeName.value).kind, FindScheme(docs, id).value;
      && |r.value| == |docs|
      && Lessons(r.value[i], k) == []
      && (forall other :: other != k ==> Lessons(r.value[i], other) == Lessons(docs[i], other))
      && r.value[i].id == docs[i].id && r.value[i].cohortNumber == docs[i].cohortNumber
      && (forall j :: 0 <= j < |docs| && j != i ==> r.value[j] == docs[j])
  {
    if schemeName.None? then Err(MissingSchemeName)
    else if LookupName(schemeName.value) == NoKey then Err(InvalidSchemeName)
    else if id.None? then Err(SchemeIdCastFailed)
    else match LookupName(schemeName.value)
      case NoKey => Err(InvalidSchemeName)
      case InheritedKey =>
        if FindScheme(docs, id).None? then Err(SchemeNotFound) else Ok(docs)
      case OwnKey(k) =>
        match FindScheme(docs, id)
        case None => Err(SchemeNotFound)
        case Some(i) => Ok(docs[i := WithLessons(docs[i], k, [])])
  }

  /** Clearing a track twice leaves the collection as clearing it once does. */
  lemma {:induction false} DeleteSchemeIdempotent(docs: seq<SchemeRecord>, schemeName: Option<string>, id: Option<string>)
    requires DeleteSchemeSpec(docs, schemeName, id).Ok?
    ensures DeleteSchemeSpec(DeleteSchemeSpec(docs, schemeName, id).value, schemeName, id)
      == DeleteSchemeSpec(docs, schemeName, id)
  {
    var once := DeleteSchemeSpec(docs, schemeName, id).value;
    var i := FindScheme(docs, id).value;
    var ids := (d: SchemeRecord) => d.id == id.value;
    FirstIndexAgrees(docs, ids, once, ids);
    if LookupName(schemeName.value).OwnKey? {
      var k := LookupName(schemeName.value).kind;
      assert WithLessons(once[i], k, []) == once[i];
      assert once[i := once[i]] == once;
    }
  }

  /** What getSchemeByName answers with: the chosen array, or undefined for an inherited key. */
  datatype SchemeView = Track(lessons: seq<Lesson>) | Undefined

  class SchemeStore {
    var docs: seq<SchemeRecord>

    constructor (docs: seq<SchemeRecord>)
      ensures this.docs == docs
    {
      this.docs := docs;
    }

    /** createScheme: the lessons are appended in place to the chosen array and saved. */
    method CreateScheme(schemeType: Option<string>, id: Option<string>, parsedData: seq<Lesson>)
      returns (r: Result<SchemeRecord, SchemeError>)
      modifies this
      ensures var spec := CreateSchemeSpec(old(docs), schemeType, id, parsedData);
        && (r.Ok? <==> spec.Ok?)
        && (spec.Ok? ==> docs == spec.value && r.value == docs[FindScheme(old(docs), id).value])
        && (spec.Err? ==> r == Err(spec.error) && docs == old(docs))
    {
      var kind := ParseSchemeType(schemeType);
      if kind.None? {
        return Err(InvalidSchemeType);
      }
      var found := FindScheme(docs, id);
      if found.None? {
        return Err(SchemeNotFound);
      }
      var i, k := found.value, kind.value;
      var lessons := Lessons(docs[i], k);
      var n := 0;
      while n < |parsedData|
        invariant 0 <= n <= |parsedData|
        invariant lessons == Lessons(old(docs)[i], k) + parsedData[..n]
      {
        lessons := lessons + [parsedData[n]];
        n := n + 1;
      }
      assert parsedData[..n] == parsedData;
      docs := docs[i := WithLessons(docs[i], k, lessons)];
      r := Ok(docs[i]);
    }

    /**
     * getSchemeByName: the name check, then the first scheme document (the source assumes
     * there is only one), then the chosen array; an inherited key reads no array.
     */
    function GetSchemeByName(schemeName: Option<string>): (r: Result<SchemeView, SchemeError>)
      reads this
      ensures schemeName.None? ==> r == Err(MissingSchemeName)
      ensures schemeName.Some? && LookupName(schemeName.value) == NoKey ==> r == Err(InvalidSchemeName)
      ensures schemeName.Some? && LookupName(schemeName.value) != NoKey && |docs| == 0 ==> r == Err(SchemeNotFound)
      ensures r.Ok? <==> |docs| > 0 && schemeName.Some? && LookupName(schemeName.value) != NoKey
      ensures r.Ok? ==> forall k :: (r.value == Track(Lessons(docs[0], k)) <== LookupName(schemeName.value) == OwnKey(k))
      ensures r.Ok? ==> (r.value == Undefined <==> LookupName(schemeName.value) == InheritedKey)
    {
      if schemeName.None? then Err(MissingSchemeName)
      else match LookupName(schemeName.value)
        case NoKey => Err(InvalidSchemeName)
        case InheritedKey => if |docs| == 0 then Err(SchemeNotFound) else Ok(Undefined)
        case OwnKey(k) => if |docs| == 0 then Err(SchemeNotFound) else Ok(Track(Lessons(docs[0], k)))
    }

    /** deleteSchemeByName: the chosen array is reassigned to [] and the document saved. */
    method DeleteSchemeByName(schemeName: Option<string>, id: Option<string>) returns (r: Outcome<SchemeError>)
      modifies this
      ensures var spec := DeleteSchemeSpec(old(docs), schemeName, id);
        && (r.Pass? <==> spec.Ok?)
        && (spec.Ok? ==> docs == spec.value)
        && (spec.Err? ==> r == Fail(spec.error) && docs == old(docs))
    {
      if schemeName.None? {
        return Fail(MissingSchemeName);
      }
      var key := LookupName(schemeName.value);
      if key.NoKey? {
        return Fail(InvalidSchemeName);
      }
      if id.None? {
        return Fail(SchemeIdCastFailed);
      }
      var found := FindScheme(docs, id);
      if found.None? {
        return Fail(SchemeNotFound);
      }
      if key.OwnKey? {
        var i := found.value;
        docs := docs[i := WithLessons(docs[i], key.kind, [])];
      }
      r := Pass;
    }
  }
}
