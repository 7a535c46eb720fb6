/**
 * The student document: its fields and defaults, the two pre-save hooks, the find filter
 * that hides deactivated students, changedPasswordAfter and createPasswordResetToken.
 * bcrypt, bcrypt.compare and sha256 are parameters; nothing here computes a hash.
 */
module StudentModel {
  import opened Wrappers
  import opened PasswordPolicy
  import opened JsValues
  import Hex

  type StudentId = string

  /** A face descriptor as the client sends it. */
  type Descriptor = seq<real>

  /** Every stored field of a student document, plus the document's isNew flag and modified paths. */
  datatype StudentState = StudentState(
    firstName: Option<string>,
    lastName: Option<string>,
    email: Option<string>,
    admissionCode: string,
    cohort: int,
    status: string,
    stack: Option<string>,
    gender: Option<string>,
    password: Option<string>,
    confirmPassword: Option<string>,
    passwordChangedAt: Option<int>,
    passwordResetToken: Option<string>,
    passwordResetExpires: Option<int>,
    active: bool,
    hasOnboard: bool,
    jwtVersion: int,
    descriptor: Option<Descriptor>,
    faceDescriptor: Option<string>,
    initVector: Option<string>,
    isNew: bool,
    modified: set<Path>)
  {
    function Credentials(): Credentials {
      PasswordPolicy.Credentials(password, confirmPassword, passwordChangedAt)
    }

    function WithCredentials(c: Credentials): StudentState {
      this.(password := c.password, confirmPassword := c.confirmPassword, passwordChangedAt := c.passwordChangedAt)
    }
  }

  /**
   * save(): the validators (skipped by `{validateBeforeSave: false}`), the hash hook, the
   * passwordChangedAt hook, then the write, after which the document is neither new nor dirty.
   */
  function SaveStudent(st: StudentState, validate: bool, bcrypt: string -> string, now: int): (r: Result<StudentState, SaveError>)
    ensures r.Ok? <==> SaveCredentials(st.Credentials(), st.isNew, st.modified, validate, false, bcrypt, now).Ok?
    ensures r.Ok? ==> (r.value ==
      st.WithCredentials(SaveCredentials(st.Credentials(), st.isNew, st.modified, validate, false, bcrypt, now).value)
        .(isNew := false, modified := {}))
    ensures r.Err? ==> r.error == SaveCredentials(st.Credentials(), st.isNew, st.modified, validate, false, bcrypt, now).error
  {
    match SaveCredentials(st.Credentials(), st.isNew, st.modified, validate, false, bcrypt, now)
    case Err(e) => Err(e)
    case Ok(c) => Ok(st.WithCredentials(c).(isNew := false, modified := {}))
  }

  /**
   * Assigning the password. The schema declares the path `select: false`, so a handler that
   * loaded the document without `.select("+password")` holds no prior value: the path is then
   * marked modified by any assignment, even of undefined. On a selected path it is marked
   * modified exactly when the value changes.
   */
  function AssignPassword(st: StudentState, p: Option<string>, selected: bool): (r: StudentState)
    ensures r.password == p
    ensures PasswordPath in r.modified <==> PasswordPath in st.modified || !selected || p != st.password
    ensures r.(password := st.password, modified := st.modified) == st
  {
    st.(password := p, modified := if !selected || p != st.password then st.modified + {PasswordPath} else st.modified)
  }

  /** Assigning confirmPassword, with the same change tracking. */
  function AssignConfirm(st: StudentState, c: Option<string>): (r: StudentState)
    ensures r.confirmPassword == c
    ensures ConfirmPasswordPath in r.modified <==> ConfirmPasswordPath in st.modified || c != st.confirmPassword
    ensures r.(confirmPassword := st.confirmPassword, modified := st.modified) == st
  {
    st.(confirmPassword := c, modified := if c != st.confirmPassword then st.modified + {ConfirmPasswordPath} else st.modified)
  }

  class Student {
    const id: StudentId
    var firstName: Option<string>
    var lastName: Option<string>
    var email: Option<string>
    var admissionCode: string
    var cohort: int
    var status: string
    var stack: Option<string>
    var gender: Option<string>
    var password: Option<string>
    var confirmPassword: Option<string>
    var passwordChangedAt: Option<int>
    var passwordResetToken: Option<string>
    var passwordResetExpires: Option<int>
    var active: bool
    var hasOnboard: bool
    var jwtVersion: int
    var descriptor: Option<Descriptor>
    var faceDescriptor: Option<string>
    var initVector: Option<string>
    var isNew: bool
    var modified: set<Path>

    function State(): StudentState
      reads this
    {
      StudentState(firstName, lastName, email, admissionCode, cohort, status, stack, gender,
        password, confirmPassword, passwordChangedAt, passwordResetToken, passwordResetExpires,
        active, hasOnboard, jwtVersion, descriptor, faceDescriptor, initVector, isNew, modified)
    }

    /** A new document with the fields cohort creation passes and the schema defaults. */
    constructor Create(id: StudentId, firstName: Option<string>, lastName: Option<string>, email: Option<string>,
                       admissionCode: string, cohort: int, stack: Option<string>)
      ensures this.id == id
      ensures State() == StudentState(firstName, lastName, Lowercased(email), admissionCode, cohort, "active", stack,
        None, None, None, None, None, None, true, false, 0, None, None, None, true, {})
    {
      this.id := id;
      this.firstName := firstName;
      this.lastName := lastName;
      this.email := Lowercased(email);
      this.admissionCode := admissionCode;
      this.cohort := cohort;
      this.status := "active";
      this.stack := stack;
      this.gender := None;
      this.password := None;
      this.confirmPassword := None;
      this.passwordChangedAt := None;
      this.passwordResetToken := None;
      this.passwordResetExpires := None;
      this.active := true;
      this.hasOnboard := false;
      this.jwtVersion := 0;
      this.descriptor := None;
      this.faceDescriptor := None;
      this.initVector := None;
      this.isNew := true;
      this.modified := {};
    }

    /** `doc.password = p` on a document loaded with (`selected`) or without its password. */
    method SetPassword(p: Option<string>, selected: bool)
      modifies this
      ensures State() == AssignPassword(old(State()), p, selected)
    {
      if !selected || p != password {
        modified := modified + {PasswordPath};
      }
      password := p;
    }

    /** `doc.confirmPassword = c`, with the same change tracking. */
    method SetConfirmPassword(c: Option<string>)
      modifies this
      ensures State() == AssignConfirm(old(State()), c)
    {
      if c != confirmPassword {
        modified := modified + {ConfirmPasswordPath};
      }
      confirmPassword := c;
    }

    /** `doc.passwordResetToken = undefined; doc.passwordResetExpires = undefined`. */
    method ClearPasswordReset()
      modifies this
      ensures State() == old(State()).(passwordResetToken := None, passwordResetExpires := None)
    {
      passwordResetToken := None;
      passwordResetExpires := None;
    }

    /** registerFace's writes: the encoded vector and the encrypted descriptor, together. */
    method SetFaceTemplate(iv: string, cipherText: string)
      modifies this
      ensures State() == old(State()).(initVector := Some(iv), faceDescriptor := Some(cipherText))
    {
      initVector := Some(iv);
      faceDescriptor := Some(cipherText);
    }

    /**
     * A handler's assignments are made on the copy it loaded; when its save() rejects, that
     * copy is dropped and the stored document is what was loaded. The model keeps one
     * object per document, so it writes the loaded state back.
     */
    method RevertTo(st: StudentState)
      modifies this
      ensures State() == st
    {
      RestoreNames(st);
      RestoreEnrolment(st);
      RestoreTrack(st);
      RestorePasswords(st);
      RestoreReset(st);
      RestoreAccount(st);
      RestoreFace(st);
    }

    // RevertTo's writes, three fields at a time.

    method RestoreNames(st: StudentState)
      modifies this
      ensures State() == old(State()).(firstName := st.firstName, lastName := st.lastName, email := st.email)
    {
      firstName, lastName, email := st.firstName, st.lastName, st.email;
    }

    method RestoreEnrolment(st: StudentState)
      modifies this
      ensures State() == old(State()).(admissionCode := st.admissionCode, cohort := st.cohort, status := st.status)
    {
      admissionCode, cohort, status := st.admissionCode, st.cohort, st.status;
    }

    method RestoreTrack(st: StudentState)
      modifies this
      ensures State() == old(State()).(stack := st.stack, gender := st.gender, password := st.password)
    {
      stack, gender, password := st.stack, st.gender, st.password;
    }

    method RestorePasswords(st: StudentState)
      modifies this
      ensures State() == old(State()).(confirmPassword := st.confirmPassword, passwordChangedAt := st.passwordChangedAt, passwordResetToken := st.passwordResetToken)
    {
      confirmPassword, passwordChangedAt, passwordResetToken := st.confirmPassword, st.passwordChangedAt, st.passwordResetToken;
    }

    method RestoreReset(st: StudentState)
      modifies this
      ensures State() == old(State()).(passwordResetExpires := st.passwordResetExpires, active := st.active, hasOnboard := st.hasOnboard)
    {
      passwordResetExpires, active, hasOnboard := st.passwordResetExpires, st.active, st.hasOnboard;
    }

    method RestoreAccount(st: StudentState)
      modifies this
      ensures State() == old(State()).(jwtVersion := st.jwtVersion, descriptor := st.descriptor, faceDescriptor := st.faceDescriptor)
    {
      jwtVersion, descriptor, faceDescriptor := st.jwtVersion, st.descriptor, st.faceDescriptor;
    }

    method RestoreFace(st: StudentState)
      modifies this
      ensures State() == old(State()).(initVector := st.initVector, isNew := st.isNew, modified := st.modified)
    {
      initVector, isNew, modified := st.initVector, st.isNew, st.modified;
    }

    /** The first pre-save hook, run on the document. */
    method HashPasswordHook(bcrypt: string -> string) returns (ok: bool)
      modifies this
      ensures ok == HashHook(old(State()).Credentials(), old(modified), bcrypt).Ok?
      ensures ok ==> State() == old(State()).WithCredentials(HashHook(old(State()).Credentials(), old(modified), bcrypt).value)
      ensures !ok ==> State() == old(State())
    {
      if PasswordPath !in modified {
        return true;
      }
      if password.None? {
        return false;
      }
      password := Some(bcrypt(password.value));
      confirmPassword := None;
      ok := true;
    }

    /** The second pre-save hook, run on the document. */
    method ChangedAtHookStep(now: int)
      modifies this
      ensures State() == old(State()).WithCredentials(ChangedAtHook(old(State()).Credentials(), old(isNew), old(modified), now))
    {
      if PasswordPath in modified && !isNew {
        passwordChangedAt := Some(now - ChangedAtBackdateMs);
      }
    }

    /** save() with its validators and both pre-save hooks. */
    method Save(validate: bool, bcrypt: string -> string, now: int) returns (r: Outcome<SaveError>)
      modifies this
      ensures r.Pass? <==> SaveStudent(old(State()), validate, bcrypt, now).Ok?
      ensures r.Pass? ==> State() == SaveStudent(old(State()), validate, bcrypt, now).value
      ensures r.Fail? ==> r.error == SaveStudent(old(State()), validate, bcrypt, now).error
      ensures r.Fail? ==> State() == old(State())
    {
      if validate {
        var checked := CheckCredentials(Credentials(password, confirmPassword, passwordChangedAt), modified, false);
        if checked.Fail? {
          return Fail(checked.error);
        }
      }
      var ok := HashPasswordHook(bcrypt);
      if !ok {
        return Fail(HashFailed);
      }
      ChangedAtHookStep(now);
      isNew := false;
      modified := {};
      r := Pass;
    }

    /** changedPasswordAfter(JWTTimestamp). */
    function ChangedPasswordAfter(jwtTimestamp: int): (r: bool)
      reads this
      ensures passwordChangedAt.None? ==> !r
      ensures passwordChangedAt.Some? && passwordChangedAt.value >= 0 ==>
        (r <==> (jwtTimestamp + 1) * 1000 <= passwordChangedAt.value)
      ensures r == PasswordChangedAfter(passwordChangedAt, jwtTimestamp)
    {
      if passwordChangedAt.None? then false
      else
        PasswordChangedAfterMeaning(passwordChangedAt.value, jwtTimestamp);
        PasswordChangedAfter(passwordChangedAt, jwtTimestamp)
    }

    /**
     * createPasswordResetToken: the 32 random bytes are an input; the returned token is
     * their hex text, the stored one its sha256, and the expiry ten minutes from now.
     */
    method CreatePasswordResetToken(random: seq<Hex.Byte>, sha256: string -> string, now: int) returns (token: string)
      requires |random| == 32
      modifies this
      ensures token == Hex.Encode(random) && |token| == 64 && Hex.IsHexString(token)
      ensures State() == old(State()).(passwordResetToken := Some(sha256(token)),
        passwordResetExpires := Some(ResetExpiry(now)))
    {
      token := Hex.Encode(random);
      passwordResetToken := Some(sha256(token));
      passwordResetExpires := Some(now + ResetTokenLifetimeMs);
    }

    /** correctPassword: bcrypt.compare, which throws (None here) when no hash is stored. */
    function CorrectPassword(candidate: string, compare: (string, string) -> bool): (r: Option<bool>)
      reads this
      ensures r.None? <==> password.None?
      ensures r == Some(true) <==> password.Some? && compare(candidate, password.value)
      ensures r == Some(false) <==> password.Some? && !compare(candidate, password.value)
      ensures r == ComparePassword(password, candidate, compare)
    {
      ComparePassword(password, candidate, compare)
    }
  }

  /**
   * How a query identifies a student document. An email taken from a request may be
   * absent; the query then matches only documents without one.
   */
  datatype Query =
    | ById(id: StudentId)
    | ByEmail(email: Option<string>)
    | ByResetToken(hashedToken: string, now: int)

  /** The pre-find hook `{active: {$ne: false}}`: deactivated documents are never found. */
  predicate Visible(s: Student)
    reads s
  {
    s.active
  }

  /**
   * Whether a query finds the document: the pre-find hook's filter, then the query's own.
   * The email path is `lowercase: true`, so the queried email is lower-cased before the
   * comparison, as the stored one was when it was written.
   */
  predicate Matches(s: Student, q: Query)
    reads s
    ensures Matches(s, q) ==> Visible(s)
    ensures q.ByEmail? ==> (Matches(s, q) <==> s.active && s.email == Lowercased(q.email))
    ensures q.ByResetToken? && Matches(s, q) ==> s.passwordResetExpires.Some? && s.passwordResetExpires.value > q.now
  {
    && Visible(s)
    && match q
       case ById(id) => s.id == id
       case ByEmail(email) => s.email == Lowercased(email)
       case ByResetToken(hashed, now) =>
         s.passwordResetToken == Some(hashed) && ResetTokenUsable(s.passwordResetExpires, now)
  }

  /** findOne / findById over the collection in its natural order. */
  function FindOne(students: seq<Student>, q: Query): (r: Option<nat>)
    reads students
    ensures r.Some? ==> r.value < |students| && Matches(students[r.value], q)
    ensures r.Some? ==> students[r.value].active
    ensures r.Some? ==> forall j :: 0 <= j < r.value ==> !Matches(students[j], q)
    ensures r.None? ==> forall j :: 0 <= j < |students| ==> !Matches(students[j], q)
  {
    FindFrom(students, q, 0)
  }

  function FindFrom(students: seq<Student>, q: Query, from: nat): (r: Option<nat>)
    requires from <= |students|
    reads students
    ensures r.Some? ==> from <= r.value < |students| && Matches(students[r.value], q)
    ensures r.Some? ==> forall j :: from <= j < r.value ==> !Matches(students[j], q)
    ensures r.None? ==> forall j :: from <= j < |students| ==> !Matches(students[j], q)
    decreases |students| - from
  {
    if from == |students| then None
    else if Matches(students[from], q) then Some(from)
    else FindFrom(students, q, from + 1)
  }
}
