/**
 * The student account handlers: onboarding with an admission code, login, the password
 * reset flow, password change, profile update through a field whitelist, deactivation,
 * logout and the student list. A handler's collection is the sequence of student
 * documents; `findOne`/`findById` go through the pre-find hook, so only active students
 * are ever found or updated.
 */
module StudentController {
  import opened Wrappers
  import opened JsValues
  import opened PasswordPolicy
  import opened StudentModel
  import Hex

  /** What signToken puts in a JWT: the student's id and its current jwtVersion. */
  datatype Session = Session(id: StudentId, jwtVersion: int)

  datatype StudentError =
    | NotInvited(firstName: Option<string>)  // 401 " Dear <firstName>, You have not been invited ..."
    | AlreadyOnboarded                       // 404 "Account already created, proceed to login"
    | InvalidAdmissionCode                   // 404 "Invalid Admission Code"
    | MissingCredentials                     // 400 "Please provide email and password"
    | IncorrectCredentials                   // 401 "Incorrect email or password"
    | NoStudentWithEmail                     // 404 "There is no user with email address"
    | EmailFailed                            // 500 "Error sending email. Try again later."
    | TokenInvalidOrExpired                  // 400 "Token is invalid or has expired"
    | CurrentPasswordWrong                   // 401 "Your current password is wrong."
    | PasswordRouteMisuse                    // 400 "This route is not for password updates. ..."
    | StudentMissing                         // findById found nothing and the handler dereferences null
    | CompareFailed                          // bcrypt.compare throws on an undefined argument
    | ProfileRejected                        // an update validator refused the filtered body
    | SaveRejected(error: SaveError)          // save() failed

  // ---------------------------------------------------------------------------
  // updateStudent

  /** The fields of updateStudent's request body. */
  datatype OnboardingForm = OnboardingForm(
    firstName: Option<string>,
    lastName: Option<string>,
    email: Option<string>,
    admissionCode: Option<string>,
    stack: Option<string>,
    gender: Option<string>,
    password: Option<string>,
    confirmPassword: Option<string>)

  /**
   * updateStudent's three checks, in source order: the email must belong to a student, who
   * must not have onboarded yet, and whose admission code must equal the one sent.
   */
  function FindInvitation(students: seq<Student>, form: OnboardingForm): (r: Result<nat, StudentError>)
    reads students
    ensures FindOne(students, ByEmail(form.email)).None? ==> r == Err(NotInvited(form.firstName))
    ensures r.Ok? <==>
      (&& FindOne(students, ByEmail(form.email)).Some?
       && !students[FindOne(students, ByEmail(form.email)).value].hasOnboard
       && form.admissionCode == Some(students[FindOne(students, ByEmail(form.email)).value].admissionCode))
    ensures r.Ok? ==> r.value == FindOne(students, ByEmail(form.email)).value
    ensures r.Err? && FindOne(students, ByEmail(form.email)).Some? ==>
      var s := students[FindOne(students, ByEmail(form.email)).value];
      r.error == if s.hasOnboard then AlreadyOnboarded else InvalidAdmissionCode
  {
    match FindOne(students, ByEmail(form.email))
    case None => Err(NotInvited(form.firstName))
    case Some(i) =>
      if students[i].hasOnboard then Err(AlreadyOnboarded)
      else if Some(students[i].admissionCode) != form.admissionCode then Err(InvalidAdmissionCode)
      else Ok(i)
  }

  /**
   * The assignments of updateStudent, before its save. Its query selects no password, so
   * the password path is marked modified whatever the form holds.
   */
  function Onboard(st: StudentState, form: OnboardingForm): StudentState {
    AssignConfirm(AssignPassword(st.(firstName := form.firstName, lastName := form.lastName,
      stack := form.stack, gender := form.gender, hasOnboard := true), form.password, false), form.confirmPassword)
  }

  /**
   * Onboarding a stored student: the save succeeds exactly when the form carries a password
   * of at least 8 characters and any confirmation equals it. Without a password the save
   * fails: on the confirmation's validator when one was sent, otherwise in the hashing
   * hook, which is handed no password. On success the student is onboarded with the copied
   * profile, the bcrypt hash as password, no confirmation, and a change time one second
   * before now, so a token issued by the same request is not taken for one older than the
   * password.
   */
  lemma {:induction false} OnboardingSave(st: StudentState, form: OnboardingForm, bcrypt: string -> string, now: int)
    requires !st.isNew
    ensures SaveStudent(Onboard(st, form), true, bcrypt, now).Ok? <==>
      && form.password.Some? && |form.password.value| >= MinPasswordLength
      && (form.confirmPassword.None? || form.confirmPassword == form.password)
    ensures form.password.None? && form.confirmPassword.None? ==>
      SaveStudent(Onboard(st, form), true, bcrypt, now) == Err(HashFailed)
    ensures SaveStudent(Onboard(st, form), true, bcrypt, now).Ok? ==>
      var saved := SaveStudent(Onboard(st, form), true, bcrypt, now).value;
      && saved.hasOnboard
      && saved.firstName == form.firstName && saved.lastName == form.lastName
      && saved.stack == form.stack && saved.gender == form.gender
      && saved.password == Some(bcrypt(form.password.value)) && saved.confirmPassword.None?
      && saved.passwordChangedAt == Some(now - ChangedAtBackdateMs)
      && saved.admissionCode == st.admissionCode && saved.email == st.email && saved.active == st.active
      && (now >= 0 ==> !PasswordChangedAfter(saved.passwordChangedAt, TruncDiv(now, 1000)))
  {
    var pending := Onboard(st, form);
    assert PasswordPath in pending.modified;
    FreshTokenSurvivesChange(now, TruncDiv(now, 1000));
  }

  /** The onboarding assignments, made on the found document. */
  method ApplyOnboarding(s: Student, form: OnboardingForm)
    modifies s
    ensures s.State() == Onboard(old(s.State()), form)
  {
    ghost var st := s.State();
    s.firstName := form.firstName;
    s.lastName := form.lastName;
    s.stack := form.stack;
    s.gender := form.gender;
    s.hasOnboard := true;
    assert s.State() == st.(firstName := form.firstName, lastName := form.lastName,
      stack := form.stack, gender := form.gender, hasOnboard := true);
    s.SetPassword(form.password, false);
    s.SetConfirmPassword(form.confirmPassword);
  }

  /**
   * updateStudent: the checks, the assignments, save() with validation, the welcome email
   * (whose failure `emailSent` stands for, after the save has happened), then the session.
   * A rejected save stores nothing.
   */
  method UpdateStudent(students: seq<Student>, form: OnboardingForm, bcrypt: string -> string, now: int, emailSent: bool)
    returns (r: Result<Session, StudentError>)
    modifies students
    ensures var target := old(FindInvitation(students, form));
      target.Err? ==> r == Err(target.error) && forall j :: 0 <= j < |students| ==> unchanged(students[j])
    ensures var target := old(FindInvitation(students, form));
      target.Ok? ==>
        var s := students[target.value];
        var saved := SaveStudent(Onboard(old(s.State()), form), true, bcrypt, now);
        && (saved.Err? ==> r == Err(SaveRejected(saved.error)) && s.State() == old(s.State()))
        && (saved.Ok? ==> s.State() == saved.value)
        && (saved.Ok? && emailSent ==> r == Ok(Session(s.id, saved.value.jwtVersion)))
        && (saved.Ok? && !emailSent ==> r == Err(EmailFailed))
        && (forall j :: 0 <= j < |students| && students[j] != s ==> unchanged(students[j]))
  {
    var target := FindInvitation(students, form);
    if target.Err? {
      return Err(target.error);
    }
    var s := students[target.value];
    var loaded := s.State();
    ApplyOnboarding(s, form);
    var saved := s.Save(true, bcrypt, now);
    if saved.Fail? {
      s.RevertTo(loaded);
      return Err(SaveRejected(saved.error));
    }
    if !emailSent {
      return Err(EmailFailed);
    }
    r := Ok(Session(s.id, s.jwtVersion));
  }

  // ---------------------------------------------------------------------------
  // login

  /**
   * login: both fields must be truthy; an unknown email and a wrong password give the same
   * error, so the answer does not tell which accounts exist.
   */
  function Login(students: seq<Student>, email: Option<string>, password: Option<string>,
                 compare: (string, string) -> bool): (r: Result<Session, StudentError>)
    reads students
    ensures !Truthy(email) || !Truthy(password) ==> r == Err(MissingCredentials)
    ensures Truthy(email) && Truthy(password) && FindOne(students, ByEmail(email)).None? ==>
      r == Err(IncorrectCredentials)
    ensures Truthy(email) && Truthy(password) && FindOne(students, ByEmail(email)).Some? ==>
      var s := students[FindOne(students, ByEmail(email)).value];
      && (s.password.None? ==> r == Err(CompareFailed))
      && (s.password.Some? && !compare(password.value, s.password.value) ==> r == Err(IncorrectCredentials))
      && (s.password.Some? && compare(password.value, s.password.value) ==> r == Ok(Session(s.id, s.jwtVersion)))
    ensures r.Ok? ==> exists i ::
      && 0 <= i < |students| && students[i].active && students[i].email == Lowercased(email)
      && students[i].password.Some? && compare(password.value, students[i].password.value)
      && r.value == Session(students[i].id, students[i].jwtVersion)
  {
    if !Truthy(email) || !Truthy(password) then Err(MissingCredentials)
    else match FindOne(students, ByEmail(email))
      case None => Err(IncorrectCredentials)
      case Some(i) =>
        match students[i].CorrectPassword(password.value, compare)
        case None => Err(CompareFailed)
        case Some(ok) => if ok then Ok(Session(students[i].id, students[i].jwtVersion)) else Err(IncorrectCredentials)
  }

  // ---------------------------------------------------------------------------
  // forgetPassword and resetPassword

  /**
   * forgetPassword: a reset token for the student with the email, saved without
   * validation; if the email cannot be sent, the token is cleared and saved again. The
   * token returned is the one the email carries; the random bytes and the email outcome
   * are inputs. A rejected first save stores nothing.
   */
  method ForgetPassword(students: seq<Student>, email: Option<string>, random: seq<Hex.Byte>,
                        sha256: string -> string, bcrypt: string -> string, now: int, emailSent: bool)
    returns (r: Result<string, StudentError>)
    requires |random| == 32
    modifies students
    ensures old(FindOne(students, ByEmail(email))).None? ==>
      r == Err(NoStudentWithEmail) && forall j :: 0 <= j < |students| ==> unchanged(students[j])
    ensures old(FindOne(students, ByEmail(email))).Some? ==>
      var s := students[old(FindOne(students, ByEmail(email))).value];
      var token := Hex.Encode(random);
      var issued := old(s.State()).(passwordResetToken := Some(sha256(token)), passwordResetExpires := Some(ResetExpiry(now)));
      var saved := SaveStudent(issued, false, bcrypt, now);
      && (saved.Err? ==> r == Err(SaveRejected(saved.error)) && s.State() == old(s.State()))
      && (saved.Ok? && emailSent ==> r == Ok(token) && s.State() == saved.value)
      && (saved.Ok? && !emailSent ==>
            r == Err(EmailFailed) && s.State() == saved.value.(passwordResetToken := None, passwordResetExpires := None))
      && (forall j :: 0 <= j < |students| && students[j] != s ==> unchanged(students[j]))
  {
    var found := FindOne(students, ByEmail(email));
    if found.None? {
      return Err(NoStudentWithEmail);
    }
    var s := students[found.value];
    var loaded := s.State();
    var token := s.CreatePasswordResetToken(random, sha256, now);
    var saved := s.Save(false, bcrypt, now);
    if saved.Fail? {
      s.RevertTo(loaded);
      return Err(SaveRejected(saved.error));
    }
    if emailSent {
      return Ok(token);
    }
    s.ClearPasswordReset();
    saved := s.Save(false, bcrypt, now);
    r := Err(EmailFailed);
  }

  /**
   * The assignments of resetPassword: the new password and confirmation, the token cleared.
   * Its query selects no password, so the password path is marked modified.
   */
  function ApplyReset(st: StudentState, password: Option<string>, confirm: Option<string>): (r: StudentState)
    ensures r.passwordResetToken.None? && r.passwordResetExpires.None?
    ensures PasswordPath in r.modified && r.password == password
  {
    AssignConfirm(AssignPassword(st, password, false), confirm).(passwordResetToken := None, passwordResetExpires := None)
  }

  /**
   * A reset token works once: the reset clears it on the pending document, and a successful
   * save stores the document without a token, so it matches no reset-token query at any
   * time. A rejected save stores nothing, and the token stays usable until it expires.
   */
  lemma {:induction false} ResetTokenSingleUse(st: StudentState, password: Option<string>, confirm: Option<string>,
                                               bcrypt: string -> string, now: int)
    ensures var reset := ApplyReset(st, password, confirm);
      && reset.passwordResetToken.None?
      && (SaveStudent(reset, true, bcrypt, now).Ok? ==> SaveStudent(reset, true, bcrypt, now).value.passwordResetToken.None?)
  {
    var reset := ApplyReset(st, password, confirm);
    if SaveStudent(reset, true, bcrypt, now).Ok? {
      assert SaveStudent(reset, true, bcrypt, now).value.passwordResetToken == reset.passwordResetToken;
    }
  }

  /** The reset assignments, made on the found document. */
  method ApplyResetTo(s: Student, password: Option<string>, confirm: Option<string>)
    modifies s
    ensures s.State() == ApplyReset(old(s.State()), password, confirm)
  {
    s.SetPassword(password, false);
    s.SetConfirmPassword(confirm);
    s.ClearPasswordReset();
  }

  /**
   * resetPassword: the student whose stored token is the sha256 of the given one and whose
   * expiry is still ahead gets the new password, loses the token, and is saved with validation.
   * A rejected save stores nothing: the student keeps the old password and the token.
   */
  method ResetPassword(students: seq<Student>, token: string, password: Option<string>, confirm: Option<string>,
                       sha256: string -> string, bcrypt: string -> string, now: int)
    returns (r: Outcome<StudentError>)
    modifies students
    ensures var found := old(FindOne(students, ByResetToken(sha256(token), now)));
      found.None? ==> r == Fail(TokenInvalidOrExpired) && forall j :: 0 <= j < |students| ==> unchanged(students[j])
    ensures var found := old(FindOne(students, ByResetToken(sha256(token), now)));
      found.Some? ==>
        var s := students[found.value];
        var reset := ApplyReset(old(s.State()), password, confirm);
        var saved := SaveStudent(reset, true, bcrypt, now);
        && (saved.Err? ==> r == Fail(SaveRejected(saved.error)) && s.State() == old(s.State()) && Matches(s, ByResetToken(sha256(token), now)))
        && (saved.Ok? ==> r == Pass && s.State() == saved.value && forall q: Query :: q.ByResetToken? ==> !Matches(s, q))
        && (forall j :: 0 <= j < |students| && students[j] != s ==> unchanged(students[j]))
  {
    var found := FindOne(students, ByResetToken(sha256(token), now));
    if found.None? {
      return Fail(TokenInvalidOrExpired);
    }
    var s := students[found.value];
    var loaded := s.State();
    ApplyResetTo(s, password, confirm);
    ResetTokenSingleUse(loaded, password, confirm, bcrypt, now);
    var saved := s.Save(true, bcrypt, now);
    if saved.Fail? {
      s.RevertTo(loaded);
      return Fail(SaveRejected(saved.error));
    }
    r := Pass;
  }

  // ---------------------------------------------------------------------------
  // updatePassword

  /**
   * updatePassword for the logged-in student `userId`: the current password must match the
   * stored hash; the new password is then set and saved with validation, and a new session
   * issued. A change of password stamps the change time one second back, so the new
   * session is not taken for one older than the change. A rejected save stores nothing.
   */
  method UpdatePassword(students: seq<Student>, userId: StudentId, currentPassword: Option<string>,
                        password: Option<string>, confirm: Option<string>,
                        compare: (string, string) -> bool, bcrypt: string -> string, now: int)
    returns (r: Result<Session, StudentError>)
    modifies students
    ensures var found := old(FindOne(students, ById(userId)));
      found.None? ==> r == Err(StudentMissing) && forall j :: 0 <= j < |students| ==> unchanged(students[j])
    ensures var found := old(FindOne(students, ById(userId)));
      found.Some? ==>
        var s := students[found.value];
        && (old(s.password).None? || currentPassword.None? ==> r == Err(CompareFailed) && unchanged(s))
        && (old(s.password).Some? && currentPassword.Some? && !compare(currentPassword.value, old(s.password).value) ==>
              r == Err(CurrentPasswordWrong) && unchanged(s))
        && (forall j :: 0 <= j < |students| && students[j] != s ==> unchanged(students[j]))
    ensures var found := old(FindOne(students, ById(userId)));
      found.Some? && old(students[found.value].password).Some? && currentPassword.Some?
        && compare(currentPassword.value, old(students[found.value].password).value) ==>
        var s := students[found.value];
        var pending := AssignConfirm(AssignPassword(old(s.State()), password, true), confirm);
        var saved := SaveStudent(pending, true, bcrypt, now);
        && (saved.Err? ==> r == Err(SaveRejected(saved.error)) && s.State() == old(s.State()))
        && (saved.Ok? ==> r == Ok(Session(s.id, saved.value.jwtVersion)) && s.State() == saved.value)
        && (saved.Ok? && password != old(s.password) && !old(s.isNew) ==>
              s.passwordChangedAt == Some(now - ChangedAtBackdateMs)
              && (now >= 0 ==> !s.ChangedPasswordAfter(TruncDiv(now, 1000))))
  {
    var found := FindOne(students, ById(userId));
    if found.None? {
      return Err(StudentMissing);
    }
    var s := students[found.value];
    if currentPassword.None? || s.password.None? {
      return Err(CompareFailed);
    }
    if !compare(currentPassword.value, s.password.value) {
      return Err(CurrentPasswordWrong);
    }
    var loaded := s.State();
    s.SetPassword(password, true);
    s.SetConfirmPassword(confirm);
    var saved := s.Save(true, bcrypt, now);
    if saved.Fail? {
      s.RevertTo(loaded);
      return Err(SaveRejected(saved.error));
    }
    FreshTokenSurvivesChange(now, TruncDiv(now, 1000));
    r := Ok(Session(s.id, s.jwtVersion));
  }

  // ---------------------------------------------------------------------------
  // filterObj and updateMe

  /** filterObj: the entries of `obj` whose key is in the allowed list, values unchanged. */
  method FilterObj<V>(obj: map<string, V>, allowed: seq<string>) returns (r: map<string, V>)
    ensures forall k :: k in r <==> k in obj && k in allowed
    ensures forall k :: k in r ==> r[k] == obj[k]
  {
    r := map[];
    var keys := obj.Keys;
    while keys != {}
      invariant keys <= obj.Keys
      invariant forall k :: k in r <==> k in obj && k !in keys && k in allowed
      invariant forall k :: k in r ==> r[k] == obj[k]
      decreases keys
    {
      var k :| k in keys;
      if k in allowed {
        r := r[k := obj[k]];
      }
      keys := keys - {k};
    }
  }

  /** The whitelist of updateMe. */
  const ProfileFields: seq<string> := ["firstName", "lastName", "gender"]

  /** What filterObj keeps of a body: the whitelisted keys it carries, with their values. */
  function Whitelisted(body: map<string, string>): (r: map<string, string>)
    ensures r.Keys <= body.Keys
    ensures forall k :: k in r ==> k in ProfileFields && r[k] == body[k]
    ensures forall k :: k in body && k in ProfileFields ==> k in r
  {
    map k | k in body && k in ProfileFields :: body[k]
  }

  /** `req.body.password || req.body.confirmPassword`. */
  predicate SendsPassword(body: map<string, string>) {
    || ("password" in body && body["password"] != "")
    || ("confirmPassword" in body && body["confirmPassword"] != "")
  }

  /**
   * The update validators on the filtered body: firstName and lastName are required (an
   * empty string fails), gender is one of the enum's values.
   */
  predicate ProfileValid(update: map<string, string>) {
    && ("firstName" in update ==> update["firstName"] != "")
    && ("lastName" in update ==> update["lastName"] != "")
    && ("gender" in update ==> update["gender"] in {"male", "female"})
  }

  /** The `$set` of the filtered body onto a document. */
  function ApplyProfile(st: StudentState, update: map<string, string>): (r: StudentState)
    ensures "firstName" in update ==> r.firstName == Some(update["firstName"])
    ensures "lastName" in update ==> r.lastName == Some(update["lastName"])
    ensures "gender" in update ==> r.gender == Some(update["gender"])
    ensures r.(firstName := st.firstName, lastName := st.lastName, gender := st.gender) == st
  {
    st.(firstName := if "firstName" in update then Some(update["firstName"]) else st.firstName,
        lastName := if "lastName" in update then Some(update["lastName"]) else st.lastName,
        gender := if "gender" in update then Some(update["gender"]) else st.gender)
  }

  /**
   * Whatever the body holds, the profile update can change only the first name, the last
   * name and the gender, and only to values the body carried under those very keys.
   */
  lemma {:induction false} ProfileUpdateIsConfined(st: StudentState, body: map<string, string>, update: map<string, string>)
    requires forall k :: k in update <==> k in body && k in ProfileFields
    requires forall k :: k in update ==> update[k] == body[k]
    ensures var r := ApplyProfile(st, update);
      && r.(firstName := st.firstName, lastName := st.lastName, gender := st.gender) == st
      && (r.firstName != st.firstName ==> "firstName" in body && r.firstName == Some(body["firstName"]))
      && (r.lastName != st.lastName ==> "lastName" in body && r.lastName == Some(body["lastName"]))
      && (r.gender != st.gender ==> "gender" in body && r.gender == Some(body["gender"]))
      && (forall k :: k in body && k !in ProfileFields ==> k !in update)
  {
    assert "firstName" in ProfileFields && "lastName" in ProfileFields && "gender" in ProfileFields;
  }

  /** The `$set`, made on the found document. */
  method ApplyProfileTo(s: Student, update: map<string, string>)
    modifies s
    ensures s.State() == ApplyProfile(old(s.State()), update)
  {
    var firstName := if "firstName" in update then Some(update["firstName"]) else s.firstName;
    var lastName := if "lastName" in update then Some(update["lastName"]) else s.lastName;
    var gender := if "gender" in update then Some(update["gender"]) else s.gender;
    ghost var st := s.State();
    assert ApplyProfile(st, update) == st.(firstName := firstName, lastName := lastName, gender := gender);
    s.firstName, s.lastName, s.gender := firstName, lastName, gender;
  }

  /**
   * updateMe: a body sending a password is refused; otherwise the whitelisted fields,
   * once validated, are set on the logged-in student if the find still sees it. The answer
   * carries the student's index, or None when findByIdAndUpdate found nothing.
   */
  method UpdateMe(students: seq<Student>, userId: StudentId, body: map<string, string>)
    returns (r: Result<Option<nat>, StudentError>)
    modifies students
    ensures SendsPassword(body) ==> r == Err(PasswordRouteMisuse)
    ensures !SendsPassword(body) && !ProfileValid(Whitelisted(body)) ==> r == Err(ProfileRejected)
    ensures !SendsPassword(body) && ProfileValid(Whitelisted(body)) ==> r == Ok(old(FindOne(students, ById(userId))))
    ensures r.Err? ==> forall j :: 0 <= j < |students| ==> unchanged(students[j])
    ensures r.Ok? && r.value.Some? ==>
      var s := students[r.value.value];
      && s.State() == ApplyProfile(old(s.State()), Whitelisted(body))
      && (forall j :: 0 <= j < |students| && students[j] != s ==> unchanged(students[j]))
    ensures r.Ok? && r.value.None? ==> forall j :: 0 <= j < |students| ==> unchanged(students[j])
  {
    if Truthy(if "password" in body then Some(body["password"]) else None)
      || Truthy(if "confirmPassword" in body then Some(body["confirmPassword"]) else None) {
      return Err(PasswordRouteMisuse);
    }
    var update := FilterObj(body, ProfileFields);
    assert update == Whitelisted(body);
    if !ProfileValid(update) {
      return Err(ProfileRejected);
    }
    var found := FindOne(students, ById(userId));
    if found.None? {
      return Ok(None);
    }
    ApplyProfileTo(students[found.value], update);
    r := Ok(found);
  }

  // ---------------------------------------------------------------------------
  // deleteMe, logout, getAllStudents

  /** deleteMe: the logged-in student, if still visible, is deactivated and from then on found by no query. */
  method DeleteMe(students: seq<Student>, userId: StudentId)
    modifies students
    ensures var found := old(FindOne(students, ById(userId)));
      && (found.None? ==> forall j :: 0 <= j < |students| ==> unchanged(students[j]))
      && (found.Some? ==>
            var s := students[found.value];
            && s.State() == old(s.State()).(active := false)
            && (forall q :: !Matches(s, q))
            && (forall j :: 0 <= j < |students| && students[j] != s ==> unchanged(students[j])))
  {
    var found := FindOne(students, ById(userId));
    if found.Some? {
      students[found.value].active := false;
    }
  }

  /** A session is current when it was issued for the student's present jwtVersion. */
  predicate SessionCurrent(s: Student, session: Session)
    reads s
  {
    session.id == s.id && session.jwtVersion == s.jwtVersion
  }

  /**
   * logout: `$inc: {jwtVersion: 1}` on the logged-in student, so every session issued
   * before carries a smaller version than the student now has.
   */
  method Logout(students: seq<Student>, userId: StudentId)
    modifies students
    ensures var found := old(FindOne(students, ById(userId)));
      && (found.None? ==> forall j :: 0 <= j < |students| ==> unchanged(students[j]))
      && (found.Some? ==>
            var s := students[found.value];
            && s.State() == old(s.State()).(jwtVersion := old(s.jwtVersion) + 1)
            && (forall t: Session :: old(SessionCurrent(s, t)) ==> !SessionCurrent(s, t))
            && (forall j :: 0 <= j < |students| && students[j] != s ==> unchanged(students[j])))
  {
    var found := FindOne(students, ById(userId));
    if found.Some? {
      var s := students[found.value];
      s.jwtVersion := s.jwtVersion + 1;
    }
  }

  /** getAllStudents: `Student.find()`, so the visible students in collection order. */
  function AllStudents(students: seq<Student>): (r: seq<Student>)
    reads students
    ensures |r| <= |students|
    ensures forall i :: 0 <= i < |r| ==> r[i] in students && r[i].active
    ensures forall i :: 0 <= i < |students| && students[i].active ==> students[i] in r
  {
    if |students| == 0 then []
    else
      var rest := AllStudents(students[1..]);
      assert forall i :: 0 < i < |students| ==> students[i] == students[1..][i - 1];
      (if students[0].active then [students[0]] else []) + rest
  }

  /** The list keeps the collection's order: listing two runs of documents is listing each in turn. */
  lemma {:induction false} AllStudentsConcat(a: seq<Student>, b: seq<Student>)
    ensures AllStudents(a + b) == AllStudents(a) + AllStudents(b)
    decreases |a|
  {
    if |a| == 0 {
      assert a + b == b;
    } else {
      assert (a + b)[1..] == a[1..] + b;
      AllStudentsConcat(a[1..], b);
    }
  }
}
