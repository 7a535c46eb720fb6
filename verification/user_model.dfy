/**
 * The user document: the student schema's password machinery with `password` and
 * `confirmPassword` required, plus the role enum.
 */
module UserModel {
  import opened Wrappers
  import opened PasswordPolicy
  import opened JsValues
  import Hex

  /** The role enum; a missing role takes the default, Student. */
  datatype Role = Student | Admin | Teacher | Alumni

  function RoleName(role: Role): (name: string)
    ensures ParseRole(Some(name)) == Some(role)
  {
    match role
    case Student => "student"
    case Admin => "admin"
    case Teacher => "teacher"
    case Alumni => "alumni"
  }

  /** Casting a raw role: the default for a missing value, the enum check for a given one. */
  function ParseRole(raw: Option<string>): (r: Option<Role>)
    ensures raw.None? ==> r == Some(Student)
    ensures raw.Some? ==> (r.Some? <==> raw.value in {"student", "admin", "teacher", "alumni"})
  {
    match raw
    case None => Some(Student)
    case Some(name) =>
      if name == "student" then Some(Student)
      else if name == "admin" then Some(Admin)
      else if name == "teacher" then Some(Teacher)
      else if name == "alumni" then Some(Alumni)
      else None
  }

  datatype UserState = UserState(
    firstName: string,
    lastName: string,
    email: string,
    photo: Option<string>,
    role: Role,
    password: Option<string>,
    confirmPassword: Option<string>,
    passwordChangedAt: Option<int>,
    passwordResetToken: Option<string>,
    passwordResetExpires: Option<int>,
    active: bool,
    isNew: bool,
    modified: set<Path>)
  {
    function Credentials(): Credentials {
      PasswordPolicy.Credentials(password, confirmPassword, passwordChangedAt)
    }

    function WithCredentials(c: Credentials): UserState {
      this.(password := c.password, confirmPassword := c.confirmPassword, passwordChangedAt := c.passwordChangedAt)
    }
  }

  /** save() on a user: as for students, but both password fields are required. */
  function SaveUser(st: UserState, validate: bool, bcrypt: string -> string, now: int): (r: Result<UserState, SaveError>)
    ensures r.Ok? <==> SaveCredentials(st.Credentials(), st.isNew, st.modified, validate, true, bcrypt, now).Ok?
    ensures r.Ok? ==> (r.value ==
      st.WithCredentials(SaveCredentials(st.Credentials(), st.isNew, st.modified, validate, true, bcrypt, now).value)
        .(isNew := false, modified := {}))
    ensures r.Err? ==> r.error == SaveCredentials(st.Credentials(), st.isNew, st.modified, validate, true, bcrypt, now).error
  {
    match SaveCredentials(st.Credentials(), st.isNew, st.modified, validate, true, bcrypt, now)
    case Err(e) => Err(e)
    case Ok(c) => Ok(st.WithCredentials(c).(isNew := false, modified := {}))
  }

  /**
   * Creating a user (a new document whose password and confirmPassword were both just set)
   * succeeds exactly when the password has at least 8 characters and the confirmation
   * equals it; the stored password is then the hash, the confirmation is gone and no
   * change time is recorded.
   */
  lemma CreateUserSave(st: UserState, bcrypt: string -> string, now: int)
    requires st.isNew && st.modified == {PasswordPath, ConfirmPasswordPath}
    requires st.password.Some? && st.confirmPassword.Some?
    ensures SaveUser(st, true, bcrypt, now).Ok? <==>
      |st.password.value| >= MinPasswordLength && st.confirmPassword == st.password
    ensures SaveUser(st, true, bcrypt, now).Ok? ==>
      var saved := SaveUser(st, true, bcrypt, now).value;
      saved.password == Some(bcrypt(st.password.value)) && saved.confirmPassword.None?
      && saved.passwordChangedAt == st.passwordChangedAt
  {
  }

  /**
   * The first hook drops confirmPassword, so once a password change has been saved, a
   * validated save fails on the required confirmation until it is supplied again; this is
   * why password flows on stored users save with validation off.
   */
  lemma {:induction false} ValidatedResaveNeedsConfirmation(st: UserState, bcrypt: string -> string, now: int, later: int)
    requires PasswordPath in st.modified && SaveUser(st, true, bcrypt, now).Ok?
    ensures SaveUser(SaveUser(st, true, bcrypt, now).value, true, bcrypt, later) == Err(ValidationFailed(ConfirmPasswordPath))
  {
    var saved := SaveUser(st, true, bcrypt, now).value;
    assert saved.confirmPassword.None? && saved.password.Some?;
    assert CheckCredentials(saved.Credentials(), saved.modified, true) == Fail(ValidationFailed(ConfirmPasswordPath));
  }

  class User {
    var firstName: string
    var lastName: string
    var email: string
    var photo: Option<string>
    var role: Role
    var password: Option<string>
    var confirmPassword: Option<string>
    var passwordChangedAt: Option<int>
    var passwordResetToken: Option<string>
    var passwordResetExpires: Option<int>
    var active: bool
    var isNew: bool
    var modified: set<Path>

    function State(): UserState
      reads this
    {
      UserState(firstName, lastName, email, photo, role, password, confirmPassword, passwordChangedAt,
        passwordResetToken, passwordResetExpires, active, isNew, modified)
    }

    /** User.create before its save: the given fields, the defaults, both password paths modified. */
    constructor Create(firstName: string, lastName: string, email: string, role: Role, password: string, confirmPassword: string)
      ensures State() == UserState(firstName, lastName, ToLower(email), None, role, Some(password), Some(confirmPassword),
        None, None, None, true, true, {PasswordPath, ConfirmPasswordPath})
    {
      this.firstName := firstName;
      this.lastName := lastName;
      this.email := ToLower(email);
      this.photo := None;
      this.role := role;
      this.password := Some(password);
      this.confirmPassword := Some(confirmPassword);
      this.passwordChangedAt := None;
      this.passwordResetToken := None;
      this.passwordResetExpires := None;
      this.active := true;
      this.isNew := true;
      this.modified := {PasswordPath, ConfirmPasswordPath};
    }

    /** The first pre-save hook, run on the document. */
    method HashPasswordHook(bcrypt: string -> string) returns (ok: bool)
      modifies this
      ensures ok == HashHook(old(State()).Credentials(), old(modified), bcrypt).Ok?
      ensures ok ==> State() == old(State()).WithCredentials(HashHook(old(State()).Credentials(), old(modified), bcrypt).value)
      ensures !ok ==> State() == old(State())
    {
      if PasswordPath !in modified {
        return true;
      }
      if password.None? {
        return false;
      }
      password := Some(bcrypt(password.value));
      confirmPassword := None;
      ok := true;
    }

    /** The second pre-save hook, run on the document. */
    method ChangedAtHookStep(now: int)
      modifies this
      ensures State() == old(State()).WithCredentials(ChangedAtHook(old(State()).Credentials(), old(isNew), old(modified), now))
    {
      if PasswordPath in modified && !isNew {
        passwordChangedAt := Some(now - ChangedAtBackdateMs);
      }
    }

    /** save() with its validators and both pre-save hooks. */
    method Save(validate: bool, bcrypt: string -> string, now: int) returns (r: Outcome<SaveError>)
      modifies this
      ensures r.Pass? <==> SaveUser(old(State()), validate, bcrypt, now).Ok?
      ensures r.Pass? ==> State() == SaveUser(old(State()), validate, bcrypt, now).value
      ensures r.Fail? ==> r.error == SaveUser(old(State()), validate, bcrypt, now).error
      ensures r.Fail? ==> State() == old(State())
    {
      if validate {
        var checked := CheckCredentials(Credentials(password, confirmPassword, passwordChangedAt), modified, true);
        if checked.Fail? {
          return Fail(checked.error);
        }
      }
      var ok := HashPasswordHook(bcrypt);
      if !ok {
        return Fail(HashFailed);
      }
      ChangedAtHookStep(now);
      isNew := false;
      modified := {};
      r := Pass;
    }

    /** changedPasswordAfter(JWTTimestamp). */
    function ChangedPasswordAfter(jwtTimestamp: int): (r: bool)
      reads this
      ensures passwordChangedAt.None? ==> !r
      ensures passwordChangedAt.Some? && passwordChangedAt.value >= 0 ==>
        (r <==> (jwtTimestamp + 1) * 1000 <= passwordChangedAt.value)
      ensures r == PasswordChangedAfter(passwordChangedAt, jwtTimestamp)
    {
      if passwordChangedAt.None? then false
      else
        PasswordChangedAfterMeaning(passwordChangedAt.value, jwtTimestamp);
        PasswordChangedAfter(passwordChangedAt, jwtTimestamp)
    }

    /** createPasswordResetToken, with the 32 random bytes as an input. */
    method CreatePasswordResetToken(random: seq<Hex.Byte>, sha256: string -> string, now: int) returns (token: string)
      requires |random| == 32
      modifies this
      ensures token == Hex.Encode(random) && |token| == 64 && Hex.IsHexString(token)
      ensures State() == old(State()).(passwordResetToken := Some(sha256(token)),
        passwordResetExpires := Some(ResetExpiry(now)))
    {
      token := Hex.Encode(random);
      passwordResetToken := Some(sha256(token));
      passwordResetExpires := Some(now + ResetTokenLifetimeMs);
    }

    /** correctPassword(candidate, stored): bcrypt.compare, which throws (None) on a missing hash. */
    function CorrectPassword(candidate: string, compare: (string, string) -> bool): (r: Option<bool>)
      reads this
      ensures r.None? <==> password.None?
      ensures r == Some(true) <==> password.Some? && compare(candidate, password.value)
      ensures r == Some(false) <==> password.Some? && !compare(candidate, password.value)
      ensures r == ComparePassword(password, candidate, compare)
    {
      ComparePassword(password, candidate, compare)
    }
  }
}
