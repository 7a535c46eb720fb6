/**
 * The password logic that the student schema and the user schema share line for line:
 * the two pre-save hooks, the confirmPassword validator, changedPasswordAfter and the
 * reset-token lifetime. Times are milliseconds since the epoch; JWT timestamps are seconds.
 */
module PasswordPolicy {
  import opened Wrappers

  /** The document paths whose modification the hooks and validators consult. */
  datatype Path = PasswordPath | ConfirmPasswordPath

  /** The three fields the save hooks read and write. */
  datatype Credentials = Credentials(
    password: Option<string>,
    confirmPassword: Option<string>,
    passwordChangedAt: Option<int>)

  datatype SaveError =
    | ValidationFailed(path: Path)
      /** bcrypt.hashSync throws on an undefined password. */
    | HashFailed

  const MinPasswordLength := 8
  /** passwordChangedAt is backdated by one second. */
  const ChangedAtBackdateMs := 1000
  /** Reset tokens live 10 minutes. */
  const ResetTokenLifetimeMs := 10 * 60 * 1000

  /** The confirmPassword validator: `el === this.password`. */
  predicate ConfirmMatches(confirm: string, password: Option<string>) {
    password == Some(confirm)
  }

  /**
   * The validators that run before the hooks: minLength on a modified password, the
   * confirmPassword validator on a set confirmPassword, and, where the schema marks them
   * `required` (the user schema), presence of both fields.
   */
  function CheckCredentials(c: Credentials, modified: set<Path>, required: bool): (r: Outcome<SaveError>)
    ensures r.Pass? && c.confirmPassword.Some? ==> ConfirmMatches(c.confirmPassword.value, c.password)
    ensures r.Pass? && required ==> c.password.Some? && c.confirmPassword.Some?
    ensures r.Pass? && PasswordPath in modified && c.password.Some? ==> |c.password.value| >= MinPasswordLength
    ensures !required && c.confirmPassword.None? && PasswordPath !in modified ==> r.Pass?
    ensures r.Pass? <==>
      && (required ==> c.password.Some? && c.confirmPassword.Some?)
      && (PasswordPath in modified && c.password.Some? ==> |c.password.value| >= MinPasswordLength)
      && (c.confirmPassword.Some? ==> ConfirmMatches(c.confirmPassword.value, c.password))
    ensures r.Fail? ==> r.error in {ValidationFailed(PasswordPath), ValidationFailed(ConfirmPasswordPath)}
  {
    if required && c.password.None? then Fail(ValidationFailed(PasswordPath))
    else if PasswordPath in modified && c.password.Some? && |c.password.value| < MinPasswordLength then
      Fail(ValidationFailed(PasswordPath))
    else if required && c.confirmPassword.None? then Fail(ValidationFailed(ConfirmPasswordPath))
    else if c.confirmPassword.Some? && !ConfirmMatches(c.confirmPassword.value, c.password) then
      Fail(ValidationFailed(ConfirmPasswordPath))
    else Pass
  }

  /** First pre-save hook: hash a modified password and drop the confirmation. */
  function HashHook(c: Credentials, modified: set<Path>, bcrypt: string -> string): Result<Credentials, SaveError> {
    if PasswordPath !in modified then Ok(c)
    else if c.password.None? then Err(HashFailed)
    else Ok(c.(password := Some(bcrypt(c.password.value)), confirmPassword := None))
  }

  /** Second pre-save hook: stamp passwordChangedAt for a modified password on a stored document. */
  function ChangedAtHook(c: Credentials, isNew: bool, modified: set<Path>, now: int): Credentials {
    if PasswordPath !in modified || isNew then c
    else c.(passwordChangedAt := Some(now - ChangedAtBackdateMs))
  }

  /** Both hooks in registration order. */
  function RunSaveHooks(c: Credentials, isNew: bool, modified: set<Path>, bcrypt: string -> string, now: int): (r: Result<Credentials, SaveError>)
    ensures PasswordPath !in modified ==> r == Ok(c)
    ensures PasswordPath in modified ==> (r.Ok? <==> c.password.Some?)
    ensures r.Ok? && PasswordPath in modified ==>
      r.value.password == Some(bcrypt(c.password.value)) && r.value.confirmPassword.None?
    ensures r.Ok? && r.value.passwordChangedAt != c.passwordChangedAt ==> PasswordPath in modified && !isNew
    ensures r.Ok? && PasswordPath in modified && !isNew ==> r.value.passwordChangedAt == Some(now - ChangedAtBackdateMs)
  {
    match HashHook(c, modified, bcrypt)
    case Err(e) => Err(e)
    case Ok(hashed) => Ok(ChangedAtHook(hashed, isNew, modified, now))
  }

  /**
   * save() on the three credential fields: the validators (unless `validateBeforeSave` is
   * false), then both hooks. `required` is the user schema's presence rule.
   */
  function SaveCredentials(c: Credentials, isNew: bool, modified: set<Path>, validate: bool, required: bool,
                           bcrypt: string -> string, now: int): (r: Result<Credentials, SaveError>)
    ensures r.Err? <==>
      (validate && CheckCredentials(c, modified, required).Fail?) || (PasswordPath in modified && c.password.None?)
    ensures validate && CheckCredentials(c, modified, required).Fail? ==>
      r == Err(CheckCredentials(c, modified, required).error)
    ensures r.Ok? && validate ==> CheckCredentials(c, modified, required).Pass?
    ensures r.Ok? && PasswordPath !in modified ==> r.value == c
    ensures r.Ok? && PasswordPath in modified ==>
      r.value.password == Some(bcrypt(c.password.value)) && r.value.confirmPassword.None?
    ensures r.Ok? && r.value.passwordChangedAt != c.passwordChangedAt ==> PasswordPath in modified && !isNew
    ensures r.Ok? && PasswordPath in modified && !isNew ==> r.value.passwordChangedAt == Some(now - ChangedAtBackdateMs)
  {
    var checked := CheckCredentials(c, modified, required);
    if validate && checked.Fail? then Err(checked.error)
    else RunSaveHooks(c, isNew, modified, bcrypt, now)
  }

  /** JavaScript's parseInt applied to a quotient: the quotient truncated toward zero. */
  function TruncDiv(a: int, b: int): int
    requires b > 0
  {
    if a >= 0 then a / b else -((-a) / b)
  }

  /**
   * changedPasswordAfter: false without a change time, otherwise whether the token's
   * issue second lies before the whole second of the change.
   */
  function PasswordChangedAfter(changedAtMs: Option<int>, jwtTimestamp: int): (r: bool)
    ensures r ==> changedAtMs.Some? && jwtTimestamp * 1000 < changedAtMs.value
    ensures changedAtMs.Some? && (jwtTimestamp + 1) * 1000 <= changedAtMs.value ==> r
  {
    match changedAtMs
    case None => false
    case Some(ms) =>
      WholeSeconds(ms);
      jwtTimestamp < TruncDiv(ms, 1000)
  }

  /** The whole seconds parseInt keeps of a millisecond count lie within a second of it, toward zero. */
  lemma WholeSeconds(ms: int)
    ensures ms >= 0 ==> 0 <= TruncDiv(ms, 1000) * 1000 <= ms < TruncDiv(ms, 1000) * 1000 + 1000
    ensures ms < 0 ==> TruncDiv(ms, 1000) * 1000 - 1000 < ms <= TruncDiv(ms, 1000) * 1000 <= 0
  {
    if ms >= 0 {
      var q := ms / 1000;
      assert q * 1000 <= ms < (q + 1) * 1000;
    } else {
      var q := (-ms) / 1000;
      assert q * 1000 <= -ms < (q + 1) * 1000;
    }
  }

  /**
   * What the comparison means in milliseconds: for a change at or after the epoch, a token
   * is stale exactly when the whole second after its issue second had begun by the change;
   * for a change before the epoch (where parseInt rounds up), exactly when it was issued
   * before the change.
   */
  lemma PasswordChangedAfterMeaning(ms: int, jwtTimestamp: int)
    ensures ms >= 0 ==> (PasswordChangedAfter(Some(ms), jwtTimestamp) <==> (jwtTimestamp + 1) * 1000 <= ms)
    ensures ms < 0 ==> (PasswordChangedAfter(Some(ms), jwtTimestamp) <==> jwtTimestamp * 1000 < ms)
  {
    if ms >= 0 {
      var q := ms / 1000;
      assert q * 1000 <= ms < (q + 1) * 1000;
      if jwtTimestamp < q {
        assert (jwtTimestamp + 1) * 1000 <= q * 1000;
      } else {
        assert (jwtTimestamp + 1) * 1000 >= (q + 1) * 1000;
      }
    } else {
      var q := (-ms) / 1000;
      assert q * 1000 <= -ms < (q + 1) * 1000;
      if jwtTimestamp < -q {
        assert jwtTimestamp * 1000 <= (-q - 1) * 1000;
      } else {
        assert jwtTimestamp * 1000 >= -q * 1000;
      }
    }
  }

  /**
   * The one-second backdating of the second hook: a token issued in the same second as the
   * save, or later, is never reported as older than the password change.
   */
  lemma {:induction false} FreshTokenSurvivesChange(now: int, jwtTimestamp: int)
    requires jwtTimestamp >= TruncDiv(now, 1000)
    ensures !PasswordChangedAfter(Some(now - ChangedAtBackdateMs), jwtTimestamp)
  {
    TruncDivMonotone(now - ChangedAtBackdateMs, now);
  }

  lemma TruncDivMonotone(a: int, b: int)
    requires a <= b
    ensures TruncDiv(a, 1000) <= TruncDiv(b, 1000)
  {
    if a < 0 && b >= 0 {
      assert TruncDiv(a, 1000) <= 0 <= TruncDiv(b, 1000);
    } else if a < 0 {
      assert (-b) / 1000 <= (-a) / 1000;
    }
  }

  /**
   * correctPassword, shared by both schemas: bcrypt.compare of the candidate with the
   * stored hash, which throws (None) when no hash is stored.
   */
  function ComparePassword(stored: Option<string>, candidate: string, compare: (string, string) -> bool): (r: Option<bool>)
    ensures r.None? <==> stored.None?
    ensures r == Some(true) <==> stored.Some? && compare(candidate, stored.value)
    ensures r == Some(false) <==> stored.Some? && !compare(candidate, stored.value)
  {
    if stored.None? then None else Some(compare(candidate, stored.value))
  }

  /** The `passwordResetExpires: {$gt: Date.now()}` filter of resetPassword. */
  predicate ResetTokenUsable(expiresMs: Option<int>, now: int) {
    expiresMs.Some? && expiresMs.value > now
  }

  /** The expiry createPasswordResetToken stores: usable strictly less than 10 minutes. */
  function ResetExpiry(createdMs: int): (e: int)
    ensures forall now :: ResetTokenUsable(Some(e), now) <==> now < createdMs + 600000
  {
    createdMs + ResetTokenLifetimeMs
  }
}
