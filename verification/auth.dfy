/** The authentication handlers of controllers/auth.js: register, login, logout, and the two steps of
    a password reset.

    Each handler is a function from the database and the request to a `Response`. The time, the
    random reset token, the outcome of sending the email, salts and the identifier of a new user are
    parameters. */
module Auth {
  import opened Wrappers
  import opened Store
  import opened Errors
  import opened UserModel
  import Schema

  const ProvideCredentials := "Please provide an email and password"
  const InvalidCredentials := "Invalid credentials"
  const NoSuchUser := "There is no user with that email"
  const EmailSent := "Email sent"
  const EmailProblem := "There was a problem while sending the email"
  const InvalidToken := "Invalid token"

  /** The condition `{ email }`. */
  function ByEmail(email: string): User -> bool {
    (u: User) => u.email == email
  }

  /** The condition `{ resetPasswordToken: hashed, resetPasswordExpire: { $gt: now } }`. */
  function Resettable(hashed: string, now: int): User -> bool {
    (u: User) => u.resetToken == Some(hashed) && u.resetExpire.Some? && u.resetExpire.value > now
  }

  /** `register`: `User.create` with the four fields of the body, then a token for the new user. */
  function Register(db: Db, draft: Draft, id: Id, c: Crypto, salt: nat, isEmail: string -> bool,
                    jwtExpire: Option<string>): (r: Response<Token>)
    ensures var created := Create(db.users, draft, id, c, salt, isEmail);
              && (created.Failure? ==> r == Response(Err(created.error), db))
              && (created.Success? ==> r == Response(Ok(200, SignedToken(created.value[|db.users|], jwtExpire)),
                                                     db.(users := created.value)))
  {
    match Create(db.users, draft, id, c, salt, isEmail)
    case Failure(e) => Response(Err(e), db)
    case Success(users) => Response(Ok(200, SignedToken(users[|db.users|], jwtExpire)), db.(users := users))
  }

  /** `login`: a missing email or password is rejected before any lookup; an unknown email and a wrong
      password are rejected identically; otherwise a token for the user found. */
  function Login(db: Db, email: Option<string>, password: Option<string>, c: Crypto, jwtExpire: Option<string>)
    : (r: Outcome<Token>)
    ensures !Schema.Present(email) || !Schema.Present(password) ==> r == Err(ErrorResponse(ProvideCredentials, 400))
    ensures Schema.Present(email) && Schema.Present(password) ==>
              var found := FirstUser(db.users, ByEmail(email.value));
              && (found.None? ==> r == Err(ErrorResponse(InvalidCredentials, 401)))
              && (found.Some? ==> (r.Ok? <==> CheckPassword(db.users[found.value], password.value, c)))
              && (found.Some? && r.Ok? ==> r == Ok(200, SignedToken(db.users[found.value], jwtExpire)))
              && (r.Err? ==> r == Err(ErrorResponse(InvalidCredentials, 401)))
  {
    if !Schema.Present(email) || !Schema.Present(password) then Err(ErrorResponse(ProvideCredentials, 400))
    else
      match FirstUser(db.users, ByEmail(email.value))
      case None => Err(ErrorResponse(InvalidCredentials, 401))
      case Some(i) =>
        if !CheckPassword(db.users[i], password.value, c) then Err(ErrorResponse(InvalidCredentials, 401))
        else Ok(200, SignedToken(db.users[i], jwtExpire))
  }

  /** The client cannot tell an unknown email from a wrong password: both are 401 "Invalid credentials",
      or, should the copy in the translator lose the message, both are 401 "Server Error". */
  lemma LoginFailuresAlike(db: Db, email: string, password: string, c: Crypto, jwtExpire: Option<string>)
    requires email != "" && password != ""
    requires Login(db, Some(email), Some(password), c, jwtExpire).Err?
    ensures Login(db, Some(email), Some(password), c, jwtExpire).Status() == 401
    ensures Translate(Login(db, Some(email), Some(password), c, jwtExpire).error)
            == ErrorReply(401, false, Text(InvalidCredentials))
    ensures Translate(Login(db, Some(email), Some(password), c, jwtExpire).error.(message := None))
            == ErrorReply(401, false, Text(ServerError))
  {
  }

  /** A user who registers with a password can then log in with it, and receives a token for the new
      account. */
  lemma RegisterThenLogin(db: Db, draft: Draft, id: Id, c: Crypto, salt: nat, isEmail: string -> bool,
                          jwtExpire: Option<string>)
    requires Correct(c)
    requires Register(db, draft, id, c, salt, isEmail, jwtExpire).outcome.Ok?
    ensures var after := Register(db, draft, id, c, salt, isEmail, jwtExpire).db;
              Login(after, draft.email, draft.password, c, jwtExpire)
              == Ok(200, SignedToken(after.users[|db.users|], jwtExpire))
    ensures Register(db, draft, id, c, salt, isEmail, jwtExpire).db.users[|db.users|].id == id
  {
    var users := Create(db.users, draft, id, c, salt, isEmail).value;
    var found := FirstUser(users, ByEmail(draft.email.value));
    assert ByEmail(draft.email.value)(users[|db.users|]);
    forall j | 0 <= j < |db.users| ensures !ByEmail(draft.email.value)(users[j]) {
      assert users[j] == users[..|db.users|][j];
    }
    assert found == Some(|db.users|);
    assert users[|db.users|].password == c.hash(draft.password.value, salt);
  }

  /** The cookie `logout` sets. */
  datatype Cookie = Cookie(name: string, value: string, lifetimeMs: nat, httpOnly: bool)

  datatype LoggedOut = LoggedOut(response: Response<Empty>, cookie: Cookie)

  /** `logout`: whatever the state, the token cookie is overwritten with "none" for ten seconds and the
      answer is 200 with empty data; nothing is stored. */
  function Logout(db: Db): (r: LoggedOut)
    ensures r.response == Response(Ok(200, Empty), db)
    ensures r.cookie.name == "token" && r.cookie.value == "none" && r.cookie.lifetimeMs == 10 * 1000
  {
    LoggedOut(Response(Ok(200, Empty), db), Cookie("token", "none", 10 * 1000, true))
  }

  /** `forgotPassword`. The user is loaded without its password. The reset token is stored as its
      SHA-256 with the expiry `expireAt`; `delivered` says whether sending the email succeeded. A save
      that fails inside the `try` falls into the `catch`, which clears both fields and saves again; a
      failure of that second save leaves the handler as an error. */
  function ForgotPassword(hook: HashHook, db: Db, email: Option<string>, raw: string, expireAt: int,
                          delivered: bool, c: Crypto, salt: nat): (r: Response<string>)
    ensures var found := if email.Some? then FirstUser(db.users, ByEmail(email.value)) else None;
              found.None? ==> r == Response(Err(ErrorResponse(NoSuchUser, 404)), db)
    ensures r.outcome.Ok? ==> r.outcome == Ok(200, EmailSent) && delivered
  {
    var found := if email.Some? then FirstUser(db.users, ByEmail(email.value)) else None;
    match found
    case None => Response(Err(ErrorResponse(NoSuchUser, 404)), db)
    case Some(i) =>
      var u := db.users[i];
      var withToken := Loaded(u.(resetToken := Some(c.sha256(raw)), resetExpire := Some(expireAt)));
      var saved := if delivered then Save(hook, db.users, i, withToken, c, salt) else Failure(Thrown("Error"));
      match saved
      case Success(users) => Response(Ok(200, EmailSent), db.(users := users))
      case Failure(_) =>
        var cleared := Loaded(u.(resetToken := None, resetExpire := None));
        match Save(hook, db.users, i, cleared, c, salt)
        case Success(users) => Response(Err(ErrorResponse(EmailProblem, 500)), db.(users := users))
        case Failure(e) => Response(Err(e), db)
  }

  /** With a hook that hashes only an assigned password: when the email goes out, the hashed token and
      its expiry are stored and the answer is "Email sent"; when it does not, both fields are cleared
      and the answer is 500. No other user changes, and the password is untouched. */
  lemma ForgotPasswordRollsBack(db: Db, email: string, raw: string, expireAt: int, delivered: bool,
                                c: Crypto, salt: nat)
    requires FirstUser(db.users, ByEmail(email)).Some?
    ensures var i := FirstUser(db.users, ByEmail(email)).value;
            var r := ForgotPassword(WhenModified, db, Some(email), raw, expireAt, delivered, c, salt);
              && |r.db.users| == |db.users|
              && (forall j :: 0 <= j < |db.users| && j != i ==> r.db.users[j] == db.users[j])
              && r.db.users[i].password == db.users[i].password
              && r.db.bootcamps == db.bootcamps && r.db.courses == db.courses
              && (delivered ==> r.outcome == Ok(200, EmailSent)
                                && r.db.users[i].resetToken == Some(c.sha256(raw))
                                && r.db.users[i].resetExpire == Some(expireAt))
              && (!delivered ==> r.outcome == Err(ErrorResponse(EmailProblem, 500))
                                 && r.outcome.Status() == 500
                                 && r.db.users[i].resetToken.None? && r.db.users[i].resetExpire.None?)
  {
  }

  /** As models/User.js declares the hook, it hashes the password on every save; the user was loaded
      without it, so bcrypt is handed `undefined` and both saves reject. Every request for an existing
      user ends in 500 "Server Error", with nothing stored, whether or not the email went out. */
  lemma ForgotPasswordAlwaysFails(db: Db, email: string, raw: string, expireAt: int, delivered: bool,
                                  c: Crypto, salt: nat)
    requires FirstUser(db.users, ByEmail(email)).Some?
    ensures var r := ForgotPassword(EverySave, db, Some(email), raw, expireAt, delivered, c, salt);
              && r.db == db
              && r.outcome == Err(Thrown("Error"))
              && Translate(r.outcome.error) == ErrorReply(500, false, Text(ServerError))
  {
  }

  /** `resetPassword`. The user holding the hashed token with an expiry after `now` is loaded without
      its password; the new password is assigned and both reset fields are cleared; the save validates
      the whole document, and its hook hashes the new password. */
  function ResetPassword(hook: HashHook, db: Db, raw: string, password: Option<string>, now: int, c: Crypto,
                         salt: nat, isEmail: string -> bool, jwtExpire: Option<string>): (r: Response<Token>)
    ensures var found := FirstUser(db.users, Resettable(c.sha256(raw), now));
              && (found.None? ==> r == Response(Err(ErrorResponse(InvalidToken, 400)), db))
              && (r.outcome.Ok? <==>
                    (found.Some? &&
                     var u := db.users[found.value];
                     Failures(Some(u.name), Some(u.email), u.role, password, isEmail) == []))
              && (r.outcome.Err? ==> r.db == db)
              && (r.outcome.Ok? ==>
                    var i := found.value;
                    && r.outcome == Ok(200, SignedToken(db.users[i], jwtExpire))
                    && |r.db.users| == |db.users|
                    && (forall j :: 0 <= j < |db.users| && j != i ==> r.db.users[j] == db.users[j])
                    && r.db.users[i] == db.users[i].(password := c.hash(password.value, salt),
                                                      resetToken := None, resetExpire := None)
                    && r.db.bootcamps == db.bootcamps && r.db.courses == db.courses)
  {
    match FirstUser(db.users, Resettable(c.sha256(raw), now))
    case None => Response(Err(ErrorResponse(InvalidToken, 400)), db)
    case Some(i) =>
      var u := db.users[i];
      var failures := Failures(Some(u.name), Some(u.email), u.role, password, isEmail);
      if failures != [] then Response(Err(ValidationError(failures)), db)
      else
        var d := Doc(u.(resetToken := None, resetExpire := None), password, true);
        match Save(hook, db.users, i, d, c, salt)
        case Failure(e) => Response(Err(e), db)
        case Success(users) => Response(Ok(200, SignedToken(u, jwtExpire)), db.(users := users))
  }

  /** Reset succeeds exactly for a stored token equal to the hash of the raw one whose expiry is
      strictly after now, given an acceptable new password. */
  lemma ResetNeedsLiveToken(hook: HashHook, db: Db, raw: string, password: Option<string>, now: int, c: Crypto,
                            salt: nat, isEmail: string -> bool, jwtExpire: Option<string>)
    requires ResetPassword(hook, db, raw, password, now, c, salt, isEmail, jwtExpire).outcome.Ok?
    ensures exists i :: 0 <= i < |db.users| && db.users[i].resetToken == Some(c.sha256(raw))
                        && db.users[i].resetExpire.Some? && db.users[i].resetExpire.value > now
  {
    var i := FirstUser(db.users, Resettable(c.sha256(raw), now)).value;
    assert Resettable(c.sha256(raw), now)(db.users[i]);
  }

  /** After a successful reset the token is spent: the same raw token, at any later time and with any
      password, is refused with 400 and changes nothing, provided no other user held the same hash. */
  lemma ResetReplayFails(hook: HashHook, db: Db, raw: string, password: Option<string>, now: int, c: Crypto,
                         salt: nat, isEmail: string -> bool, jwtExpire: Option<string>,
                         later: int, password2: Option<string>, salt2: nat)
    requires ResetPassword(hook, db, raw, password, now, c, salt, isEmail, jwtExpire).outcome.Ok?
    requires forall j :: 0 <= j < |db.users| && db.users[j].resetToken == Some(c.sha256(raw)) ==>
               j == FirstUser(db.users, Resettable(c.sha256(raw), now)).value
    ensures var after := ResetPassword(hook, db, raw, password, now, c, salt, isEmail, jwtExpire).db;
              ResetPassword(hook, after, raw, password2, later, c, salt2, isEmail, jwtExpire)
              == Response(Err(ErrorResponse(InvalidToken, 400)), after)
  {
    var after := ResetPassword(hook, db, raw, password, now, c, salt, isEmail, jwtExpire).db;
    var p := Resettable(c.sha256(raw), later);
    forall j | 0 <= j < |after.users| ensures !p(after.users[j]) {
    }
  }

  /** An admin cannot reset their password: the save validates the whole document, and `admin` is not
      among the roles the schema accepts, so a live token still ends in a 400 ValidationError. */
  lemma AdminResetRejected(hook: HashHook, db: Db, raw: string, password: Option<string>, now: int, c: Crypto,
                           salt: nat, isEmail: string -> bool, jwtExpire: Option<string>)
    requires FirstUser(db.users, Resettable(c.sha256(raw), now)).Some?
    requires db.users[FirstUser(db.users, Resettable(c.sha256(raw), now)).value].role == Admin
    ensures var r := ResetPassword(hook, db, raw, password, now, c, salt, isEmail, jwtExpire);
              r.outcome.Err? && r.outcome.error.name == "ValidationError" && r.outcome.Status() == 400 && r.db == db
  {
    RoleEnum();
  }
}
