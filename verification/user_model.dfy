/** The User model of models/User.js: its validators and default, the `save` hook that hashes the
    password, `checkPassword` and `getSignedJwt`.

    bcrypt and SHA-256 are parameters of the model (a `Crypto` value); salts are parameters too.
    A document loaded from the database does not carry its password unless the query asks for it
    (`select: false`), so the in-memory password of a loaded document is optional. */
module UserModel {
  import opened Wrappers
  import opened Store
  import Schema
  import Errors
  import Text

  const Roles: seq<string> := ["publisher", "user"]
  const DefaultRole := "user"
  const MinPasswordLength: nat := 6
  const DefaultExpiry := "1h"

  const NameRequired := "Please add a name."
  const EmailRequired := "Please add an email."
  /** The message the schema gives for an email that fails its pattern, as the schema spells it. */
  const EmailMismatch := "Phone can not be more than 20 chars."
  const PasswordRequired := "Please add a password."

  function PasswordTooShort(value: string): string {
    "Path `password` (`" + value + "`) is shorter than the minimum allowed length (6)."
  }

  /** bcrypt's `hash(plain, salt)` and `compare(plain, hash)`, and SHA-256 as hex text. */
  datatype Crypto = Crypto(hash: (string, nat) -> string, compare: (string, string) -> bool, sha256: string -> string)

  /** A hash accepts the plain text it was made from. */
  ghost predicate Correct(c: Crypto) {
    forall p, salt :: c.compare(p, c.hash(p, salt))
  }

  /** bcrypt's promise as bcryptjs keeps it: a plain text matches a hash exactly when it agrees with
      the hashed text on their keys, the first 72 bytes of the UTF-8 encoding. */
  ghost predicate Bcrypt(c: Crypto) {
    forall p, x, salt :: c.compare(p, c.hash(x, salt)) <==> BcryptKey(p) == BcryptKey(x)
  }

  predicate Ascii(s: string) {
    forall i :: 0 <= i < |s| ==> s[i] as int < 0x80
  }

  /** The UTF-8 encoding of one character. */
  function Utf8Char(ch: char): (b: seq<int>)
    ensures 1 <= |b| <= 4
    ensures b[0] < 0x80 <==> ch as int < 0x80
    ensures ch as int < 0x80 ==> b == [ch as int]
  {
    var n := ch as int;
    if n < 0x80 then [n]
    else if n < 0x800 then [0xC0 + n / 0x40, 0x80 + n % 0x40]
    else if n < 0x1_0000 then [0xE0 + n / 0x1000, 0x80 + n / 0x40 % 0x40, 0x80 + n % 0x40]
    else [0xF0 + n / 0x4_0000, 0x80 + n / 0x1000 % 0x40, 0x80 + n / 0x40 % 0x40, 0x80 + n % 0x40]
  }

  function Utf8(s: string): (b: seq<int>)
    ensures |b| >= |s|
  {
    if s == [] then [] else Utf8Char(s[0]) + Utf8(s[1..])
  }

  /** The part of a plain text bcrypt hashes: at most 72 bytes of its UTF-8 encoding. */
  function BcryptKey(p: string): (k: seq<int>)
    ensures |k| == if |Utf8(p)| <= 72 then |Utf8(p)| else 72
    ensures k <= Utf8(p)
  {
    var b := Utf8(p);
    if |b| <= 72 then b else b[..72]
  }

  /** ASCII text encodes one byte per character. */
  lemma {:induction false} AsciiUtf8Length(h: string)
    requires Ascii(h)
    ensures |Utf8(h)| == |h|
  {
    if h != [] {
      assert Ascii(h[1..]) by {
        forall i | 0 <= i < |h| - 1 ensures h[1..][i] as int < 0x80 {
          assert h[1..][i] == h[i + 1];
        }
      }
      AsciiUtf8Length(h[1..]);
    }
  }

  /** No other text shares the UTF-8 encoding of an ASCII text. */
  lemma {:induction false} AsciiUtf8Injective(p: string, h: string)
    requires Ascii(h) && Utf8(p) == Utf8(h)
    ensures p == h
  {
    if h == [] {
      assert |Utf8(p)| == 0;
    } else {
      assert p != [];
      assert Utf8(h)[0] == h[0] as int;
      assert Utf8Char(p[0])[0] == Utf8(p)[0];
      assert p[0] as int < 0x80;
      assert Utf8Char(p[0]) == [p[0] as int];
      assert p[0] == h[0];
      assert Utf8(p[1..]) == Utf8(p)[1..] == Utf8(h)[1..] == Utf8(h[1..]);
      assert Ascii(h[1..]) by {
        forall i | 0 <= i < |h| - 1 ensures h[1..][i] as int < 0x80 {
          assert h[1..][i] == h[i + 1];
        }
      }
      AsciiUtf8Injective(p[1..], h[1..]);
      assert p == [p[0]] + p[1..];
      assert h == [h[0]] + h[1..];
    }
  }

  /** The fields `User.create` receives; an absent field is `None`. */
  datatype Draft = Draft(name: Option<string>, email: Option<string>, password: Option<string>, role: Option<string>)

  /** The validation entries of a user, one per failed path in schema order: name, email, role,
      password. `isEmail` is the schema's email pattern. */
  function Failures(name: Option<string>, email: Option<string>, role: string, password: Option<string>,
                    isEmail: string -> bool): (r: seq<string>)
    ensures r == [] <==>
              && Schema.Present(name)
              && Schema.Present(email) && isEmail(email.value)
              && role in Roles
              && Schema.Present(password) && |password.value| >= MinPasswordLength
    ensures !Schema.Present(password) ==> PasswordRequired in r
    ensures email.Some? && email.value != "" && !isEmail(email.value) ==> EmailMismatch in r
  {
    var paths := PathChecks(name, email, role, password, isEmail);
    CheckMeanings(name, email, role, password, isEmail);
    assert (forall i :: 0 <= i < |paths| ==> paths[i].None?) <==>
             paths[0].None? && paths[1].None? && paths[2].None? && paths[3].None?;
    Schema.Failures(paths)
  }

  /** The check of each path in schema order: name, email, role, password. */
  function PathChecks(name: Option<string>, email: Option<string>, role: string, password: Option<string>,
                      isEmail: string -> bool): (r: seq<Option<string>>)
    ensures |r| == 4
  {
    [ Schema.Required(name, NameRequired),
      Schema.FirstFailure([Schema.Required(email, EmailRequired), Schema.Match(email, isEmail, EmailMismatch)]),
      Schema.Enum(Some(role), Roles, "role"),
      Schema.FirstFailure([Schema.Required(password, PasswordRequired),
                           Schema.MinLength(password, MinPasswordLength,
                                            PasswordTooShort(if password.Some? then password.value else ""))]) ]
  }

  /** What each path's check means. */
  lemma CheckMeanings(name: Option<string>, email: Option<string>, role: string, password: Option<string>,
                      isEmail: string -> bool)
    ensures var paths := PathChecks(name, email, role, password, isEmail);
              && (paths[0].None? <==> Schema.Present(name))
              && (paths[1].None? <==> Schema.Present(email) && isEmail(email.value))
              && (paths[2].None? <==> role in Roles)
              && (paths[3].None? <==> Schema.Present(password) && |password.value| >= MinPasswordLength)
              && (!Schema.Present(password) ==> paths[3] == Some(PasswordRequired))
              && (email.Some? && email.value != "" && !isEmail(email.value) ==> paths[1] == Some(EmailMismatch))
  {
    Schema.FirstOfTwo(Schema.Required(email, EmailRequired), Schema.Match(email, isEmail, EmailMismatch));
    Schema.FirstOfTwo(Schema.Required(password, PasswordRequired),
                      Schema.MinLength(password, MinPasswordLength,
                                       PasswordTooShort(if password.Some? then password.value else "")));
  }

  /** `admin` is never an accepted role, and an absent role becomes `user`. */
  lemma RoleEnum()
    ensures "admin" !in Roles
    ensures DefaultRole in Roles
  {
  }

  /** No two users share an email address (the unique index on `email`). */
  predicate UniqueEmails(users: seq<User>) {
    forall i, j :: 0 <= i < j < |users| ==> users[i].email != users[j].email
  }

  /** No two users share an identifier. */
  predicate UniqueIds(users: seq<User>) {
    forall i, j :: 0 <= i < j < |users| ==> users[i].id != users[j].id
  }

  /** Which password-hashing hook runs before a save: the one models/User.js declares, which hashes
      on every save, or one that hashes only a password that was set since the document was loaded. */
  datatype HashHook = EverySave | WhenModified

  /** A user document in memory: the stored fields as loaded or changed, the in-memory password
      (`None` when the query did not select it and nothing was assigned), and whether the password
      was assigned since loading. */
  datatype Doc = Doc(user: User, password: Option<string>, passwordModified: bool)

  /** A document as `findOne` returns it without `select('+password')`. */
  function Loaded(u: User): (d: Doc)
    ensures d.user == u && d.password.None? && !d.passwordModified
  {
    Doc(u, None, false)
  }

  /** A document as `findOne(..).select('+password')` returns it. */
  function LoadedWithPassword(u: User): (d: Doc)
    ensures d.user == u && d.password == Some(u.password) && !d.passwordModified
  {
    Doc(u, Some(u.password), false)
  }

  /** The `save` hook: the password to write, if any. bcrypt rejects an undefined password, which
      rejects the save. */
  function HashPassword(hook: HashHook, d: Doc, c: Crypto, salt: nat): (r: Result<Option<string>, Errors.ErrorValue>)
    ensures hook == EverySave ==> (r.Failure? <==> d.password.None?)
    ensures hook == WhenModified ==> (r.Failure? <==> d.passwordModified && d.password.None?)
    ensures r.Success? && r.value.Some? ==> d.password.Some? && r.value.value == c.hash(d.password.value, salt)
    ensures hook == WhenModified && !d.passwordModified ==> r == Success(None)
    ensures hook == EverySave && d.password.Some? ==> r == Success(Some(c.hash(d.password.value, salt)))
  {
    if hook == WhenModified && !d.passwordModified then Success(None)
    else if d.password.None? then Failure(Errors.Thrown("Error"))
    else Success(Some(c.hash(d.password.value, salt)))
  }

  /** `user.save()` of the document loaded from position `i`: the hook runs, then the document's fields
      are written, the password only when the hook produced one. */
  function Save(hook: HashHook, users: seq<User>, i: nat, d: Doc, c: Crypto, salt: nat): (r: Result<seq<User>, Errors.ErrorValue>)
    requires i < |users|
    ensures r.Success? ==> |r.value| == |users|
    ensures r.Success? ==> forall j :: 0 <= j < |users| && j != i ==> r.value[j] == users[j]
    ensures r.Success? ==> r.value[i].id == d.user.id && r.value[i].resetToken == d.user.resetToken
                           && r.value[i].resetExpire == d.user.resetExpire
    ensures hook == EverySave && r.Success? ==>
              d.password.Some? && r.value[i].password == c.hash(d.password.value, salt)
    ensures hook == WhenModified && !d.passwordModified ==> r.Success? && r.value[i].password == d.user.password
    ensures hook == WhenModified && d.passwordModified && r.Success? ==>
              d.password.Some? && r.value[i].password == c.hash(d.password.value, salt)
  {
    var written :- HashPassword(hook, d, c, salt);
    Success(SetUser(users, i, d.user.(password := written.GetOr(d.user.password))))
  }

  /** `checkPassword(plain)`: bcrypt's comparison of the plain text with the stored hash. */
  function CheckPassword(u: User, plain: string, c: Crypto): bool {
    c.compare(plain, u.password)
  }

  /** The payload of the signed token, and its lifetime. */
  datatype Token = Token(id: Id, expiresIn: string)

  /** `getSignedJwt()`: the payload holds only the user's id; the lifetime is `JWT_EXPIRE`, or "1h"
      when that is unset or empty. Signing with the secret is not modelled. */
  function SignedToken(u: User, jwtExpire: Option<string>): (t: Token)
    ensures t.id == u.id
    ensures jwtExpire.None? || jwtExpire.value == "" ==> t.expiresIn == DefaultExpiry
    ensures jwtExpire.Some? && jwtExpire.value != "" ==> t.expiresIn == jwtExpire.value
  {
    Token(u.id, if jwtExpire.Some? && jwtExpire.value != "" then jwtExpire.value else DefaultExpiry)
  }

  /** `User.create(draft)`: the role defaults to `user`; validation, then the hook, then the insert, which
      the unique indexes on `_id` and `email` can reject. `id` is the identifier the driver assigns. */
  function Create(users: seq<User>, draft: Draft, id: Id, c: Crypto, salt: nat, isEmail: string -> bool)
    : (r: Result<seq<User>, Errors.ErrorValue>)
    ensures r.Success? <==>
              && Failures(draft.name, draft.email, draft.role.GetOr(DefaultRole), draft.password, isEmail) == []
              && forall j :: 0 <= j < |users| ==> users[j].email != draft.email.value && users[j].id != id
    ensures r.Success? ==> |r.value| == |users| + 1 && r.value[..|users|] == users
    ensures r.Success? ==> var u := r.value[|users|];
              && u.id == id && u.name == draft.name.value && u.email == draft.email.value
              && u.role in Roles && u.role == draft.role.GetOr(DefaultRole)
              && u.password == c.hash(draft.password.value, salt)
              && u.resetToken.None? && u.resetExpire.None?
    ensures r.Failure? && Failures(draft.name, draft.email, draft.role.GetOr(DefaultRole), draft.password, isEmail) != [] ==>
              r.error == Errors.ValidationError(Failures(draft.name, draft.email, draft.role.GetOr(DefaultRole), draft.password, isEmail))
    ensures r.Failure? && Failures(draft.name, draft.email, draft.role.GetOr(DefaultRole), draft.password, isEmail) == [] ==>
              r.error == Errors.DuplicateKey()
  {
    var role := draft.role.GetOr(DefaultRole);
    var failures := Failures(draft.name, draft.email, role, draft.password, isEmail);
    if failures != [] then Failure(Errors.ValidationError(failures))
    else
      var hashed := c.hash(draft.password.value, salt);
      if exists j :: 0 <= j < |users| && (users[j].email == draft.email.value || users[j].id == id) then
        Failure(Errors.DuplicateKey())
      else
        Success(users + [User(id, draft.name.value, draft.email.value, role, hashed, None, None)])
  }

  /** Creation keeps emails and identifiers unique. */
  lemma CreateKeepsUnique(users: seq<User>, draft: Draft, id: Id, c: Crypto, salt: nat, isEmail: string -> bool)
    requires UniqueEmails(users) && UniqueIds(users)
    requires Create(users, draft, id, c, salt, isEmail).Success?
    ensures UniqueEmails(Create(users, draft, id, c, salt, isEmail).value)
    ensures UniqueIds(Create(users, draft, id, c, salt, isEmail).value)
  {
    var r := Create(users, draft, id, c, salt, isEmail).value;
    forall i, j | 0 <= i < j < |r| ensures r[i].email != r[j].email && r[i].id != r[j].id {
      if j == |users| {
        assert r[i] == users[i];
      } else {
        assert r[i] == users[i] && r[j] == users[j];
      }
    }
  }

  /** After one save of plain text p, `checkPassword(q)` holds exactly for the texts q that share p's
      first 72 UTF-8 bytes, p among them. */
  lemma CreatedUserChecks(users: seq<User>, draft: Draft, id: Id, c: Crypto, salt: nat, isEmail: string -> bool, p: string)
    requires Bcrypt(c)
    requires Create(users, draft, id, c, salt, isEmail).Success?
    ensures CheckPassword(Create(users, draft, id, c, salt, isEmail).value[|users|], p, c)
            <==> BcryptKey(p) == BcryptKey(draft.password.value)
    ensures CheckPassword(Create(users, draft, id, c, salt, isEmail).value[|users|], draft.password.value, c)
  {
    var u := Create(users, draft, id, c, salt, isEmail).value[|users|];
    assert u.password == c.hash(draft.password.value, salt);
  }

  /** The hook as declared hashes the current value on every save: a user loaded with its password and
      saved unchanged has its stored hash hashed again, and then no longer accepts the password it was
      created with. */
  lemma SaveRehashes(users: seq<User>, i: nat, c: Crypto, salt0: nat, salt: nat, p: string)
    requires Bcrypt(c)
    requires i < |users| && users[i].password == c.hash(p, salt0)
    requires |c.hash(p, salt0)| == 60 && Ascii(c.hash(p, salt0)) && c.hash(p, salt0) != p
    ensures Save(EverySave, users, i, LoadedWithPassword(users[i]), c, salt).Success?
    ensures var after := Save(EverySave, users, i, LoadedWithPassword(users[i]), c, salt).value;
              after[i].password == c.hash(c.hash(p, salt0), salt) && !CheckPassword(after[i], p, c)
  {
    var h := c.hash(p, salt0);
    var after := Save(EverySave, users, i, LoadedWithPassword(users[i]), c, salt).value;
    assert after[i].password == c.hash(h, salt);
    assert |h| == 60 && Ascii(h);
    AsciiUtf8Length(h);
    if BcryptKey(p) == BcryptKey(h) {
      AsciiUtf8Injective(p, h);
    }
  }

  /** The assumptions of `SaveRehashes` can be met: a comparison that looks only at the 72-byte keys,
      with a hash that gives the password "secret" a 60-character ASCII text. */
  lemma RehashingCrypto() returns (c: Crypto, p: string)
    ensures Bcrypt(c)
    ensures |c.hash(p, 0)| == 60 && Ascii(c.hash(p, 0)) && c.hash(p, 0) != p
  {
    p := "secret";
    var h := seq(60, _ => 'a');
    var key := BcryptKey(p);
    var hash := (x: string, salt: nat) => if BcryptKey(x) == key then h else "~" + x;
    var compare := (q: string, t: string) =>
      if t == h then BcryptKey(q) == key else if t != [] then BcryptKey(q) == BcryptKey(t[1..]) else false;
    c := Crypto(hash, compare, x => x);
    forall q, x, salt ensures c.compare(q, c.hash(x, salt)) <==> BcryptKey(q) == BcryptKey(x) {
      if BcryptKey(x) != key {
        assert c.hash(x, salt) == "~" + x && ("~" + x)[0] != h[0];
        assert ("~" + x)[1..] == x;
      }
    }
    assert p[0] != h[0];
  }

  /** With the hook that hashes only an assigned password, the same save leaves the hash alone and the
      password keeps working. */
  lemma GuardedSaveKeepsHash(users: seq<User>, i: nat, c: Crypto, salt0: nat, salt: nat, p: string)
    requires Correct(c)
    requires i < |users| && users[i].password == c.hash(p, salt0)
    ensures Save(WhenModified, users, i, LoadedWithPassword(users[i]), c, salt) == Success(users)
    ensures CheckPassword(users[i], p, c)
  {
    assert users[i := users[i]] == users;
  }

  /** A rejected email address is reported with the message the schema gives it, which speaks of a
      phone number. */
  lemma EmailMessageSpeaksOfPhone(name: string, email: string, password: string, isEmail: string -> bool)
    requires email != "" && !isEmail(email)
    ensures EmailMismatch in Failures(Some(name), Some(email), DefaultRole, Some(password), isEmail)
    ensures Text.Contains(EmailMismatch, "Phone")
  {
    assert EmailMismatch[..5] == "Phone";
    assert Text.OccursAt(EmailMismatch, "Phone", 0);
  }
}
