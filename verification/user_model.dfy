/**
 * `userModel.ts`: the user schema. `username` is required and trimmed;
 * `email` is required, unique and must match the e-mail pattern; `password`
 * is required and must match the password pattern; `role` is "user" or
 * "admin" and defaults to "user"; documents carry timestamps. A pre-save
 * hook replaces a modified password with its hash.
 */
module UserModel {
  import opened Common
  import opened Text
  import opened Http
  import opened Collaborators
  import opened Schema
  import Store

  const ModelName := "User"

  // ---------------------------------------------------------------- e-mail pattern

  /** A character `[^\s@]` matches. */
  predicate Plain(c: char) {
    !IsSpace(c) && c != '@'
  }

  predicate AllPlain(s: string) {
    forall i :: 0 <= i < |s| ==> Plain(s[i])
  }

  /** A `.` with at least one character on each side. */
  predicate HasInnerDot(d: string) {
    exists k :: 0 < k < |d| - 1 && d[k] == '.'
  }

  /** The e-mail check, scanning from the first `@`. */
  predicate IsValidEmail(s: string) {
    match IndexOf(s, "@")
    case None => false
    case Some(i) => i > 0 && AllPlain(s[..i]) && AllPlain(s[i + 1..]) && HasInnerDot(s[i + 1..])
  }

  /** `s` is `a@b.c` with the three parts non-empty and free of `\s` and `@`. */
  ghost predicate EmailSplit(s: string, a: string, b: string, c: string) {
    s == a + "@" + b + "." + c && |a| > 0 && |b| > 0 && |c| > 0
    && AllPlain(a) && AllPlain(b) && AllPlain(c)
  }

  /** What `/^[^\s@]+@[^\s@]+\.[^\s@]+$/` accepts. */
  ghost predicate MatchesEmailPattern(s: string) {
    exists a, b, c :: EmailSplit(s, a, b, c)
  }

  lemma OneCharOccurs(s: string, j: int, ch: char)
    requires 0 <= j < |s|
    ensures OccursAt(s, [ch], j) <==> s[j] == ch
  {
    assert s[j..j + 1] == [s[j]];
  }

  /** Any slice of a plain string is plain. */
  lemma PlainSlice(d: string, lo: nat, hi: nat)
    requires lo <= hi <= |d| && AllPlain(d)
    ensures AllPlain(d[lo..hi])
  {
    forall j | 0 <= j < hi - lo
      ensures Plain(d[lo..hi][j])
    {
      assert d[lo..hi][j] == d[lo + j];
    }
  }

  /** Every address the check accepts splits as the pattern requires. */
  lemma EmailCheckSound(s: string)
    requires IsValidEmail(s)
    ensures MatchesEmailPattern(s)
  {
    var i := IndexOf(s, "@").value;
    var d := s[i + 1..];
    var k :| 0 < k < |d| - 1 && d[k] == '.';
    var a, b, c := s[..i], d[..k], d[k + 1..];
    PlainSlice(d, 0, k);
    PlainSlice(d, k + 1, |d|);
    OneCharOccurs(s, i, '@');
    assert d == b + "." + c by {
      assert d == d[..k] + [d[k]] + d[k + 1..];
    }
    assert s == a + "@" + d by {
      assert s == s[..i] + [s[i]] + s[i + 1..];
    }
    assert s == a + "@" + b + "." + c;
    assert EmailSplit(s, a, b, c);
  }

  /** Joining two plain parts with a `.` gives a plain domain with an inner dot. */
  lemma PlainDomain(b: string, c: string)
    requires |b| > 0 && |c| > 0 && AllPlain(b) && AllPlain(c)
    ensures AllPlain(b + "." + c) && HasInnerDot(b + "." + c)
  {
    var d := b + "." + c;
    assert d[|b|] == '.';
    forall j | 0 <= j < |d|
      ensures Plain(d[j])
    {
      if j < |b| { assert d[j] == b[j]; }
      else if j > |b| { assert d[j] == c[j - |b| - 1]; }
    }
  }

  /** Every string the pattern matches is accepted by the check. */
  lemma EmailCheckComplete(s: string)
    requires MatchesEmailPattern(s)
    ensures IsValidEmail(s)
  {
    var a, b, c :| EmailSplit(s, a, b, c);
    var d := b + "." + c;
    assert s == a + "@" + d;
    forall j | 0 <= j < |a|
      ensures !OccursAt(s, "@", j)
    {
      OneCharOccurs(s, j, '@');
      assert s[j] == a[j];
    }
    OneCharOccurs(s, |a|, '@');
    assert IndexOf(s, "@") == Some(|a|);
    assert s[..|a|] == a && s[|a| + 1..] == d;
    PlainDomain(b, c);
  }

  /** The e-mail check accepts exactly the strings the e-mail pattern matches. */
  lemma EmailCheckIsPattern(s: string)
    ensures IsValidEmail(s) <==> MatchesEmailPattern(s)
  {
    if IsValidEmail(s) {
      EmailCheckSound(s);
    }
    if MatchesEmailPattern(s) {
      EmailCheckComplete(s);
    }
  }

  /** A valid e-mail address has exactly one `@`: the one the check splits at. */
  lemma ValidEmailHasOneAt(s: string)
    requires IsValidEmail(s)
    ensures forall j :: 0 <= j < |s| && s[j] == '@' ==> j == IndexOf(s, "@").value
  {
    var i := IndexOf(s, "@").value;
    forall j | 0 <= j < |s| && s[j] == '@'
      ensures j == i
    {
      if j < i {
        OneCharOccurs(s, j, '@');
      }
    }
  }

  // ---------------------------------------------------------------- password pattern

  /**
   * What `/^(?=.*\d)(?=.*[\W_]).{8,15}$/` accepts: 8 to 15 UTF-16 code units,
   * no line terminator, at least one ASCII digit and at least one character
   * that is not an ASCII letter or digit.
   */
  predicate IsValidPassword(s: string) {
    8 <= Utf16Length(s) <= 15
    && (forall i :: 0 <= i < |s| ==> !IsLineTerminator(s[i]))
    && (exists i :: 0 <= i < |s| && IsDigit(s[i]))
    && (exists i :: 0 <= i < |s| && !IsAsciiAlnum(s[i]))
  }

  /** Anything longer than 15 code units, a bcrypt hash for one, fails the password pattern. */
  lemma LongPasswordRejected(s: string)
    requires Utf16Length(s) > 15
    ensures !IsValidPassword(s)
  {
  }

  // ---------------------------------------------------------------- roles and documents

  datatype Role = UserRole | AdminRole

  const DefaultRole := UserRole

  function RoleName(r: Role): string {
    match r
    case UserRole => "user"
    case AdminRole => "admin"
  }

  /** The role enum: exactly "user" and "admin". */
  function ParseRole(name: string): (r: Option<Role>)
    ensures r.Some? <==> name == "user" || name == "admin"
    ensures r.Some? ==> RoleName(r.value) == name
  {
    if name == "user" then Some(UserRole)
    else if name == "admin" then Some(AdminRole)
    else None
  }

  lemma RoleNameRoundTrip(r: Role)
    ensures ParseRole(RoleName(r)) == Some(r)
  {
  }

  /** A stored user document. */
  datatype User = User(id: Id, username: string, email: string, password: string,
                       role: Role, createdAt: int, updatedAt: int)

  function IdOf(u: User): Id { u.id }

  /** A user document without its password (`select('-password')`). */
  datatype Profile = Profile(id: Id, username: string, email: string, role: Role,
                             createdAt: int, updatedAt: int)

  function ProfileOf(u: User): (p: Profile)
    ensures p.id == u.id && p.username == u.username && p.email == u.email && p.role == u.role
    ensures p.createdAt == u.createdAt && p.updatedAt == u.updatedAt
  {
    Profile(u.id, u.username, u.email, u.role, u.createdAt, u.updatedAt)
  }

  /** The unique index on `email`. */
  predicate UniqueEmails(users: seq<User>) {
    forall i, j :: 0 <= i < j < |users| ==> users[i].email != users[j].email
  }

  /** The store invariant: ids and e-mail addresses are unique. */
  predicate WellFormed(users: seq<User>) {
    Store.UniqueKeys(users, IdOf) && UniqueEmails(users)
  }

  /**
   * `findOne({ email })`. Here an absent e-mail finds no document; a query
   * layer that drops the `undefined` condition would instead return the
   * first document, which this model does not follow.
   */
  function FindByEmail(users: seq<User>, email: Option<string>): (r: Option<User>)
    ensures r.Some? ==> email.Some? && r.value in users && r.value.email == email.value
    ensures r.None? <==> email.None? || forall j :: 0 <= j < |users| ==> users[j].email != email.value
  {
    match email
    case None => None
    case Some(e) =>
      match Store.FindWhere(users, (u: User) => u.email == e)
      case None => None
      case Some(i) => Some(users[i])
  }

  // ---------------------------------------------------------------- validation and saving

  /** The fields of a new user after casting: the username trimmed. */
  datatype NewUser = NewUser(username: string, email: string, password: string)

  const UsernameRequired := "Username is required"
  const EmailRequired := "Email is required"
  const EmailInvalid := "Please enter a valid email address"
  const PasswordRequired := "Password is required"
  const PasswordInvalid := "Password must be 8-15 characters long, include at least one number and one special character"

  function TrimmedOf(v: Option<string>): Option<string> {
    match v
    case None => None
    case Some(s) => Some(Trim(s))
  }

  function UsernameCheck(username: Option<string>): (r: Option<PathError>)
    ensures r.None? <==> username.Some? && Trim(username.value) != ""
  {
    Required("username", TrimmedOf(username), UsernameRequired)
  }

  /** `required` first; `match` only judges a present, non-empty value. */
  function EmailCheck(email: Option<string>): (r: Option<PathError>)
    ensures r.None? <==> Truthy(email) && IsValidEmail(email.value)
  {
    if !Truthy(email) then Some(PathError("email", EmailRequired))
    else if !IsValidEmail(email.value) then Some(PathError("email", EmailInvalid))
    else None
  }

  function PasswordCheck(password: Option<string>): (r: Option<PathError>)
    ensures r.None? <==> Truthy(password) && IsValidPassword(password.value)
  {
    if !Truthy(password) then Some(PathError("password", PasswordRequired))
    else if !IsValidPassword(password.value) then Some(PathError("password", PasswordInvalid))
    else None
  }

  /** Validation of a new user document, on the values as given (before any hook runs). */
  function ValidateNew(username: Option<string>, email: Option<string>, password: Option<string>)
    : (r: Result<NewUser, ValidationFailure>)
    ensures r.Ok? <==> username.Some? && Trim(username.value) != ""
                       && Truthy(email) && IsValidEmail(email.value)
                       && Truthy(password) && IsValidPassword(password.value)
    ensures r.Ok? ==> r.value == NewUser(Trim(username.value), email.value, password.value)
    ensures r.Err? ==> r.error.model == ModelName && |r.error.errors| > 0
  {
    var checks := [UsernameCheck(username), EmailCheck(email), PasswordCheck(password)];
    var errors := Collect(checks);
    assert errors == [] <==> checks[0].None? && checks[1].None? && checks[2].None?;
    if errors == [] then Ok(NewUser(Trim(username.value), email.value, password.value))
    else Err(ValidationFailure(ModelName, errors))
  }

  /** The pre-save hook: a modified password is replaced by its hash, an unmodified one is kept. */
  function PreSave(password: string, modified: bool, hash: string -> string): (r: string)
    ensures modified ==> r == hash(password)
    ensures !modified ==> r == password
  {
    if modified then hash(password) else password
  }

  /**
   * `UserModel.create(...)` of a new document: validation (on the values as
   * given), then the pre-save hook, then the insert, which the unique indexes
   * on `_id` and `email` can reject.
   */
  function Create(users: seq<User>, username: Option<string>, email: Option<string>,
                  password: Option<string>, w: World): (r: Result<seq<User>, Thrown>)
    ensures ValidateNew(username, email, password).Err? ==>
              r == Err(AsThrown(ValidateNew(username, email, password).error))
    ensures r.Ok? ==>
              var v := ValidateNew(username, email, password).value;
              && w.freshId !in Store.ToMap(users, IdOf)
              && FindByEmail(users, Some(v.email)).None?
              && r.value == Store.Insert(users, User(w.freshId, v.username, v.email, w.crypto.hash(v.password),
                                                     DefaultRole, w.now, w.now))
    ensures r.Err? ==> r.error == Store.DuplicateKey || r.error.name == ValidationErrorName
    ensures ValidateNew(username, email, password).Ok? ==>
              var v := ValidateNew(username, email, password).value;
              && (r.Ok? <==> w.freshId !in Store.ToMap(users, IdOf) && FindByEmail(users, Some(v.email)).None?)
              && (r.Err? ==> r.error == Store.DuplicateKey)
  {
    match ValidateNew(username, email, password)
    case Err(f) => Err(AsThrown(f))
    case Ok(v) =>
      var u := User(w.freshId, v.username, v.email, PreSave(v.password, true, w.crypto.hash),
                    DefaultRole, w.now, w.now);
      if w.freshId in Store.ToMap(users, IdOf) || FindByEmail(users, Some(v.email)).Some? then
        Err(Store.DuplicateKey)
      else
        Ok(Store.Insert(users, u))
  }

  /**
   * Which paths `save()` validates: by default every path of a loaded
   * document, the unmodified ones included (`AllPaths`); with
   * `validateModifiedOnly: true` only the modified ones (`ModifiedPaths`).
   */
  datatype SaveValidation = AllPaths | ModifiedPaths

  /**
   * The document after `user.username = username`: the name is cast
   * (trimmed), and the timestamps hook stamps `updatedAt` only when that
   * changed the stored name, since an unmodified document is saved as it is.
   */
  function Renamed(u: User, username: string, now: int): User {
    var name := Trim(username);
    u.(username := name, updatedAt := if name == u.username then u.updatedAt else now)
  }

  /**
   * `user.save()` after `user.username = username`: the new username is cast
   * (trimmed) and validated, and with `AllPaths` so are the stored e-mail and
   * the stored password, the latter against the password pattern; the
   * unmodified password is not hashed again, and `updatedAt` is stamped only
   * when the assignment modified the document.
   */
  function SaveUsername(u: User, username: string, now: int, validation: SaveValidation): (r: Result<User, Thrown>)
    ensures r.Ok? <==> Trim(username) != ""
                       && (validation == AllPaths ==> IsValidEmail(u.email) && IsValidPassword(u.password))
    ensures r.Ok? ==> && r.value.username == Trim(username)
                      && r.value.updatedAt == (if Trim(username) == u.username then u.updatedAt else now)
                      && r.value == u.(username := r.value.username, updatedAt := r.value.updatedAt)
    ensures r.Ok? && Trim(username) == u.username ==> r.value == u
    ensures r.Err? ==> r.error.name == ValidationErrorName
    ensures validation == AllPaths && r.Err? ==>
              r.error == AsThrown(ValidateNew(Some(username), Some(u.email), Some(u.password)).error)
  {
    var renamed := Renamed(u.(password := PreSave(u.password, false, s => s)), username, now);
    match validation
    case AllPaths =>
      (match ValidateNew(Some(username), Some(u.email), Some(u.password))
       case Err(f) => Err(AsThrown(f))
       case Ok(_) => Ok(renamed))
    case ModifiedPaths =>
      (match UsernameCheck(Some(username))
       case Some(e) => Err(AsThrown(ValidationFailure(ModelName, [e])))
       case None => Ok(renamed))
  }

  /**
   * A stored bcrypt hash (longer than 15 code units) fails the password
   * pattern, so saving the loaded document with every path validated fails,
   * and the failure names the password path.
   */
  lemma SaveRejectsStoredHash(u: User, username: string, now: int)
    requires Utf16Length(u.password) > 15
    ensures SaveUsername(u, username, now, AllPaths).Err?
    ensures PathError("password", PasswordInvalid)
            in ValidateNew(Some(username), Some(u.email), Some(u.password)).error.errors
  {
    LongPasswordRejected(u.password);
    var checks := [UsernameCheck(Some(username)), EmailCheck(Some(u.email)), PasswordCheck(Some(u.password))];
    CollectKeeps(checks, 2);
  }

  /** Validating only the modified path accepts any username that is not blank once trimmed. */
  lemma SaveModifiedOnlyRenames(u: User, username: string, now: int)
    requires Trim(username) != ""
    ensures SaveUsername(u, username, now, ModifiedPaths) == Ok(Renamed(u, username, now))
  {
  }
}