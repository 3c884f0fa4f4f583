/**
 * `src/user/userController.ts`: register, log in, read and edit the caller's
 * profile. Every exception is classified by `HandleError`, so a schema
 * validation error reaches the client as 400 with Mongoose's message and
 * anything else as 500. Every failing transition leaves the user collection
 * as it was.
 */
module UserController {
  import opened Common
  import opened Text
  import opened Http
  import opened Collaborators
  import opened Schema
  import Store
  import opened ApiResponse
  import opened ErrorHandling
  import opened UserModel

  type Users = seq<User>

  /** What an envelope carries: a profile without its password, or a whole document. */
  datatype UserData = WithoutPassword(profile: Profile) | Document(user: User)

  /** The JSON bodies the user handlers send. */
  datatype UserBody = Envelope(response: SimpleResponse<UserData>) | AccessToken(accessToken: string)

  const UserExists := "User already exists with this email"
  const UserCreated := "New user created successfully"
  const UnknownUser := "User does not exist"
  const IncorrectPassword := "Incorrect password"
  const NoPrincipal := "Error authenticating user"
  const ProfileNotFound := "User not found"
  const ProfileFetched := "User Profile fetch success"
  const NotAuthenticated := "User not authenticated"
  const UsernameMissing := "Username is required to update"
  const NotOwner := "You are not allowed to edit this profile"
  const UsernameUpdated := "Username updated successfully"

  /** What `bcrypt.compare` throws when the plain-text password is missing. */
  const CompareArgsMissing := Thrown("Error", Some("data and hash arguments required"))

  /** The document a successful registration inserts. */
  function Registered(username: string, email: string, password: string, w: World): (u: User)
    ensures u.id == w.freshId && u.email == email && u.role == DefaultRole
    ensures u.password == w.crypto.hash(password) && u.username == Trim(username)
    ensures u.createdAt == u.updatedAt == w.now
  {
    User(w.freshId, Trim(username), email, w.crypto.hash(password), DefaultRole, w.now, w.now)
  }

  /** `createUser`: look for the e-mail, then `UserModel.create` with the plain-text password. */
  function CreateUser(req: Request, users: Users, w: World): (r: Handled<Users, UserBody>)
    ensures r.outcome.Terminal()
    ensures !r.outcome.Respond? ==> r.store == users
    ensures w.fault.Some? ==> r.outcome == HandleError(w.fault.value)
    ensures (w.fault.None? && FindByEmail(users, Field(req.body, "email")).Some?)
            ==> r.outcome == Fail(BAD_REQUEST, UserExists)
    ensures (w.fault.None? && FindByEmail(users, Field(req.body, "email")).None?
             && ValidateNew(Field(req.body, "username"), Field(req.body, "email"), Field(req.body, "password")).Err?)
            ==> && r.outcome.Fail? && r.outcome.status == BAD_REQUEST
                && r.outcome.message == Message(ValidateNew(Field(req.body, "username"), Field(req.body, "email"),
                                                            Field(req.body, "password")).error)
    ensures r.outcome.Respond? ==>
              && r.outcome == Respond(CREATED, Envelope(SimpleSuccess(CREATED, UserCreated)))
              && w.fault.None?
              && FindByEmail(users, Field(req.body, "email")).None?
              && "username" in req.body && "email" in req.body && "password" in req.body
              && IsValidEmail(req.body["email"]) && IsValidPassword(req.body["password"])
              && w.freshId !in Store.ToMap(users, IdOf)
              && r.store == Store.Insert(users, Registered(req.body["username"], req.body["email"],
                                                           req.body["password"], w))
    ensures (w.fault.None? && FindByEmail(users, Field(req.body, "email")).None?
             && ValidateNew(Field(req.body, "username"), Field(req.body, "email"), Field(req.body, "password")).Ok?)
            ==> if w.freshId in Store.ToMap(users, IdOf) then r == Handled(HandleError(Store.DuplicateKey), users)
                else r == Handled(Respond(CREATED, Envelope(SimpleSuccess(CREATED, UserCreated))),
                                  Store.Insert(users, Registered(req.body["username"], req.body["email"],
                                                                 req.body["password"], w)))
    ensures r.outcome.Fail? ==> r.outcome.status in {BAD_REQUEST, INTERNAL_SERVER_ERROR}
  {
    var email := Field(req.body, "email");
    if w.fault.Some? then Handled(HandleError(w.fault.value), users)
    else if FindByEmail(users, email).Some? then Handled(Fail(BAD_REQUEST, UserExists), users)
    else
      match UserModel.Create(users, Field(req.body, "username"), email, Field(req.body, "password"), w)
      case Err(e) => Handled(HandleError(e), users)
      case Ok(users') => Handled(Respond(CREATED, Envelope(SimpleSuccess(CREATED, UserCreated))), users')
  }

  /** A successful registration keeps ids and e-mails unique and adds exactly the new user to the map. */
  lemma CreateUserIsMapUpdate(req: Request, users: Users, w: World)
    requires WellFormed(users)
    requires CreateUser(req, users, w).outcome.Respond?
    ensures var r := CreateUser(req, users, w);
            var u := Registered(req.body["username"], req.body["email"], req.body["password"], w);
            && WellFormed(r.store)
            && Store.ToMap(r.store, IdOf) == Store.ToMap(users, IdOf)[w.freshId := u]
  {
    var u := Registered(req.body["username"], req.body["email"], req.body["password"], w);
    Store.InsertIsMapUpdate(users, IdOf, u);
    var s := Store.Insert(users, u);
    forall i, j | 0 <= i < j < |s|
      ensures s[i].email != s[j].email
    {
      if j == |users| {
        assert s[i] == users[i];
      } else {
        assert s[i] == users[i] && s[j] == users[j];
      }
    }
  }

  /** A second registration with the same e-mail is rejected and changes nothing. */
  lemma RegisterTwiceRejected(req: Request, users: Users, w1: World, w2: World)
    requires CreateUser(req, users, w1).outcome.Respond?
    requires w2.fault.None?
    ensures var once := CreateUser(req, users, w1).store;
            CreateUser(req, once, w2) == Handled(Fail(BAD_REQUEST, UserExists), once)
  {
    var once := CreateUser(req, users, w1).store;
    assert once[|users|].email == req.body["email"];
  }

  /** `loginUser`: the user is looked up before the password is compared. */
  function LoginUser(req: Request, users: Users, w: World): (r: Handled<Users, UserBody>)
    ensures r.outcome.Terminal()
    ensures r.store == users
    ensures w.fault.Some? ==> r.outcome == HandleError(w.fault.value)
    ensures (w.fault.None? && FindByEmail(users, Field(req.body, "email")).None?)
            ==> r.outcome == Fail(NOT_FOUND, UnknownUser)
    ensures (w.fault.None? && FindByEmail(users, Field(req.body, "email")).Some? && "password" !in req.body)
            ==> r.outcome == HandleError(CompareArgsMissing)
    ensures (w.fault.None? && FindByEmail(users, Field(req.body, "email")).Some? && "password" in req.body
             && !w.crypto.compare(req.body["password"], FindByEmail(users, Field(req.body, "email")).value.password))
            ==> r.outcome == Fail(BAD_REQUEST, IncorrectPassword)
    ensures r.outcome.Respond? ==>
              && w.fault.None?
              && FindByEmail(users, Field(req.body, "email")).Some?
              && "password" in req.body
              && var u := FindByEmail(users, Field(req.body, "email")).value;
              && w.crypto.compare(req.body["password"], u.password)
              && r.outcome == Respond(OK, AccessToken(w.crypto.sign(u.id)))
    ensures (w.fault.None? && FindByEmail(users, Field(req.body, "email")).Some? && "password" in req.body
             && w.crypto.compare(req.body["password"], FindByEmail(users, Field(req.body, "email")).value.password))
            ==> r.outcome == Respond(OK, AccessToken(w.crypto.sign(FindByEmail(users, Field(req.body, "email")).value.id)))
  {
    if w.fault.Some? then Handled(HandleError(w.fault.value), users)
    else
      match FindByEmail(users, Field(req.body, "email"))
      case None => Handled(Fail(NOT_FOUND, UnknownUser), users)
      case Some(u) =>
        match Field(req.body, "password")
        case None => Handled(HandleError(CompareArgsMissing), users)
        case Some(p) =>
          if !w.crypto.compare(p, u.password) then Handled(Fail(BAD_REQUEST, IncorrectPassword), users)
          else Handled(Respond(OK, AccessToken(w.crypto.sign(u.id))), users)
  }

  /** A login with the e-mail and password just registered succeeds, with a token for the new id. */
  lemma RegisterThenLogin(req: Request, users: Users, w1: World, login: Request, w2: World)
    requires WellFormed(users) && HashMatches(w1.crypto) && w2.crypto == w1.crypto && w2.fault.None?
    requires CreateUser(req, users, w1).outcome.Respond?
    requires Field(login.body, "email") == Field(req.body, "email")
    requires Field(login.body, "password") == Field(req.body, "password")
    ensures LoginUser(login, CreateUser(req, users, w1).store, w2).outcome
            == Respond(OK, AccessToken(w2.crypto.sign(w1.freshId)))
  {
    var once := CreateUser(req, users, w1).store;
    var u := Registered(req.body["username"], req.body["email"], req.body["password"], w1);
    assert once[|users|] == u;
    assert FindByEmail(once, Field(login.body, "email")) == Some(u);
  }

  /**
   * `getProfile`: the caller's own record, without its password. The
   * caller's id is cast to an object id before the query.
   */
  function GetProfile(req: Request, users: Users, w: World): (r: Handled<Users, UserBody>)
    ensures r.outcome.Terminal()
    ensures r.store == users
    ensures req.user.None? ==> r.outcome == Fail(INTERNAL_SERVER_ERROR, NoPrincipal)
    ensures (req.user.Some? && Store.CastId(req.user.value.id).None?)
            ==> r.outcome == HandleError(Store.CastError(req.user.value.id, ModelName))
    ensures (req.user.Some? && Store.CastId(req.user.value.id).Some? && w.fault.Some?)
            ==> r.outcome == HandleError(w.fault.value)
    ensures (req.user.Some? && Store.CastId(req.user.value.id).Some? && w.fault.None?
             && Store.Lookup(users, IdOf, Store.CastId(req.user.value.id).value).None?)
            ==> r.outcome == Fail(NOT_FOUND, ProfileNotFound)
    ensures r.outcome.Respond? ==>
              && req.user.Some? && Store.CastId(req.user.value.id).Some?
              && var u := Store.Lookup(users, IdOf, Store.CastId(req.user.value.id).value);
              && u.Some? && u.value.id == Store.CastId(req.user.value.id).value
              && r.outcome == Respond(OK, Envelope(SimpleSuccess(OK, ProfileFetched, Some(WithoutPassword(ProfileOf(u.value))))))
  {
    match req.user
    case None => Handled(Fail(INTERNAL_SERVER_ERROR, NoPrincipal), users)
    case Some(p) =>
      match Store.CastId(p.id)
      case None => Handled(HandleError(Store.CastError(p.id, ModelName)), users)
      case Some(id) =>
        if w.fault.Some? then Handled(HandleError(w.fault.value), users)
        else
          match Store.Lookup(users, IdOf, id)
          case None => Handled(Fail(NOT_FOUND, ProfileNotFound), users)
          case Some(u) => Handled(Respond(OK, Envelope(SimpleSuccess(OK, ProfileFetched, Some(WithoutPassword(ProfileOf(u)))))), users)
  }

  /** `req.user?.id`. */
  function CallerId(req: Request): Option<string> {
    match req.user
    case None => None
    case Some(p) => Some(p.id)
  }

  /**
   * The position of the record `findById(userId)` loads for an edit: the
   * caller's id cast to an object id, then looked up. `None` when the cast
   * or the lookup fails.
   */
  function CallerRecord(req: Request, users: Users): (r: Option<nat>)
    requires req.user.Some?
    ensures r.Some? ==> Store.CastId(req.user.value.id).Some? && r.value < |users|
                        && users[r.value].id == Store.CastId(req.user.value.id).value
    ensures Store.CastId(req.user.value.id).Some? ==>
              r == Store.Find(users, IdOf, Store.CastId(req.user.value.id).value)
  {
    match Store.CastId(req.user.value.id)
    case None => None
    case Some(id) => Store.Find(users, IdOf, id)
  }

  /**
   * `editProfile`: the caller and the new username are checked before any
   * storage access; the record found by the caller's id is compared with
   * that id as a string, renamed and saved, and the whole saved document is
   * returned. `validation` is how `user.save()` validates: the source calls
   * it with Mongoose's default, `AllPaths`.
   */
  function EditProfile(req: Request, users: Users, w: World, validation: SaveValidation): (r: Handled<Users, UserBody>)
    ensures r.outcome.Terminal()
    ensures !r.outcome.Respond? ==> r.store == users
    ensures !Truthy(CallerId(req)) ==> r.outcome == Fail(UNAUTHORIZED, NotAuthenticated)
    ensures (Truthy(CallerId(req)) && !Truthy(Field(req.body, "username")))
            ==> r.outcome == Fail(BAD_REQUEST, UsernameMissing)
    ensures (Truthy(CallerId(req)) && Truthy(Field(req.body, "username")) && Store.CastId(req.user.value.id).None?)
            ==> r.outcome == HandleError(Store.CastError(req.user.value.id, ModelName))
    ensures (Truthy(CallerId(req)) && Truthy(Field(req.body, "username")) && Store.CastId(req.user.value.id).Some?
             && w.fault.Some?)
            ==> r.outcome == HandleError(w.fault.value)
    ensures (Truthy(CallerId(req)) && Truthy(Field(req.body, "username")) && Store.CastId(req.user.value.id).Some?
             && w.fault.None? && CallerRecord(req, users).None?)
            ==> r.outcome == Fail(NOT_FOUND, ProfileNotFound)
    ensures (Truthy(CallerId(req)) && Truthy(Field(req.body, "username")) && w.fault.None?
             && CallerRecord(req, users).Some? && !Store.IsCanonicalId(req.user.value.id))
            ==> r.outcome == Fail(FORBIDDEN, NotOwner)
    ensures (Truthy(CallerId(req)) && Truthy(Field(req.body, "username")) && w.fault.None?
             && CallerRecord(req, users).Some? && Store.IsCanonicalId(req.user.value.id)
             && SaveUsername(users[CallerRecord(req, users).value], req.body["username"], w.now, validation).Err?)
            ==> r.outcome.Fail? && r.outcome.status == BAD_REQUEST
    ensures (Truthy(CallerId(req)) && Truthy(Field(req.body, "username")) && w.fault.None?
             && CallerRecord(req, users).Some? && Store.IsCanonicalId(req.user.value.id)
             && var i := CallerRecord(req, users).value;
             && Trim(req.body["username"]) != ""
             && (validation == AllPaths ==> IsValidEmail(users[i].email) && IsValidPassword(users[i].password)))
            ==> var i := CallerRecord(req, users).value;
                var u := Renamed(users[i], req.body["username"], w.now);
                r == Handled(Respond(OK, Envelope(SimpleSuccess(OK, UsernameUpdated, Some(Document(u))))),
                             Store.ReplaceAt(users, i, u))
    ensures r.outcome.Respond? ==>
              && req.user.Some? && Store.IsCanonicalId(req.user.value.id)
              && CallerRecord(req, users).Some?
              && var i := CallerRecord(req, users).value;
              && Trim(req.body["username"]) != ""
              && (validation == AllPaths ==> IsValidEmail(users[i].email) && IsValidPassword(users[i].password))
              && var u := Renamed(users[i], req.body["username"], w.now);
              && r.store == Store.ReplaceAt(users, i, u)
              && r.outcome == Respond(OK, Envelope(SimpleSuccess(OK, UsernameUpdated, Some(Document(u)))))
  {
    var userId := CallerId(req);
    var username := Field(req.body, "username");
    if !Truthy(userId) then Handled(Fail(UNAUTHORIZED, NotAuthenticated), users)
    else if !Truthy(username) then Handled(Fail(BAD_REQUEST, UsernameMissing), users)
    else if Store.CastId(userId.value).None? then Handled(HandleError(Store.CastError(userId.value, ModelName)), users)
    else if w.fault.Some? then Handled(HandleError(w.fault.value), users)
    else
      match CallerRecord(req, users)
      case None => Handled(Fail(NOT_FOUND, ProfileNotFound), users)
      case Some(i) =>
        if userId.value != users[i].id then Handled(Fail(FORBIDDEN, NotOwner), users)
        else
          match SaveUsername(users[i], username.value, w.now, validation)
          case Err(e) => Handled(HandleError(e), users)
          case Ok(u) =>
            Handled(Respond(OK, Envelope(SimpleSuccess(OK, UsernameUpdated, Some(Document(u))))),
                    Store.ReplaceAt(users, i, u))
  }

  /**
   * The ownership check fires exactly for a caller id that names a stored
   * user only once cast: 24 hexadecimal digits not all in lower case. Such a
   * caller is refused even though it is the record's owner.
   */
  lemma EditProfileForbiddenIff(req: Request, users: Users, w: World, validation: SaveValidation)
    ensures EditProfile(req, users, w, validation).outcome == Fail(FORBIDDEN, NotOwner) <==>
              && Truthy(CallerId(req)) && Truthy(Field(req.body, "username")) && w.fault.None?
              && CallerRecord(req, users).Some? && !Store.IsCanonicalId(req.user.value.id)
  {
    if EditProfile(req, users, w, validation).outcome == Fail(FORBIDDEN, NotOwner) {
      assert Truthy(CallerId(req)) && Truthy(Field(req.body, "username"));
      assert Store.CastId(req.user.value.id).Some? && w.fault.None?;
      var i := CallerRecord(req, users).value;
      assert req.user.value.id != users[i].id;
    }
  }

  /**
   * A username that is present but only white space passes the handler's
   * check and is rejected by the schema on save: 400, and with only the
   * modified path validated the schema's message names just the username.
   */
  lemma BlankUsernameRejectedOnSave(req: Request, users: Users, w: World, validation: SaveValidation)
    requires Truthy(CallerId(req)) && Store.IsCanonicalId(req.user.value.id) && w.fault.None?
    requires CallerRecord(req, users).Some?
    requires Truthy(Field(req.body, "username")) && Trim(req.body["username"]) == ""
    ensures var r := EditProfile(req, users, w, validation).outcome;
            && r.Fail? && r.status == BAD_REQUEST
            && (validation == ModifiedPaths ==>
                  r.message == Message(ValidationFailure(ModelName, [PathError("username", UsernameRequired)])))
  {
  }

  /**
   * As written (`save()` validating every path), a user whose stored
   * password is a hash longer than 15 code units cannot rename themselves:
   * the save fails on the password path and the handler answers 400 with the
   * schema's message.
   */
  lemma EditProfileRejectsStoredHash(req: Request, users: Users, w: World)
    requires Truthy(CallerId(req)) && Store.IsCanonicalId(req.user.value.id) && w.fault.None?
    requires CallerRecord(req, users).Some?
    requires Truthy(Field(req.body, "username"))
    requires Utf16Length(users[CallerRecord(req, users).value].password) > 15
    ensures var u := users[CallerRecord(req, users).value];
            var failure := ValidateNew(Some(req.body["username"]), Some(u.email), Some(u.password)).error;
            && PathError("password", PasswordInvalid) in failure.errors
            && EditProfile(req, users, w, AllPaths)
               == Handled(Fail(BAD_REQUEST, Message(failure)), users)
  {
    var u := users[CallerRecord(req, users).value];
    SaveRejectsStoredHash(u, req.body["username"], w.now);
  }

  /**
   * Registration stores the hash of the password, so with a hash longer than
   * 15 code units a newly registered user's rename request is refused.
   */
  lemma RegisteredUserCannotRename(req: Request, users: Users, w1: World, edit: Request, w2: World)
    requires Store.UniqueKeys(users, IdOf) && Store.IsCanonicalId(w1.freshId)
    requires CreateUser(req, users, w1).outcome.Respond?
    requires Utf16Length(w1.crypto.hash(req.body["password"])) > 15
    requires edit.user.Some? && edit.user.value.id == w1.freshId && w2.fault.None?
    requires Truthy(Field(edit.body, "username"))
    ensures var once := CreateUser(req, users, w1).store;
            var r := EditProfile(edit, once, w2, AllPaths);
            && r.store == once && r.outcome.Fail? && r.outcome.status == BAD_REQUEST
  {
    var once := CreateUser(req, users, w1).store;
    Store.InsertIsMapUpdate(users, IdOf, once[|users|]);
    Store.UniqueFind(once, IdOf, |users|);
    assert CallerRecord(edit, once) == Some(|users|);
    EditProfileRejectsStoredHash(edit, once, w2);
  }

  /**
   * With only the modified path validated (`save({ validateModifiedOnly:
   * true })`), the owner's rename succeeds whatever the stored password is.
   */
  lemma EditProfileRenames(req: Request, users: Users, w: World)
    requires Truthy(CallerId(req)) && Store.IsCanonicalId(req.user.value.id) && w.fault.None?
    requires CallerRecord(req, users).Some?
    requires Truthy(Field(req.body, "username")) && Trim(req.body["username"]) != ""
    ensures var i := CallerRecord(req, users).value;
            var u := Renamed(users[i], req.body["username"], w.now);
            EditProfile(req, users, w, ModifiedPaths)
            == Handled(Respond(OK, Envelope(SimpleSuccess(OK, UsernameUpdated, Some(Document(u))))),
                       Store.ReplaceAt(users, i, u))
  {
    var i := CallerRecord(req, users).value;
    SaveModifiedOnlyRenames(users[i], req.body["username"], w.now);
  }

  /**
   * Sending the name the caller already has (before or after trimming)
   * modifies nothing: the edit answers with the stored document, `updatedAt`
   * included, and the store is left as it was.
   */
  lemma EditProfileSameNameKeepsStore(req: Request, users: Users, w: World, validation: SaveValidation)
    requires EditProfile(req, users, w, validation).outcome.Respond?
    requires Trim(req.body["username"]) == users[CallerRecord(req, users).value].username
    ensures var r := EditProfile(req, users, w, validation);
            && r.store == users
            && r.outcome == Respond(OK, Envelope(SimpleSuccess(OK, UsernameUpdated,
                                                               Some(Document(users[CallerRecord(req, users).value])))))
  {
    var i := CallerRecord(req, users).value;
    assert Store.ReplaceAt(users, i, users[i]) == users;
  }

  /**
   * A successful edit changes only the caller's username and `updatedAt`:
   * every other user, and every other field of the caller's record, is as it
   * was, and the store stays well formed.
   */
  lemma EditProfileFrame(req: Request, users: Users, w: World, validation: SaveValidation)
    requires WellFormed(users)
    requires EditProfile(req, users, w, validation).outcome.Respond?
    ensures var r := EditProfile(req, users, w, validation);
            var id := req.user.value.id;
            var before := Store.ToMap(users, IdOf)[id];
            var after := Store.ToMap(r.store, IdOf)[id];
            && WellFormed(r.store)
            && Store.ToMap(r.store, IdOf) == Store.ToMap(users, IdOf)[id := after]
            && after == Renamed(before, req.body["username"], w.now)
  {
    var i := CallerRecord(req, users).value;
    var u := Renamed(users[i], req.body["username"], w.now);
    Store.ReplaceIsMapUpdate(users, IdOf, i, u);
    Store.MapAt(users, IdOf, i);
    var s := Store.ReplaceAt(users, i, u);
    forall a, b | 0 <= a < b < |s|
      ensures s[a].email != s[b].email
    {
      assert s[a].email == users[a].email && s[b].email == users[b].email;
    }
  }
}
