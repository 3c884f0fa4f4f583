/**
 * `src/controllers/userController.ts`: the variant that validates the
 * request body before touching storage and turns every exception into a 500
 * with a fixed message. Its `createUser` hashes the password itself before
 * `UserModel.create`; `CreateUserAsWritten` models that, and `CreateUser`
 * the evidently intended single hash.
 */
module CheckedUserController {
  import opened Common
  import opened Text
  import opened Http
  import opened Collaborators
  import opened Schema
  import Store
  import opened ApiResponse
  import opened UserModel
  import opened UserController

  const AllFieldsRequired := "All fields are required"
  const InvalidEmailFormat := "Invalid email format"
  const InvalidPasswordFormat := "Password must be 8-15 characters long, include at least one number and one special character"
  const CreateFailed := "Error while creating user"
  const SignFailed := "Error while signing JWT token"
  const FetchFailed := "Error while fetching user profile"
  const UpdateFailed := "Error while updating username"

  /**
   * The checks before the `try`, in order: all three fields present, e-mail
   * format, password format. `None` when all pass.
   */
  function Precheck(req: Request, w: World): (r: Option<string>)
    ensures r.None? <==> && Truthy(Field(req.body, "username")) && Truthy(Field(req.body, "email"))
                         && Truthy(Field(req.body, "password"))
                         && w.validators.email(req.body["email"]) && w.validators.password(req.body["password"])
    ensures (!Truthy(Field(req.body, "username")) || !Truthy(Field(req.body, "email")) || !Truthy(Field(req.body, "password")))
            ==> r == Some(AllFieldsRequired)
    ensures (Truthy(Field(req.body, "username")) && Truthy(Field(req.body, "email")) && Truthy(Field(req.body, "password"))
             && !w.validators.email(req.body["email"]))
            ==> r == Some(InvalidEmailFormat)
    ensures (Truthy(Field(req.body, "username")) && Truthy(Field(req.body, "email")) && Truthy(Field(req.body, "password"))
             && w.validators.email(req.body["email"]) && !w.validators.password(req.body["password"]))
            ==> r == Some(InvalidPasswordFormat)
  {
    var username, email, password := Field(req.body, "username"), Field(req.body, "email"), Field(req.body, "password");
    if !Truthy(username) || !Truthy(email) || !Truthy(password) then Some(AllFieldsRequired)
    else if !w.validators.email(email.value) then Some(InvalidEmailFormat)
    else if !w.validators.password(password.value) then Some(InvalidPasswordFormat)
    else None
  }

  /**
   * `createUser` as written: after the checks and the e-mail lookup it stores
   * `bcrypt.hash(password)` through `UserModel.create`, whose validation then
   * judges the hash against the password pattern, and whose pre-save hook
   * would hash it again.
   */
  function CreateUserAsWritten(req: Request, users: Users, w: World): (r: Handled<Users, UserBody>)
    ensures r.outcome.Terminal()
    ensures !r.outcome.Respond? ==> r.store == users
    ensures Precheck(req, w).Some? ==> r.outcome == Fail(BAD_REQUEST, Precheck(req, w).value)
    ensures (Precheck(req, w).None? && w.fault.Some?) ==> r.outcome == Fail(INTERNAL_SERVER_ERROR, CreateFailed)
    ensures (Precheck(req, w).None? && w.fault.None? && FindByEmail(users, Field(req.body, "email")).Some?)
            ==> r.outcome == Fail(BAD_REQUEST, UserExists)
    ensures r.outcome.Respond? ==>
              && r.outcome == Respond(CREATED, Envelope(SimpleSuccess(CREATED, UserCreated)))
              && FindByEmail(users, Field(req.body, "email")).None?
              && w.freshId !in Store.ToMap(users, IdOf)
              && IsValidPassword(w.crypto.hash(req.body["password"]))
              && r.store == Store.Insert(users, Registered(req.body["username"], req.body["email"],
                                                           w.crypto.hash(req.body["password"]), w))
    ensures (Precheck(req, w).None? && w.fault.None? && FindByEmail(users, Field(req.body, "email")).None?)
            ==> var hashed := w.crypto.hash(req.body["password"]);
                var v := ValidateNew(Field(req.body, "username"), Field(req.body, "email"), Some(hashed));
                if v.Err? || w.freshId in Store.ToMap(users, IdOf) then
                  r == Handled(Fail(INTERNAL_SERVER_ERROR, CreateFailed), users)
                else
                  r == Handled(Respond(CREATED, Envelope(SimpleSuccess(CREATED, UserCreated))),
                               Store.Insert(users, Registered(req.body["username"], req.body["email"], hashed, w)))
    ensures r.outcome.Fail? ==> r.outcome.status in {BAD_REQUEST, INTERNAL_SERVER_ERROR}
  {
    match Precheck(req, w)
    case Some(message) => Handled(Fail(BAD_REQUEST, message), users)
    case None =>
      var email := Field(req.body, "email");
      if w.fault.Some? then Handled(Fail(INTERNAL_SERVER_ERROR, CreateFailed), users)
      else if FindByEmail(users, email).Some? then Handled(Fail(BAD_REQUEST, UserExists), users)
      else
        var hashed := w.crypto.hash(req.body["password"]);
        match UserModel.Create(users, Field(req.body, "username"), email, Some(hashed), w)
        case Err(_) => Handled(Fail(INTERNAL_SERVER_ERROR, CreateFailed), users)
        case Ok(users') => Handled(Respond(CREATED, Envelope(SimpleSuccess(CREATED, UserCreated))), users')
  }

  /**
   * With any hash longer than 15 code units (a bcrypt hash has 60), a
   * registration that passes every check and names a new e-mail still ends in
   * 500 "Error while creating user", and nothing is stored.
   */
  lemma CreateUserAsWrittenAlwaysFails(req: Request, users: Users, w: World)
    requires Precheck(req, w).None? && w.fault.None?
    requires FindByEmail(users, Field(req.body, "email")).None?
    requires Utf16Length(w.crypto.hash(req.body["password"])) > 15
    ensures CreateUserAsWritten(req, users, w) == Handled(Fail(INTERNAL_SERVER_ERROR, CreateFailed), users)
  {
    LongPasswordRejected(w.crypto.hash(req.body["password"]));
  }

  /** Were the hash ever short enough to pass, the stored password would be hashed twice. */
  lemma CreateUserAsWrittenHashesTwice(req: Request, users: Users, w: World)
    requires CreateUserAsWritten(req, users, w).outcome.Respond?
    ensures var s := CreateUserAsWritten(req, users, w).store;
            |s| == |users| + 1 && s[|users|].password == w.crypto.hash(w.crypto.hash(req.body["password"]))
  {
  }

  /**
   * `createUser` as intended: the plain-text password goes to
   * `UserModel.create`, which validates it and lets the pre-save hook hash it
   * once.
   */
  function CreateUser(req: Request, users: Users, w: World): (r: Handled<Users, UserBody>)
    ensures r.outcome.Terminal()
    ensures !r.outcome.Respond? ==> r.store == users
    ensures Precheck(req, w).Some? ==> r.outcome == Fail(BAD_REQUEST, Precheck(req, w).value)
    ensures (Precheck(req, w).None? && w.fault.Some?) ==> r.outcome == Fail(INTERNAL_SERVER_ERROR, CreateFailed)
    ensures (Precheck(req, w).None? && w.fault.None? && FindByEmail(users, Field(req.body, "email")).Some?)
            ==> r.outcome == Fail(BAD_REQUEST, UserExists)
    ensures r.outcome.Respond? ==>
              && r.outcome == Respond(CREATED, Envelope(SimpleSuccess(CREATED, UserCreated)))
              && FindByEmail(users, Field(req.body, "email")).None?
              && w.freshId !in Store.ToMap(users, IdOf)
              && r.store == Store.Insert(users, Registered(req.body["username"], req.body["email"],
                                                           req.body["password"], w))
    ensures (Precheck(req, w).None? && w.fault.None? && FindByEmail(users, Field(req.body, "email")).None?)
            ==> var v := ValidateNew(Field(req.body, "username"), Field(req.body, "email"), Field(req.body, "password"));
                if v.Err? || w.freshId in Store.ToMap(users, IdOf) then
                  r == Handled(Fail(INTERNAL_SERVER_ERROR, CreateFailed), users)
                else
                  r == Handled(Respond(CREATED, Envelope(SimpleSuccess(CREATED, UserCreated))),
                               Store.Insert(users, Registered(req.body["username"], req.body["email"],
                                                              req.body["password"], w)))
    ensures r.outcome.Fail? ==> r.outcome.status in {BAD_REQUEST, INTERNAL_SERVER_ERROR}
  {
    match Precheck(req, w)
    case Some(message) => Handled(Fail(BAD_REQUEST, message), users)
    case None =>
      var email := Field(req.body, "email");
      if w.fault.Some? then Handled(Fail(INTERNAL_SERVER_ERROR, CreateFailed), users)
      else if FindByEmail(users, email).Some? then Handled(Fail(BAD_REQUEST, UserExists), users)
      else
        match UserModel.Create(users, Field(req.body, "username"), email, Field(req.body, "password"), w)
        case Err(_) => Handled(Fail(INTERNAL_SERVER_ERROR, CreateFailed), users)
        case Ok(users') => Handled(Respond(CREATED, Envelope(SimpleSuccess(CREATED, UserCreated))), users')
  }

  /**
   * When the up-front checks agree with the schema, the e-mail and the fresh
   * id are new and storage answers, registration succeeds and stores the
   * hash of the supplied password, whatever the length of the hash.
   */
  lemma CreateUserSucceeds(req: Request, users: Users, w: World)
    requires Precheck(req, w).None? && w.fault.None?
    requires Trim(req.body["username"]) != ""
    requires IsValidEmail(req.body["email"]) && IsValidPassword(req.body["password"])
    requires FindByEmail(users, Field(req.body, "email")).None?
    requires w.freshId !in Store.ToMap(users, IdOf)
    ensures var r := CreateUser(req, users, w);
            && r.outcome == Respond(CREATED, Envelope(SimpleSuccess(CREATED, UserCreated)))
            && r.store[|users|].password == w.crypto.hash(req.body["password"])
  {
    assert req.body["email"] == Field(req.body, "email").value;
  }

  /** `loginUser`: fields first, then the lookup, then the password. */
  function LoginUser(req: Request, users: Users, w: World): (r: Handled<Users, UserBody>)
    ensures r.outcome.Terminal()
    ensures r.store == users
    ensures (!Truthy(Field(req.body, "email")) || !Truthy(Field(req.body, "password")))
            ==> r.outcome == Fail(BAD_REQUEST, AllFieldsRequired)
    ensures (Truthy(Field(req.body, "email")) && Truthy(Field(req.body, "password")) && w.fault.Some?)
            ==> r.outcome == Fail(INTERNAL_SERVER_ERROR, SignFailed)
    ensures (Truthy(Field(req.body, "email")) && Truthy(Field(req.body, "password")) && w.fault.None?
             && FindByEmail(users, Field(req.body, "email")).None?)
            ==> r.outcome == Fail(NOT_FOUND, UnknownUser)
    ensures (Truthy(Field(req.body, "email")) && Truthy(Field(req.body, "password")) && w.fault.None?
             && FindByEmail(users, Field(req.body, "email")).Some?
             && !w.crypto.compare(req.body["password"], FindByEmail(users, Field(req.body, "email")).value.password))
            ==> r.outcome == Fail(BAD_REQUEST, IncorrectPassword)
    ensures r.outcome.Respond? ==>
              && FindByEmail(users, Field(req.body, "email")).Some?
              && var u := FindByEmail(users, Field(req.body, "email")).value;
              && w.crypto.compare(req.body["password"], u.password)
              && r.outcome == Respond(OK, AccessToken(w.crypto.sign(u.id)))
    ensures (Truthy(Field(req.body, "email")) && Truthy(Field(req.body, "password")) && w.fault.None?
             && FindByEmail(users, Field(req.body, "email")).Some?
             && w.crypto.compare(req.body["password"], FindByEmail(users, Field(req.body, "email")).value.password))
            ==> r.outcome == Respond(OK, AccessToken(w.crypto.sign(FindByEmail(users, Field(req.body, "email")).value.id)))
  {
    var email, password := Field(req.body, "email"), Field(req.body, "password");
    if !Truthy(email) || !Truthy(password) then Handled(Fail(BAD_REQUEST, AllFieldsRequired), users)
    else if w.fault.Some? then Handled(Fail(INTERNAL_SERVER_ERROR, SignFailed), users)
    else
      match FindByEmail(users, email)
      case None => Handled(Fail(NOT_FOUND, UnknownUser), users)
      case Some(u) =>
        if !w.crypto.compare(password.value, u.password) then Handled(Fail(BAD_REQUEST, IncorrectPassword), users)
        else Handled(Respond(OK, AccessToken(w.crypto.sign(u.id))), users)
  }

  /**
   * With the intended `createUser`, a login with the e-mail and password just
   * registered succeeds, with a token for the new id.
   */
  lemma RegisterThenLogin(req: Request, users: Users, w1: World, login: Request, w2: World)
    requires WellFormed(users) && HashMatches(w1.crypto) && w2.crypto == w1.crypto && w2.fault.None?
    requires CreateUser(req, users, w1).outcome.Respond?
    requires Field(login.body, "email") == Field(req.body, "email")
    requires Field(login.body, "password") == Field(req.body, "password")
    ensures LoginUser(login, CreateUser(req, users, w1).store, w2).outcome
            == Respond(OK, AccessToken(w2.crypto.sign(w1.freshId)))
  {
    var once := CreateUser(req, users, w1).store;
    var u := Registered(req.body["username"], req.body["email"], req.body["password"], w1);
    assert once[|users|] == u;
    assert FindByEmail(once, Field(login.body, "email")) == Some(u);
  }

  /**
   * `getProfile`: the caller's record without its password, sent with HTTP
   * 200 in an envelope whose `statusCode` says 201.
   */
  function GetProfile(req: Request, users: Users, w: World): (r: Handled<Users, UserBody>)
    ensures r.outcome.Terminal()
    ensures r.store == users
    ensures req.user.None? ==> r.outcome == Fail(INTERNAL_SERVER_ERROR, NoPrincipal)
    ensures (req.user.Some? && (Store.CastId(req.user.value.id).None? || w.fault.Some?))
            ==> r.outcome == Fail(INTERNAL_SERVER_ERROR, FetchFailed)
    ensures (req.user.Some? && Store.CastId(req.user.value.id).Some? && w.fault.None?
             && Store.Lookup(users, IdOf, Store.CastId(req.user.value.id).value).None?)
            ==> r.outcome == Fail(NOT_FOUND, ProfileNotFound)
    ensures r.outcome.Respond? ==>
              && req.user.Some? && Store.CastId(req.user.value.id).Some?
              && var u := Store.Lookup(users, IdOf, Store.CastId(req.user.value.id).value);
              && u.Some? && u.value.id == Store.CastId(req.user.value.id).value
              && r.outcome.status == OK && r.outcome.body.Envelope?
              && r.outcome.body.response.statusCode == CREATED
              && r.outcome.body.response.data == Some(WithoutPassword(ProfileOf(u.value)))
  {
    match req.user
    case None => Handled(Fail(INTERNAL_SERVER_ERROR, NoPrincipal), users)
    case Some(p) =>
      if Store.CastId(p.id).None? || w.fault.Some? then Handled(Fail(INTERNAL_SERVER_ERROR, FetchFailed), users)
      else
        match Store.Lookup(users, IdOf, Store.CastId(p.id).value)
        case None => Handled(Fail(NOT_FOUND, ProfileNotFound), users)
        case Some(u) =>
          Handled(Respond(OK, Envelope(SimpleSuccess(CREATED, ProfileFetched, Some(WithoutPassword(ProfileOf(u)))))), users)
  }

  /** The two `getProfile` variants answer alike except for the envelope's `statusCode`. */
  lemma GetProfileVariantsDiffer(req: Request, users: Users, w: World)
    requires req.user.Some? && Store.CastId(req.user.value.id).Some? && w.fault.None?
    requires Store.Lookup(users, IdOf, Store.CastId(req.user.value.id).value).Some?
    ensures var checked := GetProfile(req, users, w).outcome;
            var plain := UserController.GetProfile(req, users, w).outcome;
            && checked.Respond? && plain.Respond? && checked.status == plain.status == OK
            && checked.body.response == plain.body.response.(statusCode := CREATED)
  {
  }

  /** `editProfile`: the same checks as the other variant, with every exception a fixed 500. */
  function EditProfile(req: Request, users: Users, w: World, validation: SaveValidation): (r: Handled<Users, UserBody>)
    ensures r.outcome.Terminal()
    ensures !r.outcome.Respond? ==> r.store == users
    ensures !Truthy(CallerId(req)) ==> r.outcome == Fail(UNAUTHORIZED, NotAuthenticated)
    ensures (Truthy(CallerId(req)) && !Truthy(Field(req.body, "username")))
            ==> r.outcome == Fail(BAD_REQUEST, UsernameMissing)
    ensures (Truthy(CallerId(req)) && Truthy(Field(req.body, "username"))
             && (Store.CastId(req.user.value.id).None? || w.fault.Some?))
            ==> r.outcome == Fail(INTERNAL_SERVER_ERROR, UpdateFailed)
    ensures (Truthy(CallerId(req)) && Truthy(Field(req.body, "username")) && Store.CastId(req.user.value.id).Some?
             && w.fault.None? && CallerRecord(req, users).None?)
            ==> r.outcome == Fail(NOT_FOUND, ProfileNotFound)
    ensures (Truthy(CallerId(req)) && Truthy(Field(req.body, "username")) && w.fault.None?
             && CallerRecord(req, users).Some? && !Store.IsCanonicalId(req.user.value.id))
            ==> r.outcome == Fail(FORBIDDEN, NotOwner)
    ensures (Truthy(CallerId(req)) && Truthy(Field(req.body, "username")) && w.fault.None?
             && CallerRecord(req, users).Some? && Store.IsCanonicalId(req.user.value.id)
             && SaveUsername(users[CallerRecord(req, users).value], req.body["username"], w.now, validation).Err?)
            ==> r.outcome == Fail(INTERNAL_SERVER_ERROR, UpdateFailed)
    ensures (Truthy(CallerId(req)) && Truthy(Field(req.body, "username")) && w.fault.None?
             && CallerRecord(req, users).Some? && Store.IsCanonicalId(req.user.value.id)
             && var i := CallerRecord(req, users).value;
             && Trim(req.body["username"]) != ""
             && (validation == AllPaths ==> IsValidEmail(users[i].email) && IsValidPassword(users[i].password)))
            ==> var i := CallerRecord(req, users).value;
                var u := Renamed(users[i], req.body["username"], w.now);
                r == Handled(Respond(OK, Envelope(SimpleSuccess(OK, UsernameUpdated, Some(Document(u))))),
                             Store.ReplaceAt(users, i, u))
    ensures r.outcome.Respond? ==>
              && req.user.Some? && Store.IsCanonicalId(req.user.value.id)
              && CallerRecord(req, users).Some?
              && var i := CallerRecord(req, users).value;
              && Trim(req.body["username"]) != ""
              && (validation == AllPaths ==> IsValidEmail(users[i].email) && IsValidPassword(users[i].password))
              && var u := Renamed(users[i], req.body["username"], w.now);
              && r.store == Store.ReplaceAt(users, i, u)
              && r.outcome == Respond(OK, Envelope(SimpleSuccess(OK, UsernameUpdated, Some(Document(u)))))
  {
    var userId := CallerId(req);
    var username := Field(req.body, "username");
    if !Truthy(userId) then Handled(Fail(UNAUTHORIZED, NotAuthenticated), users)
    else if !Truthy(username) then Handled(Fail(BAD_REQUEST, UsernameMissing), users)
    else if Store.CastId(userId.value).None? || w.fault.Some? then Handled(Fail(INTERNAL_SERVER_ERROR, UpdateFailed), users)
    else
      match CallerRecord(req, users)
      case None => Handled(Fail(NOT_FOUND, ProfileNotFound), users)
      case Some(i) =>
        if userId.value != users[i].id then Handled(Fail(FORBIDDEN, NotOwner), users)
        else
          match SaveUsername(users[i], username.value, w.now, validation)
          case Err(_) => Handled(Fail(INTERNAL_SERVER_ERROR, UpdateFailed), users)
          case Ok(u) =>
            Handled(Respond(OK, Envelope(SimpleSuccess(OK, UsernameUpdated, Some(Document(u))))),
                    Store.ReplaceAt(users, i, u))
  }

  /**
   * As written (`save()` validating every path), a user whose stored
   * password is a hash longer than 15 code units cannot rename themselves:
   * the save fails on the password path and this variant answers 500.
   */
  lemma EditProfileRejectsStoredHash(req: Request, users: Users, w: World)
    requires Truthy(CallerId(req)) && Store.IsCanonicalId(req.user.value.id) && w.fault.None?
    requires CallerRecord(req, users).Some?
    requires Truthy(Field(req.body, "username"))
    requires Utf16Length(users[CallerRecord(req, users).value].password) > 15
    ensures EditProfile(req, users, w, AllPaths) == Handled(Fail(INTERNAL_SERVER_ERROR, UpdateFailed), users)
  {
    SaveRejectsStoredHash(users[CallerRecord(req, users).value], req.body["username"], w.now);
  }

  /**
   * With only the modified path validated, this variant too renames the
   * owner whatever the stored password is.
   */
  lemma EditProfileRenames(req: Request, users: Users, w: World)
    requires Truthy(CallerId(req)) && Store.IsCanonicalId(req.user.value.id) && w.fault.None?
    requires CallerRecord(req, users).Some?
    requires Truthy(Field(req.body, "username")) && Trim(req.body["username"]) != ""
    ensures var i := CallerRecord(req, users).value;
            var u := Renamed(users[i], req.body["username"], w.now);
            EditProfile(req, users, w, ModifiedPaths)
            == Handled(Respond(OK, Envelope(SimpleSuccess(OK, UsernameUpdated, Some(Document(u))))),
                       Store.ReplaceAt(users, i, u))
  {
    UserController.EditProfileRenames(req, users, w);
    EditProfileVariantsAgree(req, users, w, ModifiedPaths);
  }

  /**
   * Both `editProfile` variants make the same transition; they differ only in
   * how an exception is reported (here always 500, there through `HandleError`).
   */
  lemma EditProfileVariantsAgree(req: Request, users: Users, w: World, validation: SaveValidation)
    ensures EditProfile(req, users, w, validation).store == UserController.EditProfile(req, users, w, validation).store
    ensures EditProfile(req, users, w, validation).outcome.Respond?
            <==> UserController.EditProfile(req, users, w, validation).outcome.Respond?
    ensures EditProfile(req, users, w, validation).outcome.Respond? ==>
              EditProfile(req, users, w, validation).outcome == UserController.EditProfile(req, users, w, validation).outcome
  {
  }
}
