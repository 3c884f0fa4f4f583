/**
 * The route tables of `userRouter.ts` and `tableRouter.ts`, their mount
 * prefixes, and the request pipeline they set up: the auth stage for the
 * routes that list it, then the handler, then the global error handler for
 * any error forwarded to `next`. A request reaches its handler only if every
 * stage before it continued.
 */
module Routes {
  import opened Common
  import opened Text
  import opened Http
  import opened Collaborators
  import Store
  import opened ApiResponse
  import opened ErrorMiddleware
  import opened UserModel
  import TableModel
  import opened Auth
  import UserController
  import TableController

  datatype Method = Get | Post | Patch | Delete

  /** The controller functions a route can name. */
  datatype Handler =
    | CreateUser | LoginUser | GetProfile | EditProfile
    | GetAllTables | CreateTable | UpdateTable | DeleteTable

  /** One `router.<method>(path, [authMiddleware,] handler)` line. */
  datatype Route = Route(verb: Method, path: string, guarded: bool, handler: Handler)

  const UsersPrefix := "/api/users"
  const TablesPrefix := "/api/tables"

  const UserRoutes := [
    Route(Post, "/register", false, CreateUser),
    Route(Post, "/login", false, LoginUser),
    Route(Get, "/profile", true, GetProfile),
    Route(Patch, "/profile", true, EditProfile)
  ]

  const TableRoutes := [
    Route(Get, "/", false, GetAllTables),
    Route(Post, "/", false, CreateTable),
    Route(Patch, "/:id", false, UpdateTable),
    Route(Delete, "/:id", false, DeleteTable)
  ]

  /** Exactly the two `/profile` routes pass through the auth stage; no table route does. */
  lemma OnlyProfileRoutesGuarded()
    ensures forall i :: 0 <= i < |UserRoutes| ==> (UserRoutes[i].guarded <==> UserRoutes[i].path == "/profile")
    ensures forall i :: 0 <= i < |TableRoutes| ==> !TableRoutes[i].guarded
  {
  }

  // ---------------------------------------------------------------- matching

  /** A path segment: non-empty and without `/`. */
  predicate IsSegment(s: string) {
    |s| > 0 && forall i :: 0 <= i < |s| ==> s[i] != '/'
  }

  /**
   * The part of `path` below a mount `prefix`, `"/"` when nothing is left;
   * `None` when the path is not under the prefix.
   */
  function Below(path: string, prefix: string): (r: Option<string>)
    ensures r.Some? <==> |prefix| <= |path| && path[..|prefix|] == prefix
                         && (|path| == |prefix| || path[|prefix|] == '/')
    ensures r.Some? ==> r.value == if |path| == |prefix| then "/" else path[|prefix|..]
  {
    if |prefix| <= |path| && path[..|prefix|] == prefix && (|path| == |prefix| || path[|prefix|] == '/') then
      Some(if |path| == |prefix| then "/" else path[|prefix|..])
    else None
  }

  /**
   * Matches a route path against the rest of a request path: `/:name` binds
   * one segment to `name`, any other pattern matches only itself.
   */
  function MatchPath(pattern: string, rest: string): (r: Option<map<string, string>>)
    ensures (|pattern| >= 2 && pattern[..2] == "/:") ==>
              (r.Some? <==> |rest| > 0 && rest[0] == '/' && IsSegment(rest[1..]))
              && (r.Some? ==> r.value == map[pattern[2..] := rest[1..]])
    ensures !(|pattern| >= 2 && pattern[..2] == "/:") ==> (r.Some? <==> rest == pattern) && (r.Some? ==> r.value == map[])
  {
    if |pattern| >= 2 && pattern[..2] == "/:" then
      if |rest| > 0 && rest[0] == '/' && IsSegment(rest[1..]) then Some(map[pattern[2..] := rest[1..]]) else None
    else if rest == pattern then Some(map[])
    else None
  }

  /** A matched route and the route parameters it bound. */
  datatype Match = Match(route: Route, params: map<string, string>)

  /** The first route, in declaration order, whose method and path match. */
  function FirstMatch(routes: seq<Route>, verb: Method, rest: string): (r: Option<Match>)
    ensures r.Some? ==> r.value.route in routes && r.value.route.verb == verb
                        && MatchPath(r.value.route.path, rest) == Some(r.value.params)
    ensures r.None? <==> forall i :: 0 <= i < |routes| ==> routes[i].verb != verb || MatchPath(routes[i].path, rest).None?
  {
    if |routes| == 0 then None
    else if routes[0].verb == verb && MatchPath(routes[0].path, rest).Some? then
      Some(Match(routes[0], MatchPath(routes[0].path, rest).value))
    else FirstMatch(routes[1..], verb, rest)
  }

  /** A literal pattern (one that does not start with `/:`) misses every other path. */
  lemma LiteralMiss(pattern: string, rest: string)
    requires |pattern| < 2 || pattern[1] != ':'
    requires |rest| != |pattern|
    ensures MatchPath(pattern, rest).None?
  {
    if |pattern| >= 2 { assert pattern[..2][1] == pattern[1]; }
  }

  /** A literal pattern matches itself and binds nothing. */
  lemma LiteralHit(pattern: string)
    requires |pattern| < 2 || pattern[1] != ':'
    ensures MatchPath(pattern, pattern) == Some(map[])
  {
    if |pattern| >= 2 { assert pattern[..2][1] == pattern[1]; }
  }

  /** The route at `k` wins when it matches and no earlier route does. */
  lemma {:induction false} FirstMatchAt(routes: seq<Route>, verb: Method, rest: string, k: nat)
    requires k < |routes| && routes[k].verb == verb && MatchPath(routes[k].path, rest).Some?
    requires forall j :: 0 <= j < k ==> routes[j].verb != verb || MatchPath(routes[j].path, rest).None?
    ensures FirstMatch(routes, verb, rest) == Some(Match(routes[k], MatchPath(routes[k].path, rest).value))
    decreases k
  {
    if k > 0 {
      assert routes[1..][k - 1] == routes[k];
      forall j | 0 <= j < k - 1
        ensures routes[1..][j].verb != verb || MatchPath(routes[1..][j].path, rest).None?
      {
        assert routes[1..][j] == routes[j + 1];
      }
      FirstMatchAt(routes[1..], verb, rest, k - 1);
    }
  }

  /** The two routers as mounted: users under `/api/users`, tables under `/api/tables`. */
  function Dispatch(verb: Method, path: string): (r: Option<Match>)
    ensures r.Some? ==> (r.value.route in UserRoutes && Below(path, UsersPrefix).Some?)
                        || (r.value.route in TableRoutes && Below(path, TablesPrefix).Some?)
  {
    match Below(path, UsersPrefix)
    case Some(rest) => FirstMatch(UserRoutes, verb, rest)
    case None =>
      match Below(path, TablesPrefix)
      case Some(rest) => FirstMatch(TableRoutes, verb, rest)
      case None => None
  }

  lemma UserPath(rest: string)
    requires |rest| > 0 && rest[0] == '/'
    ensures Below(UsersPrefix + rest, UsersPrefix) == Some(rest)
  {
    var p := UsersPrefix + rest;
    assert p[..|UsersPrefix|] == UsersPrefix && p[|UsersPrefix|..] == rest;
  }

  lemma DispatchRegister()
    ensures Dispatch(Post, UsersPrefix + "/register") == Some(Match(UserRoutes[0], map[]))
  {
    UserPath("/register");
    LiteralHit("/register");
    FirstMatchAt(UserRoutes, Post, "/register", 0);
  }

  lemma DispatchLogin()
    ensures Dispatch(Post, UsersPrefix + "/login") == Some(Match(UserRoutes[1], map[]))
  {
    UserPath("/login");
    LiteralHit("/login");
    LiteralMiss("/register", "/login");
    FirstMatchAt(UserRoutes, Post, "/login", 1);
  }

  lemma DispatchProfile(verb: Method)
    requires verb == Get || verb == Patch
    ensures Dispatch(verb, UsersPrefix + "/profile") == Some(Match(UserRoutes[if verb == Get then 2 else 3], map[]))
  {
    UserPath("/profile");
    LiteralHit("/profile");
    FirstMatchAt(UserRoutes, verb, "/profile", if verb == Get then 2 else 3);
  }

  lemma DispatchProfileDelete()
    ensures Dispatch(Delete, UsersPrefix + "/profile").None?
  {
    UserPath("/profile");
  }

  /** The user routes are reached at their documented paths; an undeclared method is not. */
  lemma DispatchUserRoutes()
    ensures Dispatch(Post, UsersPrefix + "/register") == Some(Match(UserRoutes[0], map[]))
    ensures Dispatch(Post, UsersPrefix + "/login") == Some(Match(UserRoutes[1], map[]))
    ensures Dispatch(Get, UsersPrefix + "/profile") == Some(Match(UserRoutes[2], map[]))
    ensures Dispatch(Patch, UsersPrefix + "/profile") == Some(Match(UserRoutes[3], map[]))
    ensures Dispatch(Delete, UsersPrefix + "/profile").None?
  {
    DispatchRegister();
    DispatchLogin();
    DispatchProfile(Get);
    DispatchProfile(Patch);
    DispatchProfileDelete();
  }

  lemma TablePath(rest: string)
    requires |rest| == 0 || rest[0] == '/'
    ensures Below(TablesPrefix + rest, UsersPrefix).None?
    ensures Below(TablesPrefix + rest, TablesPrefix) == Some(if rest == "" then "/" else rest)
  {
    var p := TablesPrefix + rest;
    assert p[..|TablesPrefix|] == TablesPrefix && p[|TablesPrefix|..] == rest;
    assert |p| >= |UsersPrefix| ==> p[..|UsersPrefix|] != UsersPrefix by {
      if |p| >= |UsersPrefix| { assert p[5] != UsersPrefix[5]; }
    }
  }

  lemma DispatchTableRoot(verb: Method)
    requires verb == Get || verb == Post
    ensures Dispatch(verb, TablesPrefix) == Some(Match(TableRoutes[if verb == Get then 0 else 1], map[]))
  {
    TablePath("");
    assert TablesPrefix + "" == TablesPrefix;
    LiteralHit("/");
    FirstMatchAt(TableRoutes, verb, "/", if verb == Get then 0 else 1);
  }

  lemma DispatchTableId(verb: Method, id: string)
    requires IsSegment(id) && (verb == Patch || verb == Delete)
    ensures Dispatch(verb, TablesPrefix + "/" + id) == Some(Match(TableRoutes[if verb == Patch then 2 else 3], map["id" := id]))
  {
    var rest := "/" + id;
    TablePath(rest);
    assert TablesPrefix + "/" + id == TablesPrefix + rest;
    assert rest[1..] == id;
    assert MatchPath("/:id", rest) == Some(map["id" := id]);
    LiteralMiss("/", rest);
    FirstMatchAt(TableRoutes, verb, rest, if verb == Patch then 2 else 3);
  }

  /** The table routes are reached under `/api/tables`, with the path id bound for the `/:id` routes. */
  lemma DispatchTableRoutes(id: string)
    requires IsSegment(id)
    ensures Dispatch(Get, TablesPrefix) == Some(Match(TableRoutes[0], map[]))
    ensures Dispatch(Post, TablesPrefix) == Some(Match(TableRoutes[1], map[]))
    ensures Dispatch(Patch, TablesPrefix + "/" + id) == Some(Match(TableRoutes[2], map["id" := id]))
    ensures Dispatch(Delete, TablesPrefix + "/" + id) == Some(Match(TableRoutes[3], map["id" := id]))
  {
    DispatchTableRoot(Get);
    DispatchTableRoot(Post);
    DispatchTableId(Patch, id);
    DispatchTableId(Delete, id);
  }

  // ---------------------------------------------------------------- the pipeline

  /** The two collections. */
  datatype Db = Db(users: seq<User>, tables: seq<TableModel.TableDoc>)

  /** What the client receives as the JSON body. */
  datatype Payload =
    | UserPayload(user: UserController.UserBody)
    | TablePayload(table: TableController.TableBody)
    | ErrorPayload(error: ErrorApiResponse)

  /** The response the client gets, and the collections afterwards. */
  datatype Exchange = Exchange(status: int, payload: Payload, db: Db)

  /**
   * Ends a request: a response is sent as it is; a failure goes to the global
   * error handler, which answers with its status and message.
   */
  function Finish(o: Outcome<(), Payload>, db: Db, w: World): (x: Exchange)
    requires o.Terminal()
    ensures x.db == db
    ensures o.Respond? ==> x.status == o.status && x.payload == o.body
    ensures o.Fail? && o.status != 0 ==>
              && x.status == o.status
              && x.payload == ErrorPayload(ErrorResponse(o.status, o.message,
                                                         if w.mode == Development then Some(w.trace) else None))
  {
    match o
    case Respond(s, b) => Exchange(s, b, db)
    case Fail(_, _) =>
      var reply := GlobalErrorHandler(Raise(o, w.trace), w.mode);
      Exchange(reply.status, ErrorPayload(reply.body), db)
  }

  function UserOutcome(o: Outcome<(), UserController.UserBody>): (p: Outcome<(), Payload>)
    ensures o.Terminal() ==> p.Terminal()
  {
    match o
    case Continue(c) => Continue(c)
    case Fail(s, m) => Fail(s, m)
    case Respond(s, b) => Respond(s, UserPayload(b))
  }

  function TableOutcome(o: Outcome<(), TableController.TableBody>): (p: Outcome<(), Payload>)
    ensures o.Terminal() ==> p.Terminal()
  {
    match o
    case Continue(c) => Continue(c)
    case Fail(s, m) => Fail(s, m)
    case Respond(s, b) => Respond(s, TablePayload(b))
  }

  /**
   * Runs one handler on the collection it works on. `editProfile` saves
   * with only the modified path validated, the behaviour its source
   * evidently intends (`UserController.EditProfileRenames`); as written,
   * `save()` validates every path (`UserController.EditProfileRejectsStoredHash`).
   */
  function Run(h: Handler, req: Request, db: Db, w: World): (x: Exchange)
    ensures h in {CreateUser, LoginUser, GetProfile, EditProfile} ==> x.db.tables == db.tables
    ensures h in {GetAllTables, CreateTable, UpdateTable, DeleteTable} ==> x.db.users == db.users
  {
    match h
    case CreateUser =>
      var r := UserController.CreateUser(req, db.users, w); Finish(UserOutcome(r.outcome), db.(users := r.store), w)
    case LoginUser =>
      var r := UserController.LoginUser(req, db.users, w); Finish(UserOutcome(r.outcome), db.(users := r.store), w)
    case GetProfile =>
      var r := UserController.GetProfile(req, db.users, w); Finish(UserOutcome(r.outcome), db.(users := r.store), w)
    case EditProfile =>
      var r := UserController.EditProfile(req, db.users, w, ModifiedPaths); Finish(UserOutcome(r.outcome), db.(users := r.store), w)
    case GetAllTables =>
      var r := TableController.GetAllTables(db.tables, w); Finish(TableOutcome(r.outcome), db.(tables := r.store), w)
    case CreateTable =>
      var r := TableController.CreateTable(req, db.tables, w); Finish(TableOutcome(r.outcome), db.(tables := r.store), w)
    case UpdateTable =>
      var r := TableController.UpdateTable(req, db.tables, w); Finish(TableOutcome(r.outcome), db.(tables := r.store), w)
    case DeleteTable =>
      var r := TableController.DeleteTable(req, db.tables, w); Finish(TableOutcome(r.outcome), db.(tables := r.store), w)
  }

  /**
   * Serves a matched request. The client cannot set `req.user`; only the
   * auth stage attaches it. On a guarded route the handler runs only if the
   * auth stage continued, and an auth failure leaves both collections as
   * they were.
   */
  function Serve(m: Match, req: Request, db: Db, w: World): (x: Exchange)
    ensures !m.route.guarded ==> x == Run(m.route.handler, req.(params := m.params, user := None), db, w)
    ensures m.route.guarded && Authenticate(req.(params := m.params, user := None), db.users, w).Continue? ==>
              x == Run(m.route.handler, Authenticate(req.(params := m.params, user := None), db.users, w).ctx, db, w)
    ensures m.route.guarded && Authenticate(req.(params := m.params, user := None), db.users, w).Fail? ==>
              && x.db == db
              && x.status == Authenticate(req.(params := m.params, user := None), db.users, w).status
              && x.payload.ErrorPayload?
              && x.payload.error.message == Authenticate(req.(params := m.params, user := None), db.users, w).message
  {
    var incoming := req.(params := m.params, user := None);
    if !m.route.guarded then Run(m.route.handler, incoming, db, w)
    else
      var auth := Authenticate(incoming, db.users, w);
      if auth.Continue? then Run(m.route.handler, auth.ctx, db, w)
      else Finish(Fail(auth.status, auth.message), db, w)
  }

  /**
   * A `/profile` request without an `Authorization` header is answered 401
   * "Access denied" by the auth stage; the handler never runs and nothing changes.
   */
  lemma MissingHeaderStopsAtAuth(m: Match, req: Request, db: Db, w: World)
    requires m.route.guarded && !Truthy(req.authorization)
    ensures var x := Serve(m, req, db, w);
            x.status == UNAUTHORIZED && x.db == db
            && x.payload == ErrorPayload(ErrorResponse(UNAUTHORIZED, AccessDenied,
                                                       if w.mode == Development then Some(w.trace) else None))
  {
  }

  /** No user handler reads the `Authorization` header. */
  lemma UserHandlersIgnoreHeader(h: Handler, req: Request, db: Db, w: World)
    requires h.CreateUser? || h.LoginUser? || h.GetProfile? || h.EditProfile?
    ensures Run(h, req, db, w) == Run(h, req.(authorization := None), db, w)
  {
    var b := req.(authorization := None);
    match h
    case CreateUser => assert UserController.CreateUser(req, db.users, w) == UserController.CreateUser(b, db.users, w);
    case LoginUser => assert UserController.LoginUser(req, db.users, w) == UserController.LoginUser(b, db.users, w);
    case GetProfile => assert UserController.GetProfile(req, db.users, w) == UserController.GetProfile(b, db.users, w);
    case EditProfile =>
      assert UserController.EditProfile(req, db.users, w, ModifiedPaths) == UserController.EditProfile(b, db.users, w, ModifiedPaths);
  }

  /** No table handler reads the `Authorization` header. */
  lemma TableHandlersIgnoreHeader(h: Handler, req: Request, db: Db, w: World)
    requires !(h.CreateUser? || h.LoginUser? || h.GetProfile? || h.EditProfile?)
    ensures Run(h, req, db, w) == Run(h, req.(authorization := None), db, w)
  {
    var b := req.(authorization := None);
    match h
    case GetAllTables =>
    case CreateTable => assert TableController.CreateTable(req, db.tables, w) == TableController.CreateTable(b, db.tables, w);
    case UpdateTable => assert TableController.UpdateTable(req, db.tables, w) == TableController.UpdateTable(b, db.tables, w);
    case DeleteTable => assert TableController.DeleteTable(req, db.tables, w) == TableController.DeleteTable(b, db.tables, w);
  }

  /** An unguarded route answers the same with or without an `Authorization` header. */
  lemma UnguardedIgnoresHeader(m: Match, req: Request, db: Db, w: World)
    requires !m.route.guarded
    ensures Serve(m, req, db, w) == Serve(m, req.(authorization := None), db, w)
  {
    var a := req.(params := m.params, user := None);
    assert req.(authorization := None).(params := m.params, user := None) == a.(authorization := None);
    var h := m.route.handler;
    if h.CreateUser? || h.LoginUser? || h.GetProfile? || h.EditProfile? {
      UserHandlersIgnoreHeader(m.route.handler, a, db, w);
    } else {
      TableHandlersIgnoreHeader(m.route.handler, a, db, w);
    }
  }

  /**
   * End to end: `GET /api/users/profile` with `"Bearer " + token`, the token
   * issued for a stored user, answers 200 with that user's profile and no password.
   */
  lemma ProfileWithIssuedToken(req: Request, db: Db, w: World, u: User)
    requires TokensRoundTrip(w.crypto) && w.fault.None?
    requires Store.UniqueKeys(db.users, IdOf) && u in db.users && Store.IsCanonicalId(u.id)
    requires req.authorization == Some(BearerPrefix + w.crypto.sign(u.id))
    ensures var x := Serve(Match(UserRoutes[2], map[]), req, db, w);
            x.db == db && x.status == OK
            && x.payload == UserPayload(UserController.Envelope(SimpleSuccess(OK, UserController.ProfileFetched,
                                                                              Some(UserController.WithoutPassword(ProfileOf(u))))))
  {
    var incoming := req.(params := map[], user := None);
    IssuedTokenAuthenticates(incoming, db.users, w, u);
    var j :| 0 <= j < |db.users| && db.users[j] == u;
    Store.UniqueFind(db.users, IdOf, j);
  }

  /**
   * Behind the auth stage the ownership check of `editProfile` never fires:
   * the principal carries the id of a stored user, and stored ids are in
   * the canonical form the check compares against.
   */
  lemma AuthenticatedEditNeverForbidden(req: Request, users: seq<User>, w: World, validation: SaveValidation)
    requires Store.CanonicalKeys(users, IdOf)
    requires Authenticate(req, users, w).Continue?
    ensures UserController.EditProfile(Authenticate(req, users, w).ctx, users, w, validation).outcome
            != Fail(FORBIDDEN, UserController.NotOwner)
  {
    var ctx := Authenticate(req, users, w).ctx;
    var subject := w.crypto.verify(Credential(req.authorization.value)).value;
    var u := Store.Lookup(users, IdOf, Store.CastId(subject).value).value;
    var j :| 0 <= j < |users| && users[j] == u;
    assert Store.IsCanonicalId(ctx.user.value.id);
    UserController.EditProfileForbiddenIff(ctx, users, w, validation);
  }
}
