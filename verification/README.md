# TakEat request pipeline in Dafny

A model of the shared request pipeline of the TakEat restaurant backend, an
Express and Mongoose service. The model covers these parts of the backend:

- pagination of list queries (`pagination`);
- the error classifier `HandleError` and the final `globalErrorHandler`
  middleware;
- the three JSON envelopes of `ApiResponse`;
- the bearer-token `authMiddleware`;
- the user and table schemas, with their validators and the password-hashing
  pre-save hook;
- the table controller and both user controllers, `src/user/userController.ts`
  and the validating variant `src/controllers/userController.ts`;
- the two routers and their mount points.

Every stage is a pure function. A request-handling stage returns an
`Outcome`:

- `Continue` carries an updated request (what `next()` does);
- `Fail` carries one HTTP error (what `next(createHttpError(...))` forwards);
- `Respond` carries a status and a JSON body.

A handler also returns the collection it leaves behind. A collection is a
sequence in storage's natural order, and `Store.ToMap` is the id-to-document
map it stands for. Everything outside the core is a parameter of the
`Collaborators.World` value:

- bcrypt and JWT;
- the clock and the object-id generator;
- the runtime mode and the stack trace;
- an exception storage may throw.

The modules follow the source's files:

| module | file |
|---|---|
| `Pagination`, `Query` | `utils/pagination.ts` |
| `ErrorHandling` | `handleError.ts` |
| `ErrorMiddleware` | `globalErrorHandler.ts` |
| `ApiResponse` | `ApiResponse.ts` |
| `Auth` | `auth.ts` |
| `UserModel` | `userModel.ts` |
| `TableTypes` | `tableTypes.ts` |
| `TableModel` | `tableModel.ts` |
| `TableController` | `tableController.ts` |
| `UserController` | `user/userController.ts` |
| `CheckedUserController` | `controllers/userController.ts` |
| `Routes` | the routers and `app.ts` |

`Text` holds the JavaScript string operations the pipeline uses. `Store`
holds storage and object-id casting. `Schema` holds Mongoose's
validation-error format.

## Model

| member | source | states |
|---|---|---|
| ErrorHandling.HandleError | src/utils/handleError.ts:5-13 | Always forwards one error, never a response. The status is 400 exactly when the thrown error is a `ValidationError`, and 500 for every other error. The message is the error's own when non-empty, else "Internal Server Error". |
| ErrorHandling.HandleErrorRange | src/utils/handleError.ts:8-11 | A corollary of HandleError's contract: the status is one of two codes and the message is never empty. |
| ErrorMiddleware.Raise | src/utils/handleError.ts:6-12 | A forwarded failure becomes an HttpError carrying the same status and message, plus the stack trace. |
| ErrorMiddleware.StatusOf | src/middlewares/globalErrorHandler.ts:14 | `statusCode \|\| 500`: an absent or zero status becomes 500; any other status is kept; the result is never 0. |
| ErrorMiddleware.GlobalErrorHandler | src/middlewares/globalErrorHandler.ts:8-23 | The HTTP status equals the envelope's statusCode, and both equal StatusOf. The message passes unchanged. The stack is exposed exactly in "development" mode. |
| ErrorMiddleware.FailureReachesClient | src/middlewares/globalErrorHandler.ts:14-22 | A stage failure with a non-zero status reaches the client with that status and message. The stack is present if and only if the mode is development. |
| ApiResponse.PagedSuccess | src/utils/ApiResponse.ts:37-53 | The paginated envelope stores its six arguments unchanged. `prev`/`next` are never checked against `total`. |
| ApiResponse.SimpleSuccess | src/utils/ApiResponse.ts:68-74 | The simple envelope stores status, message and data unchanged. |
| ApiResponse.ErrorResponse | src/utils/ApiResponse.ts:101-107 | The error envelope stores status, message and stack unchanged. |
| ApiResponse.OmittedDataIsNull | src/utils/ApiResponse.ts:37-107 | A constructor fact: omitted data (or stack) is null in all three envelopes. |
| ApiResponse.PagedSuccessInjective | src/utils/ApiResponse.ts:37-53 | A constructor fact: equal envelopes come from equal arguments. |
| Pagination.ParseInt | src/utils/pagination.ts:16-17 | Decimal `parseInt`. NaN exactly when no digit follows the leading `\s` and an optional sign. The result is non-negative without a `-`, and negative only with one. |
| Pagination.ParseIntDecimal | src/utils/pagination.ts:16-17 | Round trip: `parseInt` reads back every integer written in decimal, whatever non-digit text follows. |
| Pagination.ParseNegativeDecimal | src/utils/pagination.ts:16-17 | The negative half of the round trip: `parseInt` reads back `-` followed by the digits of a negative integer. |
| Pagination.OrDefault | src/utils/pagination.ts:16-17 | `parsed \|\| default`: NaN and 0 give the default; every other value is kept, negative values included. |
| Pagination.ParseQuery | src/utils/pagination.ts:16-17 | An absent query parameter parses as NaN; a present one as `parseInt` of its text. |
| Pagination.PageQueryRead | src/utils/pagination.ts:16-17 | A non-zero page and limit written in decimal are read back unchanged. |
| Pagination.DefaultsApply | src/utils/pagination.ts:16-17 | Absent, non-numeric and zero values give page 1 and limit 10. |
| Pagination.SkipBounds | src/utils/pagination.ts:18 | For a positive page and limit, the skip is exactly `page - 1` limits. It is non-negative and ends one limit short of `page * limit`. |
| Pagination.NextPage | src/utils/pagination.ts:29 | There is a next page exactly when `page * limit < total`, and it is `page + 1`. |
| Pagination.PrevPage | src/utils/pagination.ts:30 | There is a previous page exactly when `page > 1`, and it is `page - 1`. |
| Query.Select | src/utils/pagination.ts:23 | `find(filter)`: every result is in the collection and matches. Every matching document is kept. |
| Query.CountIsSelectLength | src/utils/pagination.ts:20-23 | `countDocuments(filter)` and `find(filter)` agree on how many documents match. |
| Query.InsertDesc | src/utils/pagination.ts:26 | Inserting into a newest-first sequence adds exactly that element and keeps the order. |
| Query.SortDesc | src/utils/pagination.ts:26 | `sort({ createdAt: -1 })` gives a permutation of the input that is newest first. |
| Query.SortedUnique | src/utils/pagination.ts:26 | Two newest-first permutations of the same documents are equal when their keys are distinct. |
| Query.Taken | src/utils/pagination.ts:25 | `limit(n)`: never more documents than are available. For a non-zero `n`, exactly the magnitude of `n` or all that are available, whichever is fewer. |
| Query.Window | src/utils/pagination.ts:24-25 | `skip(s).limit(n)` is rejected exactly for a negative skip. Otherwise it returns the documents from position `s` on, as many as `limit` takes. |
| Pagination.Ordered | src/utils/pagination.ts:22-26 | The matches, newest first: the same multiset as `find(filter)`, sorted by `createdAt` descending. |
| Pagination.Paginate | src/utils/pagination.ts:11-38 | Fails exactly on a negative skip. `total_count` is the number of matches. `data` is the skip/limit window of the newest-first matches: all are matches, newest first, at most `\|limit\|` of them. Both navigation numbers are stated as if-and-only-ifs. |
| Pagination.NegativePageKept | src/utils/pagination.ts:16-18 | A negative page is not defaulted, and with a positive limit the storage query is rejected. |
| Pagination.PastLastPage | src/utils/pagination.ts:18-29 | Past the last page the data is empty and there is no next page. |
| Pagination.TwentyFiveRows | src/utils/pagination.ts:16-30 | An example: page 1 of 10 over 25 matches gives total 25, next 2, no previous page and ten documents. |
| Pagination.PageIsWindow | src/utils/pagination.ts:18-25 | Page `p` of `limit`, asked for in decimal, is the window of the newest-first matches starting `p - 1` limits in. |
| Pagination.NewestFirstIsCanonical | src/utils/pagination.ts:26 | With distinct `createdAt` values, every arrangement storage may return for the sort is the one the model picks. |
| Pagination.PagesTile | src/utils/pagination.ts:16-26 | Pages 1 to `count`, read as separate queries, tile the first `count * limit` newest-first matches with none skipped or repeated. This holds whatever arrangement storage returns for each query, given distinct `createdAt` values. |
| Pagination.TiesMayRepeat | src/utils/pagination.ts:22-26 | With a tie, two one-document pages may show the same document twice and never the other. |
| Text.Trim | src/models/userModel.ts:15 | `trim`: the result is the slice of the input left after removing `\s` at both ends. What was removed is all `\s`, and what remains neither starts nor ends with `\s`. |
| Text.TrimIdempotent | src/models/userModel.ts:15 | Trimming twice is trimming once. |
| Text.TrimEmptyIff | src/models/userModel.ts:14-15 | Trimming leaves nothing exactly when every character is `\s`. This is what makes a blank username fail `required`. |
| Text.IndexOf | src/middlewares/auth.ts:21 | The first occurrence of a pattern; None exactly when there is none. |
| Text.ReplaceFirst | src/middlewares/auth.ts:21 | `replace` with a string pattern replaces only the first occurrence. Without an occurrence it returns the string unchanged. |
| Text.ReplaceFirstAt | src/middlewares/auth.ts:21 | Removing the first occurrence of `pat` from `a + pat + b` gives `a + b` when no occurrence starts inside `a`. |
| Text.Utf16Length | src/models/userModel.ts:8 | The length in UTF-16 code units that a non-unicode regex counts: between 1 and 2 per character. |
| Store.CastId | src/controllers/tableController.ts:46 | Object-id casting succeeds exactly for 24 hexadecimal digits. The cast id is their lower-case spelling. The cast returns its input exactly when the input is already canonical. |
| Store.Find | src/middlewares/auth.ts:24 | The first position holding the id; None exactly when no document has it. |
| Store.Lookup | src/middlewares/auth.ts:24 | `findById`: a stored document with that id, if any; None exactly when no document has it. |
| Store.LookupIsMapRead | src/middlewares/auth.ts:24 | Looking a document up by id is reading the abstract id map. |
| Store.UniqueFind | src/middlewares/auth.ts:24 | With unique ids, the document at a position is the one found by its id. |
| Store.Insert | src/controllers/tableController.ts:17-20 | A created document is appended and nothing else changes. |
| Store.InsertIsMapUpdate | src/controllers/tableController.ts:17-20 | Inserting a document with a new id is a map update, and ids stay unique. |
| Store.RemoveAt | src/controllers/tableController.ts:64 | Removing a position keeps every other document in order. |
| Store.RemoveIsMapRemoval | src/controllers/tableController.ts:64 | Removing the document with an id removes exactly that key from the map, and ids stay unique. |
| Store.ReplaceAt | src/controllers/tableController.ts:46-49 | Replacing a position changes only that position. |
| Store.ReplaceIsMapUpdate | src/controllers/tableController.ts:46-49 | Replacing a document by one with the same id is a map update. |
| Schema.Required | src/models/userModel.ts:14 | The `required` validator fails exactly for an absent or empty value. |
| Schema.Collect | src/models/userModel.ts:10-41 | At most one error per path check, and none exactly when every check passed. |
| Schema.CollectKeeps | src/models/userModel.ts:10-41 | Every failing path is reported. |
| Schema.AsThrown | src/models/userModel.ts:57 | A schema rejection throws a `ValidationError` carrying the Mongoose message. |
| UserModel.EmailCheckIsPattern | src/models/userModel.ts:5 | The e-mail check accepts exactly the strings `/^[^\s@]+@[^\s@]+\.[^\s@]+$/` matches. The regex is written as an independent existential definition. |
| UserModel.EmailCheckSound | src/models/userModel.ts:5 | Every accepted address splits as the pattern requires. |
| UserModel.EmailCheckComplete | src/models/userModel.ts:5 | Every string the pattern matches is accepted. |
| UserModel.ValidEmailHasOneAt | src/models/userModel.ts:5 | A valid address has exactly one `@`. |
| UserModel.LongPasswordRejected | src/models/userModel.ts:8 | Anything over 15 UTF-16 code units fails the password pattern, a bcrypt hash included. |
| UserModel.ParseRole | src/models/userModel.ts:31-38 | The role enum accepts exactly "user" and "admin". |
| UserModel.RoleNameRoundTrip | src/models/userModel.ts:31-38 | A constructor fact: role names round-trip. |
| UserModel.ProfileOf | src/user/userController.ts:88 | `select('-password')` keeps every field but the password. |
| UserModel.FindByEmail | src/user/userController.ts:19 | `findOne({ email })` returns the first stored user with that e-mail. It returns None exactly when there is none, or when the e-mail is absent. |
| UserModel.UsernameCheck | src/models/userModel.ts:12-16 | The username passes exactly when it is present and not blank once trimmed. |
| UserModel.EmailCheck | src/models/userModel.ts:17-22 | The e-mail passes exactly when it is present, non-empty and valid. |
| UserModel.PasswordCheck | src/models/userModel.ts:23-30 | The password passes exactly when it is present, non-empty and valid. |
| UserModel.ValidateNew | src/models/userModel.ts:10-41 | A new document validates exactly when all three checks pass, and then carries the trimmed username. A rejection names the User model and at least one path. |
| UserModel.PreSave | src/models/userModel.ts:46-55 | A modified password is replaced by its hash; an unmodified one is kept. |
| UserModel.Create | src/user/userController.ts:28 | Validation comes first. A valid document whose id and e-mail are unused is stored, with its password hashed once and the default role; a valid document with a taken id or e-mail is a duplicate-key error. |
| UserModel.SaveUsername | src/user/userController.ts:151-153 | `save()` after a rename. The save succeeds exactly when the trimmed username is non-blank and, when every path is validated, the stored e-mail and password are valid. It then changes only the username and `updatedAt`, and stamps `updatedAt` only when the trimmed name differs from the stored one. Saving the stored name changes nothing. |
| UserModel.SaveRejectsStoredHash | src/user/userController.ts:151-153 | Validating every path, the save of a user whose stored password is longer than 15 code units fails on the password path. |
| UserModel.SaveModifiedOnlyRenames | src/user/userController.ts:151-153 | Validating the modified path only, every non-blank username is saved. |
| TableTypes.ParseStatus | src/types/tableTypes.ts:1 | The only statuses are "available" and "occupied". |
| TableTypes.StatusNameRoundTrip | src/types/tableTypes.ts:1 | A constructor fact: status names round-trip. |
| TableModel.CastStatus | src/models/tableModel.ts:10-16 | An absent status defaults to "available". A present one is accepted exactly when it is one of the two names. |
| TableModel.ValidateNew | src/models/tableModel.ts:4-19 | A new table validates exactly when its name is non-empty and its status, if any, is one of the two. |
| TableModel.Create | src/controllers/tableController.ts:17-20 | An invalid table is a ValidationError. A valid table is inserted under the fresh id with both timestamps exactly when that id is unused; a taken id is a duplicate-key error. |
| TableModel.UpdateOf | src/controllers/tableController.ts:43 | The update keeps only the schema paths the body names. |
| TableModel.ValidateUpdate | src/controllers/tableController.ts:46-49 | `runValidators` checks only the supplied paths: a supplied name must be non-empty, and a supplied status one of the two names. |
| TableModel.ApplyUpdate | src/controllers/tableController.ts:46-49 | Each supplied field replaces the stored one and every other field is kept. The id and `createdAt` are kept and `updatedAt` is stamped. |
| TableController.FindByName | src/controllers/tableController.ts:13 | `findOne({ tablename })`: the first table with that name, None exactly when there is none. |
| TableController.CreateTable | src/controllers/tableController.ts:6-26 | A missing name gives 400 before storage is touched; a storage error gives 500; a taken name 400; a bad status or taken id 500. A new name with a valid status and an unused id answers 201 and inserts exactly one document with the fresh id and the cast status. Every failure leaves the tables unchanged. |
| TableController.CreateTableIsMapUpdate | src/controllers/tableController.ts:17-22 | A successful create is a map update under the fresh id with the requested name. |
| TableController.CreateTableKeepsNamesUnique | src/controllers/tableController.ts:13-20 | Table names stay unique across creates. |
| TableController.CreateSameNameTwice | src/controllers/tableController.ts:13-16 | Creating the same name again is 400 "Table already exists" and changes nothing. |
| TableController.GetAllTables | src/controllers/tableController.ts:28-39 | Answers 200 with every table exactly when storage answers; 500 otherwise. |
| TableController.FindTable | src/controllers/tableController.ts:46 | The table that the route id names once cast. A missing or uncastable id names none. |
| TableController.UpdateTable | src/controllers/tableController.ts:41-59 | Answers 500 for an uncastable id, a rejected update or a storage error, even when no table exists; 404 for an unknown id. A known id with a valid update answers 200 and stores the merged document in place; every failure leaves the tables unchanged. |
| TableController.UpdateTableFrame | src/controllers/tableController.ts:46-55 | A successful update changes only the named table. In it, only the supplied fields and `updatedAt` change. |
| TableController.DeleteTable | src/controllers/tableController.ts:61-72 | Answers 500 for an uncastable id or a storage error, and 404 for an unknown id. A known id answers 200 and removes exactly that table; every failure leaves the tables unchanged. |
| TableController.DeleteTableTwice | src/controllers/tableController.ts:64-67 | A delete removes exactly the id from the map, so deleting it again is 404. |
| Auth.Credential | src/middlewares/auth.ts:21 | A header without "Bearer " is unchanged. A header with one loses exactly the length of one "Bearer ". |
| Auth.CredentialOfBearer | src/middlewares/auth.ts:21 | `"Bearer " + token` yields the token. |
| Auth.CredentialRemovesFirstOccurrence | src/middlewares/auth.ts:21 | `before + "Bearer " + after`, with no earlier occurrence, yields `before + after`: the first occurrence is removed wherever it is, not only at the front. |
| Auth.PrincipalOf | src/middlewares/auth.ts:29 | The attached principal is the user's id and role name. |
| Auth.Authenticate | src/middlewares/auth.ts:11-34 | An absent or empty header gives 401 "Access denied". A token that fails verification gives 401 "Invalid token". The stage continues only with the principal of the stored user the verified subject names once cast. Every failure is one of those two 401s or 404 "User Not found". |
| Auth.AuthFailureKinds | src/middlewares/auth.ts:24-33 | A failure is 404 exactly when the token verified, its subject casts, storage answered and no user has that id; otherwise it is 401. |
| Auth.LookupFaultIsInvalidToken | src/middlewares/auth.ts:31-33 | A storage exception during the lookup is reported as 401 "Invalid token". |
| Auth.IssuedTokenAuthenticates | src/middlewares/auth.ts:16-30 | Round trip through the middleware: a token signed for a stored user, sent as `"Bearer " + token`, authenticates as that user. |
| UserController.Registered | src/user/userController.ts:28 | The registered document has the fresh id, the trimmed username, the hashed password, the default role and equal timestamps. |
| UserController.CreateUser | src/user/userController.ts:15-41 | The handler checks, in order: a storage error goes through HandleError; a taken e-mail gives 400; a schema rejection gives 400 with Mongoose's message; a taken id goes through HandleError as a duplicate-key error. Valid input with an unused e-mail and id answers 201 and inserts exactly the registered document. Every failure leaves the users as they were. |
| UserController.CreateUserIsMapUpdate | src/user/userController.ts:28 | A registration keeps ids and e-mails unique and adds exactly the new user to the id map. |
| UserController.RegisterTwiceRejected | src/user/userController.ts:19-27 | Registering the same e-mail again is 400 "User already exists with this email" and changes nothing. |
| UserController.LoginUser | src/user/userController.ts:46-69 | The handler checks, in order: a storage error goes through HandleError; an unknown e-mail gives 404; a missing password gives 500 (bcrypt throws); a wrong one 400. A matching password answers 200 with a token signed for that user's id, and only then. |
| UserController.RegisterThenLogin | src/user/userController.ts:46-65 | Logging in with the e-mail and password just registered succeeds with a token for the new id. |
| UserController.GetProfile | src/user/userController.ts:74-106 | No principal gives 500. An uncastable id gives a CastError through HandleError, a storage error goes through HandleError, and an unknown id gives 404. Otherwise it answers 200 with the user's profile without password. |
| UserController.CallerRecord | src/user/userController.ts:135 | `findById(userId)` loads the document whose id is the caller's id once cast. |
| UserController.EditProfile | src/user/userController.ts:111-167 | The handler checks, in order: 401, 400, CastError, storage error, 404, 403 when the id differs from the stored one as a string, then a save rejection as 400. Once those checks pass, the edit answers 200 with the renamed document and stores it exactly when the save validates: under the default `AllPaths` save, that means a non-blank trimmed name plus a stored e-mail and password that are themselves valid. Only that document changes. |
| UserController.EditProfileForbiddenIff | src/user/userController.ts:142-149 | The 403 fires exactly for a caller id that names a stored user only once cast, i.e. 24 hex digits not all lower-case. |
| UserController.BlankUsernameRejectedOnSave | src/user/userController.ts:125-153 | A white-space username passes the handler's check and is rejected with 400 by the schema on save. |
| UserController.EditProfileRejectsStoredHash | src/user/userController.ts:151-153 | As written, saving with every path validated rejects a stored password longer than 15 code units. The rename gets 400 with the schema's password message. |
| UserController.RegisteredUserCannotRename | src/user/userController.ts:135-153 | As written, a newly registered user whose hash is longer than 15 code units cannot rename themselves. |
| UserController.EditProfileRenames | src/user/userController.ts:151-163 | Corrected: with only the modified path validated, the owner's rename answers 200 and stores the renamed document. |
| UserController.EditProfileSameNameKeepsStore | src/models/userModel.ts:40 | The timestamps option stamps only a modified document, so renaming a user to the name they already have answers 200 with the stored document and leaves the store unchanged. |
| UserController.EditProfileFrame | src/user/userController.ts:151-163 | A successful edit changes only the caller's username and `updatedAt`, and the store stays well formed. |
| CheckedUserController.Precheck | src/controllers/userController.ts:18-37 | The pre-checks run in order: all fields present, then e-mail format, then password format, each with its own 400 message. |
| CheckedUserController.CreateUserAsWritten | src/controllers/userController.ts:15-73 | As written: a failed pre-check gives 400, a storage error 500, and a known e-mail 400 "User already exists with this email", each leaving the store unchanged. For a new e-mail, the request answers 201 and stores the registered user built from the hash exactly when the schema accepts that hash and the fresh id is unused. Otherwise it answers 500. |
| CheckedUserController.CreateUserAsWrittenAlwaysFails | src/controllers/userController.ts:50-55 | As written, a registration that passes every check fails with 500 "Error while creating user" once the hash exceeds 15 code units. |
| CheckedUserController.CreateUserAsWrittenHashesTwice | src/controllers/userController.ts:50-55 | As written, a registration that did succeed would store the hash of the hash. |
| CheckedUserController.CreateUser | src/controllers/userController.ts:15-73 | Corrected: the same checks. After them, a schema rejection or a taken id gives 500. Valid input with an unused e-mail and id answers 201 and inserts the registered document with the password hashed once. |
| CheckedUserController.CreateUserSucceeds | src/controllers/userController.ts:39-64 | Corrected: when the checks agree with the schema and the e-mail and id are new, registration succeeds and stores the single hash. |
| CheckedUserController.LoginUser | src/controllers/userController.ts:78-112 | Missing fields give 400. A storage error gives 500, an unknown e-mail 404 and a wrong password 400. A matching password answers 200 with a token for that user's id, and only then. |
| CheckedUserController.RegisterThenLogin | src/controllers/userController.ts:78-103 | Logging in with the credentials just registered succeeds. |
| CheckedUserController.GetProfile | src/controllers/userController.ts:117-154 | Like the other variant, but every exception is 500 "Error while fetching user profile". It answers HTTP 200 with an envelope whose statusCode says 201. |
| CheckedUserController.GetProfileVariantsDiffer | src/controllers/userController.ts:137-145 | The two getProfile variants answer alike except for the envelope's statusCode. |
| CheckedUserController.EditProfile | src/controllers/userController.ts:159-220 | The same checks as the other variant; every exception, a save rejection included, is 500 "Error while updating username". Once the checks pass, the edit answers 200 with the renamed document exactly when the save validates, under `AllPaths` as under `ModifiedPaths`. |
| CheckedUserController.EditProfileRejectsStoredHash | src/controllers/userController.ts:199-219 | As written, the rename of a user with a stored hash longer than 15 code units answers 500. |
| CheckedUserController.EditProfileRenames | src/controllers/userController.ts:199-211 | Corrected: with only the modified path validated, the owner's rename answers 200. |
| CheckedUserController.EditProfileVariantsAgree | src/controllers/userController.ts:159-220 | Both editProfile variants make the same store transition and the same successful response. |
| Routes.OnlyProfileRoutesGuarded | src/user/userRouter.ts:56-200 | Exactly the two `/profile` routes pass through the auth stage, and no table route does. |
| Routes.Below | src/app.ts:70-71 | A path is under a mount prefix exactly when it equals the prefix or continues with `/`. The rest is then what follows, `/` when nothing is left. |
| Routes.MatchPath | src/router/tableRouter.ts:73 | `/:id` binds one non-empty segment; a literal pattern matches only itself. |
| Routes.FirstMatch | src/user/userRouter.ts:56-200 | A route of the list whose method matches and whose pattern matches the path, with the parameters it binds; None exactly when no route matches. |
| Routes.Dispatch | src/app.ts:70-71 | A matched route belongs to the router of the prefix the path is under. |
| Routes.DispatchUserRoutes | src/user/userRouter.ts:56-200 | The four user routes are reached at their paths; DELETE on `/profile` is not. |
| Routes.DispatchTableRoutes | src/router/tableRouter.ts:11-108 | The four table routes are reached, with the id bound for the `/:id` routes. |
| Routes.Finish | src/app.ts:74 | A response is sent as it is. A failure goes to the global error handler with its status and message. The collections are untouched either way. |
| Routes.Run | src/app.ts:70-71 | A user handler leaves the tables alone, and a table handler leaves the users alone. |
| Routes.Serve | src/user/userRouter.ts:147-200 | The client cannot set the principal. An unguarded route runs its handler directly. A guarded route runs it only when the auth stage continues; otherwise it answers the auth failure and changes nothing. |
| Routes.MissingHeaderStopsAtAuth | src/middlewares/auth.ts:16-18 | A `/profile` request without a header is answered 401 "Access denied" and changes nothing. |
| Routes.UnguardedIgnoresHeader | src/router/tableRouter.ts:11-108 | An unguarded route answers the same with or without an Authorization header. |
| Routes.ProfileWithIssuedToken | src/user/userRouter.ts:147 | End to end: `GET /api/users/profile` with a token issued for a stored user answers 200 with that user's profile. |
| Routes.AuthenticatedEditNeverForbidden | src/user/userController.ts:141-149 | Behind the auth stage the ownership check never fires, because stored ids are canonical. |

## Left out

- Everything outside the core is not part of this model:
  - `src/utils/token.ts` (JWT) and bcrypt are `Collaborators.Crypto` functions. `sign` and `hash` are total and never throw.
  - `src/utils/validation.ts` is `Collaborators.Validators`.
  - The clock, the id generator, the runtime mode and the stack trace are fields of `World`.
- `src/user/userModel.ts` and `src/router/userRouter.ts` are not part of this model. `src/user/userController.ts` imports `./userModel`, and `src/app.ts` mounts `./router/userRouter`. The model takes them to be `src/models/userModel.ts` and `src/user/userRouter.ts`.
- Concurrency between requests, logging, CORS, helmet and Swagger are left out; every request runs alone on the collections it is given.
- Collaborators.World: a storage exception is one `fault` value. It is thrown by the first storage call a handler makes, so a failure between two calls (e.g. after `findOne` succeeded, during `create`) appears only as the insert's duplicate-key error.
- Store.DuplicateKey: every unique-index violation throws one fixed `MongoServerError` message. The real message names the index and the key.
- Http.Request: the body, params and query are `map<string, string>`. JSON numbers, booleans, `null`, arrays and objects in a body are not modelled: `tablename: 5` is truthy in the source and absent here. An array-valued query parameter is not modelled either.
- Pagination.ParseInt: `parseInt` yields a double. Precision past 2^53 is not modelled, nor is `page * limit` computed in floating point, nor the `0x` hexadecimal prefix or an `Infinity`-sized digit string. The model reads exact decimal integers.
- Pagination.Paginate: when several matches share a `createdAt`, storage may order them differently on each query. `Paginate` fixes one newest-first arrangement, the one `Query.SortDesc` builds. `Pagination.PagesTile` states tiling over any per-query arrangement, and only for distinct `createdAt` values. `Pagination.TiesMayRepeat` shows why.
- Store.CastId: a 12-character string, which Mongoose can also cast to an object id, is treated as uncastable. Only the 24-hex-digit form is modelled.
- Auth.Authenticate: JWT expiry, the signing secret and the token's other claims are inside the `verify` parameter. Only the subject is modelled.
- TableModel.UpdateOf: an update body's `_id`, timestamps and unknown fields are dropped, as strict mode does. Update operators (`$set`, `$inc`, …) in a body are not modelled.
- Routes.Dispatch: Express matches paths case-insensitively, accepts a trailing slash and URL-decodes parameters. The model matches the exact path, so `/api/users/profile/` finds no route. A request that matches no route (Express's 404 page) is `None`.
- Routes.Run: the pipeline runs `editProfile` with the corrected save, which validates only the modified path. As written, the save validates every path; that behaviour is `UserModel.SaveUsername` with `AllPaths`, recorded under Findings.
- ErrorHandling.HandleError: `src/constants` is not part of this model. The `MONGOOSE_VALIDATION_ERROR` constant that `handleError.ts` compares `error.name` against is taken to be Mongoose's validation-error name, "ValidationError" (`Schema.ValidationErrorName`). Every 400 that HandleError produces rests on that value. The `HttpStatusCodes` from the same file are taken to be the standard codes (400, 401, 403, 404, 500, 200, 201).
- UserModel.FindByEmail: `findOne({ email })` with an absent e-mail is taken to match no document. A query layer that drops `undefined` conditions would run `findOne({})` and return the first user. The two callers below say what changes.
- UserController.CreateUser: a body without `email` queries `findOne({ email: undefined })`. The model treats that query as matching no document. A query layer that drops `undefined` conditions would return the first user instead, and the handler would answer 400 "User already exists with this email" for a non-empty collection.
- UserController.LoginUser: likewise, a body without `email` answers 404 here. With `undefined` conditions dropped, the source would compare the password against the first stored user's hash.
- UserModel.SaveUsername: `save()` is modelled for the rename only, validating either every path of the loaded document (Mongoose's default) or only the modified one. Other document mutations are not modelled.
- `ApiResponse`: the envelopes are data only. JSON serialisation of `null`, `undefined` and documents is not modelled.

## Findings

| source | as written | input that shows it | evidently intended | confidence | as-written member | corrected member |
|---|---|---|---|---|---|---|
| src/controllers/userController.ts:50-55 | `createUser` hashes the password, then passes the hash to `UserModel.create`. The schema validates that 60-character hash against the 8-15 character password pattern, and the pre-save hook would hash it again. | Any registration that passes the pre-checks, e.g. username "ann", e-mail "a@b.co", password "abc1234!": `create` rejects the hash and the handler answers 500 "Error while creating user". | Pass the plain password to `create` and let the pre-save hook hash it once. | not executed | CheckedUserController.CreateUserAsWrittenAlwaysFails | CheckedUserController.CreateUserSucceeds |
| src/user/userController.ts:151-153 | `user.save()` after `user.username = username` validates every loaded path by default, including the stored password. That is a bcrypt hash, which fails the password pattern. | A registered user sends `PATCH /api/users/profile` with username "bob". The save fails on the password path, and the handler answers 400 "User validation failed: password: …". | Validate only the modified path, so the owner can rename. | not executed | UserController.EditProfileRejectsStoredHash | UserController.EditProfileRenames |
| src/controllers/userController.ts:199-201 | The same `user.save()` in the validating variant fails the same way. Its catch turns the failure into 500. | The same request as the previous row answers 500 "Error while updating username". | Validate only the modified path. | not executed | CheckedUserController.EditProfileRejectsStoredHash | CheckedUserController.EditProfileRenames |
