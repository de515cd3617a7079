# Session lifecycle of the Project-Management-System backend, in Dafny

This project models the part of the Express/Sequelize backend that has
behaviour of its own: the authentication and session lifecycle of the user
controller, the `verifyJWT` gate in front of the protected routes, the User
model's password hook and token methods, and the status rules of the task
controller.

- `wrappers.dfy` (`Wrappers`): `Option` and `Result`.
- `http.dfy` (`Http`): JavaScript truthiness of request fields (`Present`) and
  the two failure shapes: an `ApiError(status, message)` thrown by a handler, or
  an `Unhandled` fault (a `TypeError`, a jwt.verify error, an ORM validation or
  unique-constraint error) that asyncHandler passes to Express's default error
  handler.
- `crypto.dfy` (`Crypto`): jwt.sign, jwt.verify, bcrypt.hash, bcrypt.compare
  and the ORM's `isEmail` validator as uninterpreted functions held in an `Env`,
  together with the four secrets and expiries. `HashSound(env)` states that
  bcrypt accepts a password against its own hash. Lemmas that need this take it
  as a hypothesis.
- `js_string.dfy` (`JsString`): `toLowerCase` on ASCII letters, `indexOf`, and
  `replace` with a string pattern, which replaces the first occurrence only.
- `user_model.dfy` (`UserModel`): the User row and its null defaults. It has the
  `beforeCreate` hook as a method that rewrites a pending instance's password in
  place. It also has `comparePassword` and the two token generators as pure
  functions of the row.
- `user_controller.dfy` (`UserController`): one specification function per
  handler, from the table before the request to the table after it and the
  handler's outcome. The class `UserStore` holds the table (`map<int, User>`
  plus the auto-increment counter). Its methods run the handler's steps in
  place and are proved equal to those functions. Each method keeps the table
  invariant `ValidDb`: usernames and emails are unique, keys lie below the
  counter, and usernames are stored lower-cased.
- `session_properties.dfy` (`SessionProperties`): properties that span
  requests. These cover rotation, the single active refresh token, logout,
  register then login, login then refresh, and the alice scenario:
  register → login (rt1) → refresh with rt1 (rt2) → refresh with rt1 again,
  which is refused.
- `auth_middleware.dfy` (`AuthMiddleware`): token extraction (cookie, else the
  `Authorization` header without its first `"Bearer "`). The gate's decision is
  the function `Authenticate`. The gate itself, `VerifyJWT`, is a method that
  sets `req.user` and counts hand-overs to the next handler on a `Request`
  object and only reads the users table.
- `task_model.dfy`, `task_controller.dfy` (`TaskModel`, `TaskController`): the
  status ENUM and the three-literal status check. The check order of
  `createTask`, `updateTask` and `toggleTaskStatus` is modelled, as is the
  toggle transition. These run on a tasks table (`TaskStore`) whose invariant
  is that every stored status is one of the ENUM values.

The clock and bcrypt's salt are explicit inputs (`now`, `salt`). Tokens are
signed at `now`, so a refresh can issue a token different from the one it
replaces. The rotation properties are stated for that case.

The model follows the code as written where it departs from the behaviour one
would expect of such a service (an OR duplicate lookup, 401/404/409 status
codes, trimmed fields):

- Every user-controller error is a 400, including "User not found" and
  "Invalid password". There are no 401, 404 or 409 answers.
- Registration does not trim the fields.
- The duplicate check of `registerUser` passes an array of two conditions to
  the ORM, which joins them with AND. It also compares the username as sent,
  while the row stores it lower-cased. A clash on the email alone passes the
  check. The model compares strings exactly (case-sensitively). Under that
  comparison a clash on the username in another case passes the check too.
  MySQL's default collation, which the source does not override
  (src/db/index.db.js:11), compares case-insensitively and would catch that
  case. A clash that passes the check makes the insert fail on the database's
  unique constraint, so nothing is written, but the error is not the 400
  (`DuplicateMissedByLookupStillRefused`,
  `MixedCaseUsernameNeverMatchesLookup`).
- `getCurrentUser` answers 200 with whatever is attached to the request. The
  route that would call it is registered without a handler
  (src/routes/user.routes.js:24).

## Model

| member | source | states |
|---|---|---|
| `JsString.ToLower` | src/controllers/user.controller.js:53 | the result has the input's length and each character lower-cased (ASCII letters) |
| `JsString.ToLowerIdempotent` | src/controllers/user.controller.js:53 | lower-casing a lower-cased string changes nothing, so stored usernames are fixed points |
| `JsString.IndexOf` | src/middlewares/auth.middleware.js:10 | the result is the first index where the pattern occurs, and `None` exactly when it occurs nowhere |
| `JsString.ReplaceFirst` | src/middlewares/auth.middleware.js:10 | a string in which the pattern does not occur is returned unchanged; otherwise the first occurrence is replaced and everything before and after it is kept |
| `JsString.ReplaceFirstAtIndexOf` | src/middlewares/auth.middleware.js:10 | the replacement happens at the index `indexOf` reports, and nowhere when it reports none |
| `JsString.ReplaceLeading` | src/middlewares/auth.middleware.js:10 | removing a leading occurrence of the pattern leaves exactly what followed it |
| `UserModel.NewUser` | src/models/user.model.js:36-46 | a new row has both `accessToken` and `refreshToken` null and carries the given username, email and password hash |
| `UserModel.PendingUser.BeforeCreate` | src/models/user.model.js:50-55 | a truthy password is replaced in place by its bcrypt hash at cost 10; an absent or empty one is left alone; username and email are untouched |
| `UserModel.PublicView` | src/controllers/user.controller.js:58-62 | the row read with `password` and `refreshToken` excluded keeps its id, username and email; the result type has no place for the two secrets |
| `UserModel.ComparePassword` | src/models/user.model.js:61-63 | if bcrypt is sound, a candidate whose hash (at cost 10, any salt) is the stored password is accepted |
| `UserModel.HashedPasswordVerifies` | src/models/user.model.js:50-63 | if bcrypt is sound, `comparePassword` accepts the original password against the hash stored at creation |
| `UserModel.AccessClaims` | src/models/user.model.js:70-79 | the access-token payload is exactly the id, the username and the email |
| `UserModel.RefreshClaims` | src/models/user.model.js:82-91 | the refresh-token payload is the id and the username, with no email |
| `UserModel.GenerateAccessToken` | src/models/user.model.js:70-79 | the token is jwt.sign of {id, username, email} with the access secret and the access expiry, at `now` |
| `UserModel.GenerateRefreshToken` | src/models/user.model.js:82-91 | the token is jwt.sign of {id, username} with the refresh secret and the refresh expiry, at `now` |
| `UserModel.TokensReadIdentityOnly` | src/models/user.model.js:70-91 | token generation reads only identity fields: rows agreeing on username (and, for access tokens, email) get the same tokens whatever their password and token columns hold |
| `UserModel.AccessAndRefreshClaimsDiffer` | src/models/user.model.js:70-91 | no access-token payload equals a refresh-token payload |
| `UserController.ExistsWithEmailAndUsername` | src/controllers/user.controller.js:46 | a hit means the insert would clash and that both the email and the username are in their columns; with no row holding the username, or no row holding the email, there is no hit (the two conditions are joined with AND) |
| `UserController.Taken` | src/models/user.model.js:16-29 | the username is already in the username column or the email in the email column |
| `UserController.InsertUniqueIffNotTaken` | src/models/user.model.js:16-29 | inserting a row at a fresh key keeps both unique constraints exactly when its username and email are not taken |
| `UserController.FindByEmail` | src/controllers/user.controller.js:85-88 | a found row has the email, and `None` exactly when no row has it |
| `UserController.SetRefreshToken` | src/controllers/user.controller.js:16-19 | only the refresh-token column of row `id` changes; every other row and the key set are unchanged |
| `UserController.IssueTokens` | src/controllers/user.controller.js:6-28 | for a missing row nothing is written and no tokens come back; otherwise both tokens are signed from the row at `now` and the stored refresh token is the one returned, nothing else changing |
| `UserController.RegisterUserSpec` | src/controllers/user.controller.js:40-72 | any missing field is a 400 (and only then); with all fields present, a lookup hit is the "User already exists" 400 (and only then), then an invalid email is the ORM's validation error, then a taken username or email is the unique-constraint error; it succeeds exactly when none of these applies; every failure leaves the table unchanged; success inserts exactly one row at the next key with the username lower-cased, the email unchanged, the password hashed and null tokens, and answers 201 without password or refresh token |
| `UserController.LoginSpec` | src/controllers/user.controller.js:79-115 | missing fields, then unknown email, then wrong password, each a 400 with the table unchanged; it succeeds exactly when both fields are present, a row has the email and its password matches; success stores the issued refresh token on the matched row only, sets the same pair as cookies and answers 200 with that row minus its secrets |
| `UserController.RefreshAccessTokenSpec` | src/controllers/user.controller.js:148-180 | no token is a 400; a jwt.verify error is an unhandled fault (and only then); no user for the token's id, or a token different from the stored one, is a 400; every failure leaves the table unchanged; it succeeds exactly when the token is present, verifies, names a row and equals its stored refresh token; success rotates: the stored refresh token becomes the one set as cookie, nothing else changes |
| `UserController.LogoutSpec` | src/controllers/user.controller.js:121-141 | the user's refresh token becomes null, every other row and column is unchanged, and the reply clears both cookies |
| `UserController.GetCurrentUser` | src/controllers/user.controller.js:184-192 | answers 200 with exactly the user attached to the request |
| `UserController.SetRefreshTokenKeepsValid` | src/models/user.model.js:16-34 | rewriting a refresh token keeps usernames and emails unique and lower-cased usernames |
| `UserController.RegisterKeepsValid` | src/controllers/user.controller.js:46-56 | registration keeps usernames and emails unique, keys below the counter and usernames lower-cased |
| `UserController.UserStore.constructor` | src/models/user.model.js:10-14 | the table starts empty with the auto-increment counter at 1 |
| `UserController.UserStore.GenerateAccessAndRefreshTokens` | src/controllers/user.controller.js:6-28 | the in-place update and returned pair equal `IssueTokens`; the invariant is kept |
| `UserController.UserStore.RegisterUser` | src/controllers/user.controller.js:30-74 | the in-place insert and the reply equal `RegisterUserSpec`, running the hook on a pending instance; the invariant is kept |
| `UserController.UserStore.Login` | src/controllers/user.controller.js:76-117 | the in-place update and the reply equal `LoginSpec`; the invariant is kept |
| `UserController.UserStore.RefreshAccessToken` | src/controllers/user.controller.js:146-181 | the in-place update and the reply equal `RefreshAccessTokenSpec`; the invariant is kept |
| `UserController.UserStore.LogoutUser` | src/controllers/user.controller.js:119-143 | the in-place update and the reply equal `LogoutSpec`; the invariant is kept |
| `SessionProperties.SupersededRefreshTokenRejected` | src/controllers/user.controller.js:154-172 | after a refresh that issued a new token, presenting the superseded token fails and writes nothing: as "Invalid refresh token" while jwt.verify still accepts it, as jwt.verify's escaping error once it has expired |
| `SessionProperties.LoginSupersedesEarlierTokens` | src/controllers/user.controller.js:12-22 | after a login, any refresh token for that user other than the one just issued is refused |
| `SessionProperties.RefreshFailsAfterLogout` | src/controllers/user.controller.js:121-128 | after logout, every later refresh with a token for that user fails (the comparison at line 162 sees null) and writes nothing |
| `SessionProperties.LogoutIdempotent` | src/controllers/user.controller.js:121-128 | logging out twice gives the same table and reply as logging out once |
| `SessionProperties.HandlersKeepValid` | src/models/user.model.js:16-34 | login, refresh and logout keep the table invariant |
| `SessionProperties.RegisterThenLogin` | src/controllers/user.controller.js:52-94 | if bcrypt is sound, a user who just registered can log in with the same email and password, and the login resolves to the new row |
| `SessionProperties.LoginThenRefresh` | src/controllers/user.controller.js:146-177 | the refresh token set by a login is accepted by the next refresh, provided jwt.verify accepts it at that refresh's time |
| `SessionProperties.MixedCaseUsernameNeverMatchesLookup` | src/controllers/user.controller.js:46-53 | the duplicate lookup never matches a username with upper-case letters, since stored usernames are lower-cased |
| `SessionProperties.ReRegistrationRefused` | src/controllers/user.controller.js:46-50 | sending an existing row's exact username and email again, with any password, gives "User already exists" and writes nothing |
| `SessionProperties.DuplicateMissedByLookupStillRefused` | src/controllers/user.controller.js:46-56 | a clash the lookup misses still inserts nothing; the ORM refuses it instead of the 400 |
| `SessionProperties.AliceScenario` | src/controllers/user.controller.js:30-181 | register alice, log in (rt1), refresh with rt1 (rt2): both succeed, and a second refresh with rt1 fails and writes nothing, as "Invalid refresh token" while jwt.verify still accepts rt1 |
| `AuthMiddleware.ExtractToken` | src/middlewares/auth.middleware.js:10 | a truthy cookie is the token; otherwise the header decides whether there is one: a header without "Bearer " is used unchanged, and otherwise its first "Bearer " is cut out, the text around it kept |
| `AuthMiddleware.BearerHeaderYieldsToken` | src/middlewares/auth.middleware.js:10 | with no usable cookie, `Authorization: Bearer X` yields exactly `X` |
| `AuthMiddleware.HeaderWithoutBearerUnchanged` | src/middlewares/auth.middleware.js:10 | with no usable cookie, a header in which "Bearer " never occurs is the token as is |
| `AuthMiddleware.Authenticate` | src/middlewares/auth.middleware.js:10-35 | every failure is a 401; no token gives "Unauthorized request"; success happens exactly when a token is found, verifies with the access secret and names an existing row, and yields that row without password or refresh token |
| `AuthMiddleware.VerifyJWT` | src/middlewares/auth.middleware.js:7-38 | on success `req.user` is the token subject's row and the request is handed on to the next handler exactly once; on failure the 401 is returned as the error asyncHandler passes to `next(err)`, `req.user` is untouched and the next handler is not invoked; the users table is unchanged |
| `AuthMiddleware.CurrentUserIsTokenSubject` | src/middlewares/auth.middleware.js:21-32 | behind the gate, `getCurrentUser` answers with the row whose id is the access token's id |
| `TaskController.IsValidStatus` | src/controllers/task.controller.js:16-18 | the controllers' three-literal test (also at lines 82-84 and 133-135) accepts exactly the values of the ENUM declared at src/models/task.model.js:25 |
| `TaskController.ToggledStatus` | src/controllers/task.controller.js:141 | the result is a valid status, never "Done", and is "In Progress" exactly when the stored status was "To Do" |
| `TaskController.ToggleTwice` | src/controllers/task.controller.js:141 | toggling twice restores "To Do" and "In Progress"; from "Done" it ends at "In Progress" |
| `TaskController.CreateTaskCheck` | src/controllers/task.controller.js:12-22 | a missing title, status or project id is reported before an invalid status; it passes exactly when all are present and the status is valid |
| `TaskController.UpdateTaskCheck` | src/controllers/task.controller.js:82-88 | an invalid status, including a missing one, is reported before a missing title |
| `TaskController.ToggleTaskCheck` | src/controllers/task.controller.js:125-135 | the task id, then the body's task, then the body task's status are checked, in that order |
| `TaskController.TaskStore.CreateTask` | src/controllers/task.controller.js:7-40 | a failed check changes nothing; otherwise exactly one row is added at the next key with the given title, status and project id |
| `TaskController.TaskStore.UpdateTask` | src/controllers/task.controller.js:78-104 | a failed check or a missing row changes nothing; otherwise only that row's title and status change, its project id and all other rows stay |
| `TaskController.TaskStore.ToggleTaskStatus` | src/controllers/task.controller.js:120-150 | a failed check or a missing row changes nothing; otherwise only that row's status changes, to the toggle of the stored status, whatever status the body sent |

## Left out

- Cryptography and the clock: jwt.sign, jwt.verify (signature and expiry checks) and bcrypt are uninterpreted functions. jwt.sign and jwt.verify take the time of the request as an input, so a token can expire between requests; bcrypt.hash takes the salt instead. Nothing ties verify to sign. Lemmas that need "an issued refresh token verifies at time t" take it as a hypothesis (`RefreshTokenFor`), as do those that need "an accepted token names the user it was issued for" (`NamesSubject`).
- bcrypt's soundness is the predicate `Crypto.HashSound`, a hypothesis of the lemmas that need it. It is not an axiom of the model.
- The e-mail format check of the ORM is the uninterpreted `isEmail` of `Env`.
- The database's string comparisons are exact. MySQL's default collation is case-insensitive and the source sets no other (src/db/index.db.js:11). This is not modelled, for either lookups or the unique constraints. `MixedCaseUsernameNeverMatchesLookup` holds only under case-sensitive comparison.
- A failed insert leaves the auto-increment counter unchanged in the model. MySQL's InnoDB uses up an auto-increment value on a duplicate-key insert, so the next row's key can skip a number. Only key values depend on this.
- The foreign key from a task's project id to the projects table is not modelled. Neither are projects.
- `refreshAccessToken` as written is assigned without a declaration and calls `jwt`, which that file never imports (src/controllers/user.controller.js:146, 154). The model gives it its evident meaning: verification with the refresh secret.
- The refresh handler reads a cookie named `refreshAccessToken`, while login sets `refreshToken` (src/controllers/user.controller.js:148, 112). The presented token is one optional input.
- `logoutUser` calls an update method that the ORM does not provide, with a `$unset` document (src/controllers/user.controller.js:121-128). The model performs its evident effect, clearing the refresh token of the authenticated user.
- As written, the user controller's export list names `loginUser` and `refreshAccessToken` (src/controllers/user.controller.js:257-268), neither of which the module declares (the login handler is declared as `login`, line 76). In an ES module that is an early error, so the file never loads and none of its handlers runs. Likewise src/middlewares/auth.middleware.js:2 and src/controllers/task.controller.js:2 import `../utils/asyncHandler.js` while the file is `AsyncHandler.js`, which fails on a case-sensitive file system. The model gives every handler its evident meaning, as if these modules loaded.
- Request fields are strings in the model: every body field, cookie and header is an `Option<string>`, and `Present` is the truthiness of a string. The body parsers (src/app.js:16, 18) also deliver numbers, booleans, arrays and objects, and the source's behaviour on those is not modelled:
  - `0` and `false` are falsy, while `Present` counts every non-empty value as present.
  - A truthy non-string username passes the lookup and then makes `toLowerCase` throw a TypeError (src/controllers/user.controller.js:53).
  - A non-string password makes bcrypt.hash (src/models/user.model.js:52) or bcrypt.compare (line 62) throw.
  - An array email turns the login lookup (src/controllers/user.controller.js:85) into an IN query.
- UserController.IssueTokens: the model treats signing and the save as infallible. It also treats string columns as unbounded. The catch at src/controllers/user.controller.js:24-26 swallows any error at lines 9-19 and returns `undefined`; the model produces that result only for a missing row (`None`). Two failures are missed:
  - jwt.sign throws when a secret or an expiry is unset.
  - The save can fail on a token longer than the VARCHAR(255) the `STRING` columns get (src/models/user.model.js:16-46). A refresh token embeds the username, so a username of roughly 75 characters or more is enough. MySQL's strict mode refuses such an UPDATE. Without strict mode the stored token is truncated, and every later refresh is refused.
  After such an error, login (line 96) and refresh (line 172) destructure `undefined` and fail with a TypeError, nothing written. `LoginSpec` and `RefreshAccessTokenSpec` answer success there. For the same reason, `RegisterUserSpec` answers 201 for a username or email over 255 characters, where the INSERT would fail.
- The read-back check after registration (src/controllers/user.controller.js:64-66) cannot fail once the insert has succeeded, so it is not modelled.
- The dead second project-id check of `createTask` is kept in `CreateTaskCheck`. No input reaches it.
- `createTask` and `toggleTaskStatus` as written take their ids by destructuring the string `req.params.id` (src/controllers/task.controller.js:10, 122), which always gives `undefined`. So `createTask` always answers "Missing required fields" and `toggleTaskStatus` always answers "Task ID is required". The model takes each id as an explicit optional input. `None` is the as-written case, and the `Some` paths model the evident intent, the id from the route.
- A task's status column default ("To Do") is not modelled: `createTask` refuses a request without a status before the row is built, so the default never applies.
- The ORM's default `createdAt` and `updatedAt` columns are not modelled. They appear in every row read back (src/controllers/user.controller.js:58, 98; src/middlewares/auth.middleware.js:21) but no handler reads them. `User` and `PublicUser` omit them.
- `task.save()` is not awaited in `updateTask` and `toggleTaskStatus`. The model treats the write as done before the reply.
- Not modelled: cookie options, response envelopes, `console.log`, and the HTTP status that Express's default handler gives to `Unhandled` faults.
- Routing and app wiring are not part of this model: src/routes/*, src/app.js, src/index.js. Neither is the database connection (src/db/index.db.js) nor asyncHandler (src/utils/AsyncHandler.js), whose error forwarding is what `Unhandled` stands for.
- Project CRUD is left out, as are `editUserDetails`, `getProjectAssignedToUser`, `getTaskAssignedToUser`, `getAllTasks`, `getTaskById` and `deleteTask`. They pass requests straight to the ORM.
- Concurrency is not modelled: each handler is one atomic step on the table, so races between simultaneous logins or refreshes are out of scope.
- JsString.ToLower: lower-cases ASCII letters only, not the full Unicode mapping of `toLowerCase`.
