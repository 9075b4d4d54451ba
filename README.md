# Task tracker: the decision layers in Dafny

This project models the task tracker "lista-tareas-v2": a browser client
where a signed-in user lists, adds, completes and deletes short text tasks,
and a small REST API behind it with username/password accounts. Under the
DOM, `fetch`, Mongoose, JWT and bcrypt plumbing there are four layers whose
behaviour can be stated exactly. Each is modelled over an in-memory state:

- **The task store** (`server/routes/tasks.js`, module `TaskRoutes`,
  `task_routes.dfy`). The collection is a map from task id to
  `Task(owner, text, completed, createdAt)`, and every query is scoped to
  the caller taken from the verified token. `CreateSpec`, `UpdateSpec` and
  `DeleteSpec` give the reply and the collection after each request. The
  class `TaskStore` keeps the map as a field. Its methods `Create`,
  `Update` and `Delete` change it in place and are proved equal to those
  functions. `List` only reads it: the newest-first listing its loop builds
  is proved to satisfy the predicate `IsListing`.
- **Register and login** (`server/routes/auth.js`, module `AuthRoutes`,
  `auth_routes.dfy`). The user table is a map keyed by username.
  `RegisterSpec` and `Login` are the two decisions. `UserTable.Register`
  inserts into the table in place, going through a `UserDocument` and its
  pre-save hook. A token is its claims `Claims(userId, username, iat, exp)`
  with `exp = iat + 604800`, the seven days of `expiresIn: '7d'`.
- **The user record** (`server/models/User.js`, module `UserModel`,
  `user_model.dfy`). This covers:
  - the schema's setters (trim, lower-case) and validators;
  - the email pattern `^[^\s@]+@[^\s@]+\.[^\s@]+$`, as a character-level
    validator proved equal to the pattern;
  - the conditional `required` on `password`;
  - the unique indexes;
  - the `pre('save')` hash guard, as the class `UserDocument`;
  - `comparePassword`.

  bcrypt is a pair of functions `Hasher(hash, matches)` passed as a
  parameter. `BcryptLike(h)` states that a hash is never empty and
  matches its own password.
- **The client session controller** (`script.js`, module `Client`,
  `client.dfy`). The module-level variables and the two local-storage keys
  are the fields of the class `Session`. Server responses and the answers to
  `confirm()` are inputs. Each handler returns the requests it sent and the
  messages it showed. A pure step function (`Load`, `CheckAuthStep`,
  `HandleAuthStep`, `AddStep`, `RemoveStep`, `ToggleStep`, `Logout`) states
  what each handler does, and the methods are proved to agree with it.

Shared pieces:

- `text.dfy` (module `Text`): JavaScript's `String.prototype.trim` over the
  ECMAScript white-space and line-terminator characters, and the ASCII part
  of `toLowerCase`.
- `wire.dfy` (module `Wire`): a JSON body member as `Missing | Null | Str(s)`
  with JavaScript truthiness, and the status codes.

Three behaviours of the code are worth stating up front:

- A 401 or 403 on a task call goes through `handleLogout`, which asks
  `confirm()` first. A user who declines keeps the dead session
  (`Client.ForcedLogoutAsksFirst`).
- The client keeps no undo buffer for deleted tasks; a deleted task is
  gone from both lists.
- The `/register` handler builds `new User({ username, password })` with no
  email, and the schema requires an email, so the real `save()` rejects
  every registration (`UserModel.RegisterDocumentFailsValidation`). The
  model therefore takes the outcome of `save()` as an input (`saveOk`). It
  proves what a registration does when the save resolves and when it
  rejects, and claims neither outcome always happens. Even if the save
  resolved, the unique `email` index treats every missing email as the
  same `null` key: once one user without an email is stored, every later
  registration is refused with 500
  (`AuthRoutes.EmaillessUserBlocksRegistration`).

## Model

| member | source | states |
|---|---|---|
| Text.Trim | server/routes/tasks.js:26-32 | `trim()` yields a value that neither starts nor ends with white space, is no longer than the input, and is empty exactly when the input is all white space |
| Text.TrimIsSlice | server/routes/tasks.js:32 | the trimmed value is the piece of the input starting right after its leading white space, and everything cut off on either side is white space |
| Text.TrimIdempotent | server/models/User.js:9 | trimming a trimmed value changes nothing, so the `trim` setter leaves stored usernames stable |
| Text.LowerFacts | server/models/User.js:17 | lower-casing keeps the length, leaves no capital letter, keeps every other character and keeps which characters are white space |
| Text.LowerOfTrimmed | server/models/User.js:16-17 | lower-casing a trimmed value leaves it trimmed |
| UserModel.NormalizeEmail | server/models/User.js:12-17 | the stored email is no longer than the given one, has no surrounding white space and no capital letter |
| UserModel.NormalizeEmailIdempotent | server/models/User.js:16-17 | normalising a stored email again gives the same email |
| UserModel.NewUserNormalized | server/models/User.js:5-17 | every constructed user has a trimmed username and a trimmed, lower-case email, and building it again from its stored values gives the same document |
| UserModel.EmailValidatorMatchesPattern | server/models/User.js:18 | an email passes the validator (no white space, exactly one `@` not in first position, a `.` after the `@` that is neither first nor last there) if and only if it matches the pattern atom `@` atom `.` atom |
| UserModel.PasswordRequiredUnlessOAuth | server/models/User.js:20-32 | for a provider the enum admits, a password is required exactly when no provider is set, so a valid user without a password is a Google account |
| UserModel.RegisterDocumentFailsValidation | server/routes/auth.js:32-33 | the document `/register` builds has no email and so fails the schema's validation, whatever the username and password |
| UserModel.InsertKeepsUniqueIndexes | server/models/User.js:5-15 | inserting a user whose username and email are both unused keeps the username and email indexes unique |
| UserModel.ComparePassword | server/models/User.js:60-63 | a user without a stored password never matches, whatever the candidate; otherwise the answer is bcrypt's comparison of the candidate with the stored hash |
| UserModel.HookedPasswordVerifies | server/models/User.js:52-63 | a non-empty password set and saved through the hook is later accepted by `comparePassword` |
| UserModel.HookKeepsUnmodified | server/models/User.js:53 | when the password path was not modified the hook leaves the stored password as it is |
| UserModel.UserDocument.HashPassword | server/models/User.js:52-57 | the hook replaces the password by its hash only when it was modified and is non-empty, and otherwise leaves it unchanged |
| UserModel.UserDocument.Save | server/models/User.js:52-57 | saving runs the hook and then clears the modified mark |
| AuthRoutes.RegisterCheck | server/routes/auth.js:13-23 | the registration checks in order: a missing or empty field gives the required-fields message, else a username under 3 gives the username message, else a password under 6 gives the password message; it passes if and only if all three hold |
| AuthRoutes.RegisterOutcomes | server/routes/auth.js:8-51 | every refused registration leaves the table unchanged; a failed check gives 400 with its message, a taken username gives 400 "El usuario ya existe", a rejected query or save gives 500; a user the unique username or email index would refuse gives 500; it succeeds exactly when the checks pass, the username is free, both calls resolve and the indexes admit the new user |
| AuthRoutes.RegisterSuccess | server/routes/auth.js:32-48 | a successful registration adds exactly one user under the trimmed username with the next id and the hashed password, leaves every other user as it was, and answers 201 with the summary `{id, username}` of that user and claims with the same id and name expiring seven days after issue |
| AuthRoutes.RegisterTwiceIsDuplicate | server/routes/auth.js:26-29 | after a successful registration, registering the same username again answers 400 duplicate and leaves the table unchanged |
| AuthRoutes.Login | server/routes/auth.js:55-93 | a missing or empty field gives 400; a rejected lookup gives 500 with the generic message; a token is issued if and only if the lookup resolves, the user is stored and the password matches, with status 200, that user's summary and claims, and a seven-day expiry; every 401 carries the one credentials message and every 500 the generic one |
| AuthRoutes.LoginHidesWhichCheckFailed | server/routes/auth.js:65-74 | an unknown username and a wrong password give the same reply, 401 "Usuario o contraseña incorrectos" |
| AuthRoutes.LoginChecksOnlyPresence | server/routes/auth.js:60-62 | login applies no length check: with both fields present it never answers 400, and a stored user whose password matches logs in even under a name shorter than 3 characters, which registration would refuse |
| AuthRoutes.EmaillessUserBlocksRegistration | server/routes/auth.js:32-51 | once a user without an email is stored, a registration that passes the checks and finds its username free is still refused with 500 and leaves the table unchanged, because the new user's missing email collides with the stored one in the unique index |
| AuthRoutes.RegisterThenLogin | server/routes/auth.js:32-89 | after a successful registration, logging in at any later time with the same username and password succeeds with 200 and names the registered user, with an expiry seven days after the login |
| AuthRoutes.UserTable.Register | server/routes/auth.js:8-52 | the handler updates the table in place exactly as the registration decision says, bumps the id counter only on success, and keeps usernames as keys, the username and email indexes unique, and ids distinct |
| TaskRoutes.InsertNewestFirst | server/routes/tasks.js:13-14 | inserting a task into a newest-first listing adds exactly that entry and keeps the listing newest-first and free of repeated ids |
| TaskRoutes.TaskStore.List | server/routes/tasks.js:11-19 | `GET /tasks` answers 200 with exactly the caller's tasks, each once and as stored, ordered by creation time, newest first |
| TaskRoutes.CreateRejectsBlank | server/routes/tasks.js:26-28 | a missing, null, empty or all-white-space text answers 400 "El texto de la tarea es requerido" and leaves the collection unchanged |
| TaskRoutes.CreateAddsOne | server/routes/tasks.js:30-36 | a valid create under a fresh id answers 201 with one new task owned by the caller, with the trimmed text, not completed, and leaves every other task as it was |
| TaskRoutes.UpdateChangesOnlyGivenFields | server/routes/tasks.js:56-60 | an update of the caller's task sets `completed` only if given and the text to the trimmed value only if given, keeps owner and creation time, touches no other task and answers 200 with the new task |
| TaskRoutes.UpdateNotOwnedIsNotFound | server/routes/tasks.js:47-54 | an update of an id that does not exist or belongs to another user answers 404 "Tarea no encontrada" and leaves the collection unchanged, whatever fields were sent |
| TaskRoutes.UpdateAcceptsBlankText | server/routes/tasks.js:57 | an update does not re-check the text: an all-white-space text is stored as the empty string with 200 |
| TaskRoutes.DeleteRemovesExactlyOne | server/routes/tasks.js:69-78 | a delete of the caller's task removes exactly that id and answers 200 "Tarea eliminada"; for any other id it answers 404 and leaves the collection unchanged |
| TaskRoutes.DeleteTwiceIsNotFound | server/routes/tasks.js:69-76 | deleting the same id a second time answers 404 and changes nothing |
| TaskRoutes.CreateTouchesOnlyOwn | server/routes/tasks.js:30-35 | a create under a fresh id adds, changes and removes no task of another user |
| TaskRoutes.UpdateTouchesOnlyOwn | server/routes/tasks.js:47-59 | an update changes and removes no task of another user |
| TaskRoutes.DeleteTouchesOnlyOwn | server/routes/tasks.js:69-72 | a delete removes and changes no task of another user |
| TaskRoutes.OwnershipIsolation | server/routes/tasks.js:11-82 | no create, update or delete by one user touches another user's task, and a listing holds only the caller's tasks |
| TaskRoutes.NotFoundHidesOwnership | server/routes/tasks.js:47-76 | for update and delete, an id that does not exist and an id owned by someone else give the same reply, and the other user's task stays as it was |
| TaskRoutes.ListingReflectsChanges | server/routes/tasks.js:11-82 | a created task appears in the owner's next listing, incomplete and with the trimmed text; after setting `completed` the listing shows the new flag; after a delete the id is gone from the listing |
| TaskRoutes.TaskStore.Create | server/routes/tasks.js:22-40 | `POST /tasks` changes the collection in place as the create decision says, under an id not yet in use |
| TaskRoutes.TaskStore.Update | server/routes/tasks.js:43-64 | `PUT /tasks/:id` changes the collection in place as the update decision says |
| TaskRoutes.TaskStore.Delete | server/routes/tasks.js:67-82 | `DELETE /tasks/:id` changes the collection in place as the delete decision says |
| Client.Keep | script.js:153-154 | the filtered list is no longer than the server's list and every task in it has the requested `completed` flag |
| Client.KeepMembers | script.js:153-154 | a task is in a filtered list if and only if it is in the server's list with that flag |
| Client.KeepAppend | script.js:153-154 | filtering keeps the server's order: filtering a concatenation concatenates the filtered parts |
| Client.PartitionIsPermutation | script.js:153-154 | the pending and finished lists together are a permutation of the server's list, so each task lands in exactly one of them and their lengths add up |
| Client.ClientAuthCheck | script.js:48-62 | the form checks in order: an empty field, then a username under 3, then a password under 6; the form passes if and only if none applies |
| Client.CheckAuthRequiresBoth | script.js:14-25 | at page load the task view is shown only when both the token and the user are stored, with `currentUser` set to the stored user and the list requested; otherwise the login form is shown, nothing is sent and `currentUser` is untouched |
| Client.LoadPartitions | script.js:126-162 | after a successful load the pending list holds exactly the server's incomplete tasks and the finished list exactly its completed ones, in server order, together a permutation of the server's list, and the headings show their lengths |
| Client.ForcedLogoutAsksFirst | script.js:141-145 | a 401 or 403 from the list, create, delete or toggle call ends in `handleLogout`: confirmed, it clears token, user, current user and both lists and shows the login form; declined, nothing changes |
| Client.NoTokenNoRequest | script.js:126-257 | with no stored token no task request is sent and the state is unchanged; adding reports an empty text before the missing token, delete and toggle report the missing session |
| Client.BlankTaskNotSent | script.js:167-174 | an empty or all-white-space task text is never sent, whatever the session |
| Client.MutationsCarryToken | script.js:216-269 | a toggle asks the server for the opposite of the flag the task was shown with and a confirmed delete names the task, both under the stored token; a declined delete sends nothing |
| Client.AuthFormChecks | script.js:43-64 | a form that fails a check sends nothing, changes nothing and shows that check's message; a form that passes is posted with the trimmed values to the register or login endpoint |
| Client.AuthOutcome | script.js:66-93 | whatever the answer to the logout dialog, a refused or failed sign-in sends only the auth request and leaves the session as it was; an accepted one sends the auth request and then the list request with the new token, and keeps the returned token and user as `token`, `user` and `currentUser` with the task view shown, unless the list answers 401 or 403 and the logout is confirmed, which clears the session and shows the login form |
| Client.ClientChecksImplyServerChecks | script.js:44-62 | values that pass the client's checks, trimmed as the client sends them, pass the server's registration checks, and the server looks them up under the same name |
| Client.LogoutLeavesCountersStale | script.js:97-105 | a confirmed logout after a successful load of a non-empty list leaves the heading counters showing the old lengths of the now empty lists |
| Client.CreatedTaskShowsAsPending | script.js:150-154 | a task the server just created, listed for its owner and loaded by the client, is in the pending list with its trimmed text |
| Client.Session.constructor | script.js:2-4 | at page load the lists are empty, `currentUser` is null and local storage holds what an earlier visit left |
| Client.Session.HandleLogout | script.js:97-106 | `handleLogout` changes the fields exactly as the logout step says |
| Client.Session.ActualizarContadores | script.js:351-357 | the headings are set to the lengths of the two lists |
| Client.Session.CargarTareas | script.js:126-162 | `cargarTareas` changes the fields, sends the requests and shows the messages exactly as the load step says |
| Client.Session.CheckAuth | script.js:14-25 | `checkAuth` behaves exactly as the page-load step says |
| Client.Session.HandleAuth | script.js:43-94 | `handleAuth` behaves exactly as the sign-in step says |
| Client.Session.FinishMutation | script.js:193-212 | the shared tail of the three task mutations behaves exactly as the after-mutation step says |
| Client.Session.AgregarTarea | script.js:165-213 | `agregarTarea` behaves exactly as the add step says |
| Client.Session.EliminarTarea | script.js:216-248 | `eliminarTarea` behaves exactly as the remove step says |
| Client.Session.ToggleTarea | script.js:251-285 | `toggleTarea` behaves exactly as the toggle step says |

## Left out

- `server/server.js` (Express, CORS and JSON wiring, the MongoDB connection, `listen`) is I/O plumbing and is not modelled.
- JWT signing and verification, and the `authenticateToken` middleware: `server/middleware/auth.js` is not part of this model. A token is its claims, a caller of the task routes is the `userId` the middleware would have verified, and no signature is modelled.
- bcrypt is a foreign crypto call. It is the `Hasher` parameter, and its salt and cost factor are not modelled.
- `server/models/Task.js` is not part of this model. A new task is assumed to start with `completed = false` and `createdAt` equal to the request time.
- TaskRoutes.UpdateAcceptsBlankText: assumes the `Task` schema puts no `required` or `minlength` validator on `text`. With such a validator, saving a blank text would be rejected and the update would answer 500.
- Users are looked up under the trimmed username. This assumes Mongoose casts the `findOne({ username })` filter through the schema's `trim` setter, so a login as " bob" finds the stored "bob".
- Mongoose internals are not modelled: the query engine, `_id` generation (a counter stands in), hook ordering beyond the password guard, and cast errors for malformed ids.
- The task routes' database failures (the 500 answers of `tasks.js`) are not modelled, apart from the `text: null` update, which throws in `trim()` and answers 500. The auth routes' failures are inputs: `lookupOk` for `findOne`, `saveOk` for `save`.
- TaskRoutes.TaskStore.Create: a save that fails (500) is not modelled, for the reason above.
- `oauthId`, `resetPasswordToken` and `resetPasswordExpires` have no behaviour in the core beyond their `null` defaults, so the `User` record leaves them out.
- Non-string JSON values for `username`, `password` and `text` (numbers, arrays) are not modelled. A body member is absent, `null` or a string.
- `completed` in an update body is `Option<bool>`. A JSON `null` (which Mongoose would store as it is, answering 200) and a value that cannot be cast to a boolean (which makes `save()` reject, answering 500) are not modelled.
- String lengths count Dafny characters. JavaScript counts UTF-16 code units, so the 3- and 6-character limits differ for characters outside the Basic Multilingual Plane.
- Text.LowerFacts: only the ASCII letters are lower-cased. JavaScript's `toLowerCase` also maps non-ASCII capitals.
- DOM rendering and HTML escaping are not modelled: `mostrarLogin`, `mostrarApp`, `mostrarTareas*`, `escapeHTML`, `mostrarError`/`ocultarError`, clearing the form fields, and the event listeners. The visible part of the page is the `screen` field, and shown messages are the returned notices.
- Client.Session.AgregarTarea: the failure alert is modelled without the server status and error text that the source appends to it.
- `fetch`, `async`/`await` and overlapping requests are not modelled. Each handler runs to completion with its responses given as inputs. A stored `user` that is not valid JSON (where `JSON.parse` throws in `checkAuth`) is not modelled.
- There is no undo buffer, because the client script has none.
