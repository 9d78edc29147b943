# User directory API: authentication and access decisions

A Dafny model of the decision logic of a small user-directory API (a
Laravel application). Accounts authenticate with a bearer api key. An
access rule based on role (`user` or `admin`) and identity (self or other)
decides who may list, view, update or create user records. The model is one
sequential state machine over an in-memory `users` table:

- `users.dfy` (`Users`): the `User` row, roles, the table as a sequence in
  id order, the `where(...)->first()` lookup (`First`), and `WellFormed`.
  `WellFormed` holds that ids ascend, and that emails and api keys are
  unique. It also holds that every key is 32 characters long.
- `storage.dfy` (`Storage`): the `UserTable` class (rows plus the
  auto-increment counter) and the `UserModel` instance that a create fills
  before it is inserted.
- `user_observer.dfy`: the `creating` hook that stamps a new row's key.
- `register_alert.dfy`: the registration notifier, kept as a log of the
  users it was called with.
- `http.dfy`: request bodies, responses (status plus structured body), the
  two exceptions a controller can throw, and the email-format stand-in.
- `exception_handler.dfy`: how not-found and validation exceptions become
  responses.
- `user_policy.dfy`: the access rule, as an explicit function. The policy
  class is not part of this model; its rule comes from the controllers'
  comments and the feature tests.
- `auth_check.dfy`: the api-key middleware.
- `user_controller.dfy`: get, index and update, with role narrowing.
- `user_auth_controller.dfy`: register (admin only) and login.
- `routes.dfy`: the route table and the pipeline around the controllers:
  middleware, route binding of `{user}`, the action, exception rendering.
- `scenarios.dfy`: end-to-end scenarios of the pipeline that follow the feature
  tests.

Inputs that stand for the outside world are parameters. The bearer token is
an `Option<string>`; the token is the credential of section 2.1 of RFC 6750.
The random api key is a `key` argument, which must be 32 characters long and
not yet used. Passwords are compared as plain stored secrets.

A missing token and an unknown token get one and the same 401 response.
The role-narrowing rule follows the tests and the code's comment rather
than the code's statements (see Findings).

## Model

| member | source | states |
|---|---|---|
| Users.ParseRole | app/Http/Controllers/UserController.php:72 | a role string is accepted exactly when it is `user` or `admin`, and reads back as the same string |
| Users.EmailTaken | app/Http/Controllers/UserController.php:69 | the `unique:users,email[,id]` rule: a taken email is one `first()` finds by email; with no excepted id, taken exactly when `first()` finds it |
| Users.WellFormed | app/Http/Controllers/UserAuthController.php:46-53 | the invariant of every reachable table (auto-increment ids, unique emails, fresh 32-character keys); it implies that no two rows share an id and no two rows share an email |
| Users.First | app/Http/Middleware/AuthCheck.php:21 | `where(...)->first()`: the result is the lowest-positioned row that matches, or None exactly when no row matches |
| Users.FirstFindsRow | routes/api.php:31 | in a well-formed table, looking up a row's id, api key or email finds that row |
| Users.FirstStableUnderRewrite | app/Http/Middleware/AuthCheck.php:21 | rewriting a row without changing whether it matches leaves every lookup result unchanged |
| Users.InsertPreservesWellFormed | app/Http/Controllers/UserAuthController.php:52-53 | appending a row with the next id, a fresh 32-character key and an unused email keeps the table well-formed |
| Storage.UserTable.Insert | app/Http/Controllers/UserAuthController.php:52-53 | the instance receives the next id and becomes the last row; nothing else changes and the table stays well-formed |
| Storage.UserTable.Save | app/Http/Controllers/UserController.php:82 | exactly the row at the target's position is replaced, the counter is kept, and the table stays well-formed |
| UserObserver.Creating | app/Observers/UserObserver.php:11-14 | the instance being created gets the drawn 32-character key, overwriting any key it held, and keeps its other attributes |
| RegisterAlert.RegisterAlertService.NotifyRegisteredUser | app/Services/StubNotificationService.php:15-37 | each call appends the given user to the log and answers true |
| ExceptionHandler.Render | app/Exceptions/Handler.php:32-38 | only not-found exceptions are answered: a failed `User` binding gives 404 "This user does not exist.", any other not-found gives 400 "Invalid request." |
| ExceptionHandler.Respond | app/Exceptions/Handler.php:32-38 | not-found exceptions get the callback's own response, 404 or 400; validation exceptions keep the framework's JSON answer, 422 listing the failed fields |
| UserPolicy.Can | app/Http/Controllers/UserController.php:29-30 | the access rule: an admin may do everything; a non-admin is allowed only to view or update the record with their own id |
| UserPolicy.NonAdminOnlySelf | app/Http/Controllers/UserController.php:29-30 | a non-admin may view or update exactly their own record and may never list or create |
| UserPolicy.AdminDominates | app/Http/Controllers/UserAuthController.php:39-42 | an admin may do every action, so an admin may do whatever a non-admin may do |
| AuthCheck.Presented | app/Http/Middleware/AuthCheck.php:20 | PHP truthiness of the token: a presented token is a non-empty string, and every string of two or more characters is presented |
| AuthCheck.Authenticate | app/Http/Middleware/AuthCheck.php:15-34 | a token authenticates iff it is truthy and some row holds exactly that key; the actor is the first such row; every failure is the same 401 "Invalid authorisation." |
| AuthCheck.UnknownLooksLikeMissing | app/Http/Middleware/AuthCheck.php:26-33 | a token that no row holds gets the same answer as no token at all |
| AuthCheck.OwnKeyAuthenticates | app/Http/Middleware/AuthCheck.php:21-25 | in a well-formed table each row's own key authenticates exactly that row |
| AuthCheck.ZeroTokenUnobservable | app/Http/Middleware/AuthCheck.php:20 | "0", which the truthiness test treats as no token, is never a stored key, so the quirk cannot be observed |
| AuthCheck.AuthenticationSurvivesRewrite | app/Observers/UserObserver.php:11 | rewriting a row without touching its id or key leaves every token naming the same account |
| UserController.Get | app/Http/Controllers/UserController.php:25-40 | 200 with the target record iff the actor is admin or the target itself, otherwise 401 "You do not have permission to perform this action." |
| UserController.Index | app/Http/Controllers/UserController.php:45-55 | 200 with every row, in the assumed id order, iff the actor is admin, otherwise the same 401 permission message |
| UserController.UpdateErrors | app/Http/Controllers/UserController.php:67-73 | every field is optional and only a supplied email or role can fail; a request passes exactly when its email, if any, is well-formed and held by no other row and its role, if any, is `user` or `admin`; a malformed email is reported under email |
| UserController.TakenEmailOrBadRoleRejected | app/Http/Controllers/UserController.php:69-72 | another row's email fails validation, and so does a role other than `user` or `admin`, whoever the actor is |
| UserController.OwnEmailAllowed | app/Http/Controllers/UserController.php:69 | resubmitting the target's own well-formed email does not fail the unique rule |
| UserController.Patch | app/Http/Controllers/UserController.php:82 | an update never changes the id or the api key, and every field not supplied keeps its value |
| UserController.PatchAppliesSupplied | app/Http/Controllers/UserController.php:82 | an empty payload is the identity; a supplied name, email, password, phone or valid role lands in the record |
| UserController.EffectivePayload | app/Http/Controllers/UserController.php:75-79 | the intended payload: an admin's request whole, a non-admin's request without its role, and nothing else removed |
| UserController.PayloadAsWritten | app/Http/Controllers/UserController.php:75-79 | the payload as written, with the guard on the target's role and the `unset` on an array, which removes nothing: on both branches the request, role included, is applied whole |
| UserController.RoleNarrowing | app/Http/Controllers/UserController.php:75-79 | a non-admin's update never changes the role; an admin's valid role change is applied; nothing but the role is ever dropped |
| UserController.NarrowingAgreesWithTargetGuard | app/Http/Controllers/UserController.php:77 | a non-admin allowed to update is updating their own row, whose role is not admin, so testing the actor's role and testing the target's role agree |
| UserController.AsWrittenLetsUserPromoteSelf | app/Http/Controllers/UserController.php:76-79 | as written, a regular user's own `role=admin` passes permission and validation and makes them admin; the narrowed payload keeps them a user |
| UserController.UpdatePreservesWellFormed | app/Http/Controllers/UserController.php:69 | rewriting one row with an email that passed the unique rule keeps the table well-formed |
| UserController.Update | app/Http/Controllers/UserController.php:62-90 | permission before validation; a denied or invalid request changes nothing; a valid one rewrites only the target's row with the supplied fields (role dropped for non-admins) and returns 200 "Successfully updated." with the new record |
| UserAuthController.RegisterErrors | app/Http/Controllers/UserAuthController.php:44-50 | a request passes exactly when it has a non-empty name, a well-formed unused email, a password of at least 8 characters and no role or a valid one; phone never fails |
| UserAuthController.RegisterReportsEachField | app/Http/Controllers/UserAuthController.php:44-50 | a missing or empty name, a missing, malformed or taken email, a missing or short password and a bad role are each reported under their own field |
| UserAuthController.RoleOrDefault | app/Http/Controllers/UserAuthController.php:49-52 | a new account's role is the submitted role when it is `user` or `admin`, and `user` otherwise |
| UserAuthController.NewUser | app/Http/Controllers/UserAuthController.php:52 | `User::create` fills the same five fields an update assigns, onto a row with the given id and key and the default role |
| UserAuthController.Attempt | app/Http/Controllers/UserAuthController.php:75 | a match is a row holding both the submitted email and the submitted secret |
| UserAuthController.Login | app/Http/Controllers/UserAuthController.php:73-89 | either 200 "Logged in successfully." with the id and stored key of a row matching the credentials, or 401 "Invalid login details."; the table is only read |
| UserAuthController.StoredCredentialsLogIn | app/Http/Controllers/UserAuthController.php:75-88 | in a well-formed table a stored email logs in with its stored secret and with no other password |
| UserAuthController.UserAuthController.Register | app/Http/Controllers/UserAuthController.php:37-65 | non-admin gets 401 "Unauthorised." before validation; invalid input gets 422; in both cases nothing is inserted or notified; otherwise exactly one row is appended with the submitted fields and the drawn key, the notifier is called once with it, and 201 returns the message, id, record and key |
| Routes.BehindApiKey | routes/api.php:20-35 | every route but login sits behind the api-key middleware, in particular every route with a `{user}` parameter |
| Routes.TargetId | routes/api.php:31-34 | exactly the get and update routes carry a `{user}` parameter, and it is their id |
| Routes.Admit | routes/api.php:20-35 | login skips the api-key check; every other route stops with 401 unless authenticated; an authenticated request for a missing `{user}` stops with 404 before any controller; an authenticated request with no `{user}`, or with one that exists, is admitted with its actor and bound target |
| Routes.UnauthenticatedStopsAtMiddleware | routes/api.php:27-35 | with no token, or one nobody holds, no guarded route reaches its controller and both get the same 401 |
| Routes.LoginKeyOpensOwnRecord | app/Http/Controllers/UserAuthController.php:80-84 | the key login returns authenticates as the account that logged in, which may then get its own record |
| Routes.Serve | routes/api.php:20-35 | a stopped request changes nothing; `/user` returns the actor; only register and update change the table and only register notifies; each route's response and new state are those of its controller |
| Scenarios.TwoRegistrationsNotifyTwice | tests/Feature/RegisterAlertTest.php:19-47 | two registrations by an admin each get 201, and the notifier is called twice, once with each new row |
| Scenarios.RoleChangeNeedsAdmin | tests/Feature/UserUpdateTest.php:86-123 | a user asking to become admin gets 200 and stays a user; an admin promoting that user gets 200 and the user becomes admin |

## Left out

- Every request is taken to expect JSON. The framework answers a failed validation of any other request with a redirect instead of 422, and that path is left out.
- Database configuration is not part of this model, and two of its effects are assumed. Api keys and emails are compared by exact, case-sensitive equality, although a case-insensitive collation would also match case variants. The unordered queries (`where(...)->first()`, `User::all()`) are taken to return rows in id order.
- Reading the bearer token from the Authorization header is left out. The token is an input.
- JSON serialisation is left out, and so is the set of hidden attributes. The `User` model class is not part of this model.
- Password hashing is left out, and so is the session login that `Auth::attempt` performs. A password is a stored secret compared by equality.
- The framework's `email` rule (RFC 5322 address checking) is replaced by `ValidEmail`: an '@' with at least one character on each side.
- The randomness of the 32-character key is left out: the key is a parameter. Keys must be unused, an assumption the source does not enforce.
- Routes.Serve: requires an unused key on every request, though only register draws one.
- Mass assignment of fields other than the five validated ones is left out. It depends on the `User` model's fillable list, which is not part of this model.
- Non-string input values are left out (the `string` rules), and so are the conversion of empty strings to null and the whitespace trimming behind `required`.
- A `{user}` path segment is modelled as an integer; a non-numeric segment is left out. How it binds depends on the database's comparison rules, which are not part of this model.
- An update cannot clear the phone number, because a null value fails the `string` rule. The model keeps supplied phones as strings only.
- The role of an account registered without one is the `user` column default. The migration that sets it is not part of this model.
- The second `save()` after `create` (app/Http/Controllers/UserAuthController.php:53) finds nothing changed, so it writes nothing. It only fires the model's saving events, which nothing here observes.
- The notifier's HTTP call is commented out in the stub and is left out. The notifier's answer is ignored by register.
- The two service providers both register the observer. Either way one 32-character key results, so this wiring is left out.
- The `else` branch at app/Http/Controllers/UserController.php:36-38 is left out, because route binding fails before it can run.
- Concurrent registrations with the same email are left out. Whether the database refuses the second depends on a unique index, which is not part of this model.
- The database seeder holds fixture data only and is left out.

## Findings

| source | as written | input that shows it | evidently intended | confidence | as-written member | corrected member |
|---|---|---|---|---|---|---|
| app/Http/Controllers/UserController.php:76-79 | `unset($requestData->role)` acts on an array, which removes nothing. The guard also tests the target's role, not the actor's. So the submitted role is always applied. | a user with role `user` posts `role=admin` to their own update route | the role stays `user`, as the comment at :75 and tests/Feature/UserUpdateTest.php:86-102 say; an admin may still change any role (tests/Feature/UserUpdateTest.php:107-123) | medium; not executed; the outcome also depends on the `User` fillable list, which is not part of this model | UserController.AsWrittenLetsUserPromoteSelf | UserController.RoleNarrowing |
