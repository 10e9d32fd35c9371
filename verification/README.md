# fatec-conecta-api, the decision rules in Dafny

fatec-conecta-api is an Express/SQLite REST API. It serves the user accounts,
ideas, projects, project–student links, feedback, notifications and courses of
a university–community project platform. Each endpoint is a short pipeline of
checks in front of one database write: a guard, a role or ownership test, an
existence lookup, an empty-patch test, then the write. This project restates
those pipelines as pure Dafny functions from (request fields, session, tables,
clock) to (reply, new table). It also models the middleware:

- the account-lockout component;
- the CSRF guard;
- the authentication and role guards;
- the express-validator rule chains.

All of it is proved in Dafny.

Modelling conventions:

- **JavaScript values.** `Js.Value` has the cases `Undefined | Null | Bool | Num | Str`. Truthiness (`if (x)`, `x || null`), the `!== undefined` test and the binding of `undefined` as SQL NULL are explicit, so the patch rules are exact. Numbers are integers.
- **Tables.** A table is a map from row id to row plus the next AUTOINCREMENT id (`Tables.Table`). An insert hands out a fresh id, which is never reused. A body field refers to a row when it is a number that is a key of that table (`Tables.Refers`).
- **Replies.** A reply is `Ok`, `Created(id)` or `Failed(error)`. Each error stands for the status and message category the handler sends (`Http.Reply.Status`). A handler returns its reply together with the table it leaves behind (`Http.Outcome`). A failed request leaves the table unchanged.
- **Parameters.** The clock is `now` (integer milliseconds) or `today` (the UTC date as a `YYYY-MM-DD` string, which `toISOString().slice(0, 10)` gives). bcrypt is a pair of functions: `hash` for `bcrypt.hash` and `verify` for `bcrypt.compare`. `crypto.randomBytes(32)` is a 32-byte `entropy` argument.
- **Path parameters.** `:id` is the integer row id it denotes.

The modules follow the source files:

- `lockout.dfy` ← `src/middleware/accountLockout.js`
- `csrf.dfy` and `hex.dfy` ← `src/middleware/csrf.js`
- `auth.dfy` ← `src/middleware/auth.js`
- `validation.dfy` and `text.dfy` ← `src/middleware/validation.js`
- `users.dfy`, `ideas.dfy`, `projects.dfy`, `project_students.dfy`, `feedback.dfy`, `notifications.dfy` and `courses.dfy` ← the matching controllers
- `js.dfy`, `sessions.dfy`, `tables.dfy` and `http.dfy` hold the shared vocabulary. The `delete` handlers of the user, course, project-student, feedback and notification controllers are one and the same (`src/controllers/userController.js:181-193`, `src/controllers/courseController.js:40-47`, `src/controllers/projectStudentController.js:89-96`, `src/controllers/feedbackController.js:69-76`, `src/controllers/notificationController.js:47-54`), so they are modelled once, as `Http.DeleteById`.

Where the code and its documentation differ, the model follows the code:

- `login` does not consult the lockout component, so lockout is a standalone state machine.
- The `users` and `ideas` tables the user and idea controllers query are not created by `src/config/database.js`. The model gives them the columns the controllers use, `created_at` included, with UNIQUE `username` and `email` as the duplicate-account handler implies.
- `projectStudentController.update` runs the reference lookups before it learns whether the link exists. So a bad reference on a missing link answers 400, not 404.

## Model

| member | source | states |
|---|---|---|
| Lockout.RemainingMinutes | src/middleware/accountLockout.js:28 | The remaining lock time is rounded up to whole minutes: at least 1, and the last minute is only partly used. |
| Lockout.Check | src/middleware/accountLockout.js:8-51 | An unknown user is reported unlocked and nothing is written. The user is locked exactly while `now` is before the stored lock time, and then the remaining minutes bound the time left from both sides. An expired lock resets the row to zero attempts and no lock and reports unlocked. With no lock, the stored attempt count is reported and nothing is written. |
| Lockout.RecordFailure | src/middleware/accountLockout.js:54-93 | An unknown user records nothing. Otherwise the count goes up by one, treating NULL as 0, and no other user changes. The account locks exactly when the new count reaches 5, until `now` plus 30 minutes. Below 5 the reply is `5 - count`, which lies in 1..4, and the lock column is untouched. |
| Lockout.Reset | src/middleware/accountLockout.js:96-107 | A known user's row becomes zero attempts and no lock, whatever it held. Every other row and the set of users stay. |
| Lockout.ResetIdempotent | src/middleware/accountLockout.js:96-107 | Resetting twice leaves the same table as resetting once. |
| Lockout.ResetThenCheck | src/middleware/accountLockout.js:96-107 | After a reset, a check at any instant reports the user open with 0 attempts. |
| Lockout.ConsistentLater | src/middleware/accountLockout.js:23-32 | The row invariant survives time passing: a lock comes with a count of at least 5 and reaches at most one window ahead. |
| Lockout.OperationsKeepConsistent | src/middleware/accountLockout.js:23-90 | Check, record-failure and reset each keep that row invariant. |
| Lockout.LockedAtMostWindow | src/middleware/accountLockout.js:23-32 | Under the invariant, a reported lock never has more than 30 minutes left. |
| Lockout.FiveFailuresLock | src/middleware/accountLockout.js:65-90 | From a clean row, four failures report 4, 3, 2 and 1 tries left and the fifth locks. A check within the next 30 minutes reports the lock with 1 to 30 minutes left. A check after the window clears the row. |
| Lockout.UnknownUserUntouched | src/middleware/accountLockout.js:17-20 | For a username with no row, none of the three operations changes the table. |
| Hex.Encode | src/middleware/csrf.js:5 | Hex text has two lower-case hex digits per byte. |
| Hex.DecodeEncode | src/middleware/csrf.js:5 | Hex encoding loses nothing: decoding it gives back the bytes. |
| Csrf.GenerateToken | src/middleware/csrf.js:4-6 | A token is 64 lower-case hex characters, and it encodes exactly the 32 random bytes drawn. |
| Csrf.SubmittedToken | src/middleware/csrf.js:20 | The submitted token is the body `_csrf` if truthy, else `x-csrf-token` if truthy, else `csrf-token`. It is truthy iff one of the three is. |
| Csrf.WithToken | src/middleware/csrf.js:13-15 | The session ends up with a token. An existing token is kept, and a session without one gets a freshly generated one. |
| Csrf.Protect | src/middleware/csrf.js:9-54 | GET, HEAD and OPTIONS always pass and leave a token in the session, keeping an existing one. Every other method leaves the session unchanged. It passes iff the session has a token and the submitted token equals it. Refusals come in order: missing token, then no session token, then length mismatch, then content mismatch. |
| Csrf.IssueToken | src/middleware/csrf.js:57-75 | The handed-out token is the one the session now holds. An existing token is handed out unchanged. Otherwise a generated one is stored first. The account fields of the session are untouched. |
| Csrf.IssueTokenIdempotent | src/middleware/csrf.js:57-75 | Asking for the token a second time gives the same token and session as the first time, whatever randomness is drawn. |
| Csrf.SafeRequestKeepsToken | src/middleware/csrf.js:11-17 | A safe-method request never replaces a token the session already holds. |
| Csrf.HandshakePasses | src/middleware/csrf.js:19-75 | Echoing the issued token in the `x-csrf-token` header makes any unsafe request pass, and the session stays as it was. |
| Csrf.WrongTokenRefused | src/middleware/csrf.js:22-51 | An unsafe request whose submitted token differs from the session's token in any way is refused, and the session does not change. |
| Csrf.MismatchesLookAlike | src/middleware/csrf.js:38-51 | A wrong length and wrong content produce the same 403 body. A missing session token shares their `error` text. |
| Auth.RequireAuth | src/middleware/auth.js:2-7 | Allows iff the session carries a truthy user id; otherwise 401. |
| Auth.RequireRole | src/middleware/auth.js:10-20 | 401 iff there is no truthy user id. Allows iff authenticated and the session role is one of the allowed roles. Any other refusal is 403. |
| Auth.RequireStaff | src/middleware/auth.js:22-31 | 401 iff unauthenticated. Allows iff authenticated with role Staff-Admin or Staff-Supervisor. |
| Auth.StaffIsRoleGuard | src/middleware/auth.js:10-31 | `requireStaff` decides every session exactly as `requireRole('Staff-Admin', 'Staff-Supervisor')`. |
| Auth.RoleGuardImpliesAuth | src/middleware/auth.js:10-20 | Every session a role guard admits, `requireAuth` admits too. |
| Auth.RoleGuardMonotone | src/middleware/auth.js:15-19 | Allowing more roles never turns away a session that was admitted. |
| Auth.AuthenticationFirst | src/middleware/auth.js:10-31 | Without a user id the answer is 401 whatever the role holds, so authentication is checked before the role. |
| Validation.HandleValidationErrors | src/middleware/validation.js:4-16 | The request proceeds iff no error was collected. Otherwise it gets 400 with every error in order. |
| Validation.UsernameChecks | src/middleware/validation.js:51-55 | No error iff the trimmed username measures 3 to 50 under `isLength` and uses only `[a-zA-Z0-9_-]`. Errors name only `username`. |
| Validation.EmailChecks | src/middleware/validation.js:56-60 | No error iff the trimmed email passes the email check. Errors name only `email`. |
| Validation.PasswordChecks | src/middleware/validation.js:61-63 | No error iff `isLength` measures the password as at least 6: code points, not counting U+FE0E and U+FE0F. |
| Validation.RoleChecks | src/middleware/validation.js:64-66 | No error iff the role is one of Student, Community, Staff-Admin and Staff-Supervisor. |
| Validation.IdChecks | src/middleware/validation.js:49-50 | No error iff the path id is an integer literal of value at least 1. |
| Validation.TitleChecks | src/middleware/validation.js:92-95 | No error iff `isLength` measures the trimmed title as 3 to 200. |
| Validation.DescriptionChecks | src/middleware/validation.js:96-99 | No error iff `isLength` measures the trimmed description as at least 10. |
| Validation.Required | src/middleware/validation.js:22 | `notEmpty` adds an error iff the value it sees is empty. |
| Validation.RequiredUsernameChecks | src/middleware/validation.js:20-24 | The registration username chain passes iff the trimmed username is present and well formed. |
| Validation.CredentialErrors | src/middleware/validation.js:25-35 | The registration email, password and role chains pass iff the email is present and valid, the password is long enough and the role is known. |
| Validation.UserRegistrationErrors | src/middleware/validation.js:19-37 | Registration passes iff username, email, password and role all satisfy their rules. Errors name only those four fields. |
| Validation.UserLoginErrors | src/middleware/validation.js:39-46 | Login passes iff the trimmed username and the password are non-empty. |
| Validation.UserUpdateErrors | src/middleware/validation.js:48-68 | A user update passes iff the id is a positive integer and each present field satisfies its rule. Absent fields are not checked. |
| Validation.UserIdErrors | src/middleware/validation.js:70-74 | Passes iff the id is a positive integer. Otherwise the single error is 'Invalid user ID' on `id`. |
| Validation.TitleDescriptionErrors | src/middleware/validation.js:78-85 | The required title and description chains pass iff both satisfy their bounds. Errors name only those two fields. |
| Validation.IdeaCreationErrors | src/middleware/validation.js:77-87 | Idea creation passes iff title and description satisfy their bounds. |
| Validation.OptionalTitleDescriptionErrors | src/middleware/validation.js:92-99 | The optional chains pass iff each present field satisfies its bounds. |
| Validation.IdeaUpdateErrors | src/middleware/validation.js:89-101 | An idea update passes iff the id is a positive integer and each present field satisfies its bounds. A bad id is reported first, as 'Invalid idea ID'. |
| Validation.IdeaIdErrors | src/middleware/validation.js:103-107 | Passes iff the id is a positive integer. Otherwise the single error is 'Invalid idea ID' on `id`. |
| Validation.ProjectCreationErrors | src/middleware/validation.js:110-123 | Project creation passes iff title and description satisfy their bounds and any present `ideaId` reads as a positive integer. |
| Validation.ProjectUpdateErrors | src/middleware/validation.js:125-137 | A project update passes iff the id is a positive integer and each present field satisfies its bounds. A bad id is reported first, as 'Invalid project ID'. |
| Validation.ProjectIdErrors | src/middleware/validation.js:139-143 | Passes iff the id is a positive integer. Otherwise the single error is 'Invalid project ID' on `id`. |
| Validation.GoodIdOfNumber | src/middleware/validation.js:49-50 | The id rule accepts the decimal form of an integer exactly when the integer is at least 1. |
| Validation.NumericIdeaId | src/middleware/validation.js:119-121 | With a valid title and description, a numeric `ideaId` is accepted exactly when it is at least 1 and below 10^21. From 10^21 on, JavaScript writes it as `1e+21`, which `isInt` refuses. |
| Validation.AcceptedUsernameShape | src/middleware/validation.js:20-24 | An accepted username is, after trimming, non-empty, 3 to 50 characters, and every character is a letter, digit, `_` or `-`. |
| Text.VisibleLengthWithoutSelectors | src/middleware/validation.js:23-24 | Without U+FE0E or U+FE0F, the `isLength` measure is the number of characters. So a username that matches the pattern measures its full length. |
| Text.VisibleLengthOfConcat | src/middleware/validation.js:81 | The `isLength` measure of two joined texts is the sum of their measures. |
| Text.HeartsMeasureTwo | src/middleware/validation.js:81 | Two emoji hearts, each followed by its presentation selector, measure 2 under `isLength` though they are 4 code points. So as a title they are too short. |
| Text.ExponentNotInt | src/middleware/validation.js:119-121 | The exponent form JavaScript gives numbers from 10^21 on, with or without a minus sign, is never an `isInt` literal. |
| Text.NumberStringIsInt | src/middleware/validation.js:119-121 | `String(n)` of an integer is an `isInt` literal exactly when its magnitude is below 10^21, and then it denotes n. |
| Validation.MissingUsernameChain | src/middleware/validation.js:20-24 | A missing username yields exactly three errors in order: required, length, pattern. |
| Validation.MissingUsernameReportsEveryCheck | src/middleware/validation.js:19-37 | A registration without a username starts its error list with those three username errors, because no chain stops early. |
| Validation.EmptyUserUpdateNeedsOnlyId | src/middleware/validation.js:48-68 | An update body with no fields passes exactly when its id does. |
| Text.TrimShape | src/middleware/validation.js:21 | `trim()` leaves a contiguous slice of its input that does not start or end with whitespace. Everything cut off is whitespace. |
| Text.TrimIdempotent | src/middleware/validation.js:21 | Trimming twice is trimming once. |
| Text.NaturalStringRoundTrip | src/middleware/validation.js:50 | Reading back the decimal digits of a natural number gives the number. |
| Text.DecimalRoundTrip | src/middleware/validation.js:50 | The decimal form of every integer is an `isInt` literal that denotes that integer. |
| Tables.Insert | src/config/database.js:22 | An insert gives the new row an id no existing row has. Every other row is kept, and the table invariant holds. |
| Tables.InsertsGetDistinctIds | src/config/database.js:22 | Two inserts in a row hand out different ids, and both rows are there. |
| Tables.DeletedIdNotReused | src/config/database.js:22 | An id freed by a delete is not handed out by the next insert. |
| Js.Or | src/middleware/csrf.js:20 | JavaScript's `or` of two values is truthy iff either operand is. It is the left operand when that is truthy, else the right. |
| Js.OrNull | src/controllers/projectController.js:25 | Falling back to null keeps a truthy value and turns every falsy one into NULL. |
| Users.Register | src/controllers/userController.js:6-38 | A role outside the four is refused with 400 before hashing or writing. A password that is not a string makes bcryptjs reject, and the reply is 500 with nothing written. A username or email already held by a row is refused with the duplicate error. Otherwise the account gets a fresh id and is stored with the hash in place of the password and the registration instant as `created_at`. No other row changes. |
| Users.Login | src/controllers/userController.js:41-76 | An unknown user is 401 whatever the password. A known user with a password that is not a string makes `bcrypt.compare` reject, so the reply is 500. A wrong password is the same 401 as an unknown user. Every refusal carries no user and leaves the session untouched. Success requires a string password and a row with that username whose hash accepts it. The session then gets that row's id, role and username, and the reply carries id, username, email and role, never the password. |
| Users.LoggedIn | src/controllers/userController.js:59-61 | A successful login authenticates the session with the row's role and username and keeps its CSRF token. |
| Users.GetById | src/controllers/userController.js:99-115 | 404 iff no row has the id. Otherwise the reply is the row's id, username, email, role and `created_at`. |
| Users.Patched | src/controllers/userController.js:134-152 | A truthy username, email or role replaces the column. A truthy password replaces the stored hash with its hash. Falsy fields keep the old values, `created_at` is kept, and `updated_at` is stamped. |
| Users.Update | src/controllers/userController.js:118-178 | Each reply is characterised as an iff. A truthy invalid role is 400 first. Then a truthy password that is not a string is 500. Then no truthy field at all is 400 "No fields to update". Then a missing row is 404. Then a patched username or email held by another row is 400 "already exists". Otherwise the update succeeds: only the target row changes, following the truthy-field patch. Failures write nothing. |
| Http.DeleteById | src/controllers/userController.js:181-193 | 404 iff no row has the id. Otherwise exactly that row is removed, every other row stays and the next id is kept. |
| Users.NamedIsUnique | src/controllers/userController.js:44 | Under the UNIQUE constraints a username names at most one row. |
| Users.LoginDecidesOnTheRow | src/controllers/userController.js:44-71 | Login succeeds iff the password is a string that matches the hash of the one row with that username. It then logs in as that row. |
| Users.RegisterKeepsUnique | src/controllers/userController.js:19-26 | Registration never creates two accounts with the same username or email. |
| Users.UpdateKeepsUnique | src/controllers/userController.js:159-168 | An update never makes two accounts share a username or email. |
| Users.DeleteKeepsUnique | src/controllers/userController.js:184-192 | Deletion keeps usernames and emails unique. |
| Users.RegisterTwiceRefused | src/controllers/userController.js:23-26 | Registering an existing username again with a string password is refused with the duplicate error, and nothing changes. |
| Users.RegisterThenLogin | src/controllers/userController.js:6-71 | A freshly registered account logs in with its password as itself. The session gets its new id, its role and its username. |
| Users.RegisterThenGetById | src/controllers/userController.js:6-115 | A registered account is found by `getById` with the submitted username, email and role, and with `created_at` set to the instant it was registered. |
| Ideas.Create | src/controllers/ideaController.js:5-28 | A role other than Community is refused with 403 and nothing is inserted. Otherwise the idea gets a fresh id and is owned by the session's user id. |
| Ideas.Update | src/controllers/ideaController.js:69-116 | 404 for a missing idea comes first, then 403 for anyone but the owner, then 400 when neither title nor description is truthy. The owner with a truthy field always succeeds. Then only the truthy fields and `updated_at` change, and the owner and other rows are kept. |
| Ideas.Delete | src/controllers/ideaController.js:119-142 | 404 for a missing idea, then 403 for anyone but the owner. The owner's delete always succeeds and removes exactly that idea. |
| Ideas.GetById | src/controllers/ideaController.js:47-66 | Found iff the idea exists and its owner row exists. The reply joins the owner's username and role. |
| Ideas.CreatorCanUpdate | src/controllers/ideaController.js:5-116 | The session that created an idea can retitle it, and the description stays as created. |
| Ideas.CreatorCanDelete | src/controllers/ideaController.js:5-142 | The session that created an idea can delete it. The table is then as before the creation, and `getById` finds nothing. |
| Ideas.NoStaffOverride | src/controllers/ideaController.js:82-133 | A staff session that does not own an idea gets 403 on update and delete, and nothing changes. |
| Ideas.OwnershipBeforeEmptyPatch | src/controllers/ideaController.js:82-100 | A non-owner with an empty patch gets 403, not 400. |
| Ideas.OnlyCommunityCreates | src/controllers/ideaController.js:11-13 | A Student or Staff session can never create an idea. |
| Projects.NewProjeto | src/controllers/projectController.js:25 | A created project stores the given title and references. Falsy `descricao`, `prazo`, `status` and `feedback` become NULL. |
| Projects.Create | src/controllers/projectController.js:3-33 | Non-staff get 403 first. A missing Curso is 400 before a missing Proposta is. A project is inserted iff the session is staff and both references exist, and it then refers to existing rows. Failures write nothing. |
| Projects.Patch | src/controllers/projectController.js:82-88 | Every column follows the `!== undefined` rule: a supplied value, null included, replaces it, and an omitted one keeps it. |
| Projects.Update | src/controllers/projectController.js:69-129 | Non-staff get 403, and only they do. Then a missing project is 404, then no field is 400. Then the supplied Curso and then the supplied Proposta are checked, each 400 when missing. A staff update of an existing project with a field and valid references always succeeds. Only the target row changes, column by column under the `!== undefined` rule. |
| Projects.Delete | src/controllers/projectController.js:132-143 | Non-staff get 403, then a missing project is 404. Otherwise exactly that project is removed. |
| Projects.GetById | src/controllers/projectController.js:51-66 | Found iff the project exists and both its course and proposal exist. The reply joins the course name and the proposal's title and description. |
| Projects.WritesKeepRefsIntact | src/controllers/projectController.js:15-127 | Create, update and delete never leave a project pointing at a missing course or proposal. |
| Projects.CreatedIsVisible | src/controllers/projectController.js:3-66 | A project just created is found by `getById` with the stored row. |
| Projects.StaffGateFirst | src/controllers/projectController.js:9-136 | For a non-staff session create, update and delete answer the same whatever the table holds, so no lookup precedes the staff check. |
| Projects.NullIsWritten | src/controllers/projectController.js:82-90 | An update supplying nulls writes NULL into exactly those columns. |
| ProjectStudents.Create | src/controllers/projectStudentController.js:4-18 | A missing project is 400 before a missing user is. A link is inserted iff both exist. |
| ProjectStudents.Update | src/controllers/projectStudentController.js:48-88 | No supplied field is 400 before any lookup. Then the supplied project and the supplied user are checked, in that order. A missing link is 404 only after that. Otherwise the update succeeds and only the supplied references change. |
| ProjectStudents.GetById | src/controllers/projectStudentController.js:32-47 | Found iff the link, its user and its project exist. The reply joins the user's name and the project's title. |
| ProjectStudents.WritesKeepLinksIntact | src/controllers/projectStudentController.js:4-88 | Create, update and delete never store a link to a missing project or user. |
| ProjectStudents.RefCheckBeforeNotFound | src/controllers/projectStudentController.js:56-87 | A bad project reference on a missing link answers 400, not 404. |
| ProjectStudents.UpdateThenGet | src/controllers/projectStudentController.js:32-88 | Moving a link to an existing project and user succeeds, and `getById` then shows the new link. |
| Feedbacks.Create | src/controllers/feedbackController.js:4-23 | A missing user is 400 before a missing project is. Feedback is inserted iff both exist. A falsy comment or attachment is stored as NULL, and a falsy date becomes today's date. |
| Feedbacks.Update | src/controllers/feedbackController.js:53-68 | No supplied comment, attachment or date is 400. A missing row is 404. Otherwise the update succeeds: those three columns follow the `!== undefined` rule, and the user and project never change. |
| Feedbacks.GetById | src/controllers/feedbackController.js:37-52 | Found iff the feedback, its user and its project exist. The reply joins the user's name and the project's title. |
| Feedbacks.ReferencesInBodyIgnored | src/controllers/feedbackController.js:53-61 | The user and project fields of an update body have no effect on the outcome. |
| Feedbacks.AuthorAndProjectFixed | src/controllers/feedbackController.js:53-68 | Over any sequence of updates a feedback keeps the user and project it was created with. |
| Feedbacks.CreateDefaults | src/controllers/feedbackController.js:14-15 | Feedback created without comment, attachments or date stores NULL, NULL and today's date. |
| Notifications.Create | src/controllers/notificationController.js:4-16 | A missing user is 400 and nothing is inserted. Otherwise the notification is inserted with the given message and user, and a falsy date becomes today's date. |
| Notifications.Update | src/controllers/notificationController.js:31-46 | No supplied field is 400, then a missing row is 404. Otherwise the update succeeds: message, date and user follow the `!== undefined` rule, with no check on the user. |
| Notifications.GetById | src/controllers/notificationController.js:23-30 | Found iff the notification and its user exist. The reply joins the user's name. |
| Notifications.UpdateAcceptsMissingUser | src/controllers/notificationController.js:23-46 | Re-addressing a notification to a user id with no row succeeds in the controller. Afterwards `getById` no longer finds it. |
| Notifications.CreateOnlyForExistingUser | src/controllers/notificationController.js:4-30 | A notification just created is always found by `getById`. |
| Courses.Create | src/controllers/courseController.js:4-10 | The course gets a fresh id and the given name. A falsy description is stored as NULL, and no other course changes. |
| Courses.GetById | src/controllers/courseController.js:17-24 | 404 iff no course has the id. Otherwise the reply is that row. |
| Courses.Update | src/controllers/courseController.js:25-39 | No supplied field is 400, then a missing course is 404. Otherwise the update succeeds: name and description follow the `!== undefined` rule, and other courses stay. |
| Courses.CreateThenGet | src/controllers/courseController.js:4-24 | What `create` stored is what `getById` returns. |
| Courses.UpdateWithCurrentValues | src/controllers/courseController.js:25-39 | Writing back a course's own values leaves the table unchanged. |
| Courses.DeletedIsGone | src/controllers/courseController.js:17-47 | After a delete, `getById`, an `update` that supplies a field, and a second `delete` all answer 404. |

## Left out

- Database failures and the 500 replies they cause are not modelled, and neither are the store's own constraints: NOT NULL, foreign keys under `PRAGMA foreign_keys = ON`, and `ON DELETE CASCADE`. The model shows what the controllers decide. A write the store would refuse, such as a notification re-addressed to a missing user, is shown as accepted by the controller.
- SQLite type affinity is not modelled. A body reference counts only when it is a JSON number, and a string such as `"3"` is treated as matching no row. Stored usernames and emails are compared as given, so a number and its decimal string are different.
- `:id` path parameters are taken as the integer they denote. A parameter that denotes no integer behaves like an id no row has.
- bcrypt internals, `crypto.randomBytes` and the timing of `timingSafeEqual` are parameters or plain equality. bcryptjs refusing a password that is not a string is modelled as the 500 it causes (`Http.Error.IllegalArguments`).
- Csrf.Protect: when the two tokens have the same JavaScript length but different UTF-8 byte lengths, `timingSafeEqual` throws and the request ends in a 500. The model refuses such a token with a mismatch instead. JavaScript `.length` counts UTF-16 code units and the model counts characters.
- Lockout: `setMinutes` works on local wall-clock time, so across a daylight-saving change the lock window is not exactly 30 × 60000 ms. The model uses exactly 30 minutes.
- Lockout: the read-then-write in `recordFailedLogin` is not atomic, and concurrent failures can lose an increment. The model is sequential.
- Users.Login: when several rows share a username, which one SQLite returns is left unspecified. Under the UNIQUE constraint there is only one (`Users.LoginDecidesOnTheRow`).
- `logout` (session destruction) and the `getAll` listings of every controller are left out: they make no decision. Their joins are the same as the `getById` joins, which are modelled.
- express-validator's `isEmail` is a parameter, and `normalizeEmail` is not modelled because it changes only the value the handler later reads.
- Request bodies holding objects or arrays, and non-integer numbers, are not modelled.
- JSON numbers are exact integers in the model. JavaScript holds them as doubles, so an integer beyond 2^53 is rounded before any rule sees it, and `String` gives its rounded digits. The model's `Text.NumberString` keeps every digit. This affects `Validation.AsString` and the exponent form written from 10^21 on.
- Routes, server and session configuration, the logger and the Python seed scripts are wiring and I/O. None of the validators is attached to a route in the source. Neither is the CSRF guard: `src/server.js` mounts no `csrfProtection`, `provideCsrfToken` or `getCsrfToken`, and no route file imports it. Every route except register and login sits behind `requireAuth`.
- Controller response messages are not modelled beyond the status and error category. The CSRF 403 bodies (`Csrf.Response`) and the validation messages, with their fields and order, are modelled.
