# e-Docs access control: login lockout, audit trail and access rules

This project is a Dafny model of the security core of the e-Docs document-management application. It proves properties of that model. It covers four parts:

- **Login with account lockout** (`postLogin`). The user is looked up by username. An inactive account is refused with 403. A wrong password raises `failedAttemptCount`, and at `MAX_FAILED_ATTEMPTS = 3` the account is deactivated. A correct password resets the count, resolves the role name (`"viewer"` when the role row is missing) and issues a token. Every branch except an unknown username writes exactly one audit event: `LOGIN_BLOCKED_INACTIVE`, `ACCOUNT_LOCKED`, `LOGIN_FAILED` or `USER_LOGIN`. `postLogout` and `getMe` write `USER_LOGOUT` and `SESSION_CHECK` to the same log.
- **Audit-log listing** (`getAllAuditLogs`). It returns the 100 newest rows, newest first, without `updatedAt` and joined with their user. Then it appends a `VIEW_AUDIT_LOGS` event that records how many rows were returned.
- **User creation and listing** (`postUsers`, `getAllUsers`). Creation validates the fields, refuses a username that is taken and stores the bcrypt hash. Listing projects the rows of the Users table.
- **Client-side rules of the documents page.** These are role gating (`canCreateOrEdit`, `isAdmin`), the case-insensitive search filter, the admin guard of `handleDelete`, and the colour of `StatusBadge`.

## Structure

- `Store.Database` is a class that holds the Users table (`users`, in insertion order), the Roles table (`roles`), the append-only AuditLogs table (`log`) and the next user id. Its `Valid()` says:
  - ids and usernames are unique;
  - every id is below the next auto-increment value;
  - audit ids run 1, 2, 3, … in insertion order.
- The controllers are methods that take the database and state their whole effect on it.
- A row fetched with `findOne` is a value copy. The controller changes the copy step by step, and `Database.Save` writes it back, as `user.save()` does.
- `Lockout.Attempt` states as a pure function what one attempt does to a found account. `PostLogin` looks the user up and hands a found row to `LoginFound`. Both are proved against `Attempt`. The lockout properties are proved as lemmas about `Attempt`.
- `bcrypt.compare`, `bcrypt.hash` and `generateToken` are passed in as function parameters: `verify`, `hash` and `token`. The client IP and the time of the request (`now`, which becomes `createdAt`) are inputs.
- ASCII lower-casing, `String.prototype.includes` and the decimal rendering of the threshold in the lockout message are in `Text`.

Two behaviours of the code worth noting:
- An unknown username gives 401 with the same message as a wrong password (`auth.controller.ts:97-99`). It writes no audit event.
- The lockout branch writes its audit row before `save()`, and the plain-failure branch writes it after. The end state is the same, so the model does not tell the two orders apart.

## Model

| member | source | states |
|---|---|---|
| `Lockout.Attempt` | App-e-Docs/backend/src/controllers/auth.controller.ts:102-183 | one attempt on a found account never changes its id, username, password hash or role |
| `Lockout.InactiveIsUntouched` | App-e-Docs/backend/src/controllers/auth.controller.ts:102-117 | an inactive account is blocked and left exactly as it was, whatever the password |
| `Lockout.WrongPasswordCounts` | App-e-Docs/backend/src/controllers/auth.controller.ts:122-174 | a wrong password on an active account sets the count to the old count (null read as 0) plus one; the account is locked with outcome `Locked(n)` exactly when the new count reaches 3, and is otherwise `Rejected(n)` and stays active |
| `Lockout.CorrectPasswordResets` | App-e-Docs/backend/src/controllers/auth.controller.ts:177-183 | a correct password on an active account is accepted and leaves it active with count 0; the row changes exactly when the count was positive |
| `Lockout.AttemptKeepsBelowThreshold` | App-e-Docs/backend/src/controllers/auth.controller.ts:122-175 | if an active account has fewer than 3 failures before an attempt, that still holds after it |
| `Lockout.RepeatedWrongPasswords` | App-e-Docs/backend/src/controllers/auth.controller.ts:122-156 | from an active account with c < 3 failures, n wrong passwords leave it active with c + n failures while c + n < 3, and otherwise inactive with exactly 3 |
| `AuthController.ResolveRoleName` | App-e-Docs/backend/src/controllers/auth.controller.ts:185-186 | the token's role name is the stored role's name, or "viewer" when the role row is missing, so it is always one of viewer, editor and admin |
| `AuthController.PostLogin` | App-e-Docs/backend/src/controllers/auth.controller.ts:88-221 | unknown username: 401, nothing written. Otherwise the row becomes `Attempt`'s result and exactly one event is appended: 403 with `LOGIN_BLOCKED_INACTIVE`; 401 with the threshold message and `ACCOUNT_LOCKED` carrying the attempts and "LOCKED"; 401 with `LOGIN_FAILED` carrying the attempt count; or 200 with `USER_LOGIN` carrying the role, a token over {id, roleId, roleName, username} and the projection {id, username, roleId}. Every active account still has fewer than 3 failures, and the log only grows, by at most one row |
| `AuthController.LoginFound` | App-e-Docs/backend/src/controllers/auth.controller.ts:102-217 | once row i is found, the row becomes `Attempt`'s result and the response and the one appended event are those of the outcome (the same per-branch statement as `PostLogin`); every active account still has fewer than 3 failures |
| `AuthController.PostLogout` | App-e-Docs/backend/src/controllers/auth.controller.ts:223-241 | always 200 with no payload; appends `USER_LOGOUT` exactly when the caller's id is present and nonzero, and changes nothing else |
| `AuthController.GetMe` | App-e-Docs/backend/src/controllers/auth.controller.ts:243-261 | returns the caller's claims unchanged and appends exactly one `SESSION_CHECK` row for the caller |
| `AuthController.LockoutScenario` | App-e-Docs/backend/src/controllers/auth.controller.ts:97-175 | on a new active account, two wrong passwords give the generic 401, the third gives the lockout 401, and a fourth attempt gives 403 even with the right password |
| `AuthController.RecoveryScenario` | App-e-Docs/backend/src/controllers/auth.controller.ts:177-217 | two wrong passwords and then the right one log in with status 200, and leave the account active with its count reset to 0 |
| `Lockout.FailedCount` | App-e-Docs/backend/src/controllers/auth.controller.ts:126 | the count falls back to 0: a null count reads as 0, and a stored count reads as itself |
| `AuthController.LockedMessage` | App-e-Docs/backend/src/controllers/auth.controller.ts:153 | the lockout message is "Password salah. Akun dinonaktifkan karena 3 kali gagal login." |
| `Text.NatToDecimal` | App-e-Docs/backend/src/controllers/auth.controller.ts:153 | the threshold is rendered as a non-empty string of decimal digits, one digit for a number below ten |
| `Text.NatToDecimalSpells` | App-e-Docs/backend/src/controllers/auth.controller.ts:153 | the rendered digits, read back most significant first, spell exactly n, and there is no leading zero |
| `Store.Database.CreateAuditLog` | App-e-Docs/backend/src/models/auditLogs.model.ts:37-80 | `AuditLog.create` appends exactly one row with the next id and both timestamps set to the time of the insert, and changes nothing else |
| `AuditModel.NextEntryKeepsSequentialIds` | App-e-Docs/backend/src/models/auditLogs.model.ts:37-80 | appending the next row to a log whose ids run 1, 2, 3, … keeps them running so, and the new id exceeds every id already in the log |
| `Store.Database.Save` | App-e-Docs/backend/src/controllers/auth.controller.ts:149 | `user.save()` replaces only the fetched row and keeps the table valid |
| `Store.Database.Create` | App-e-Docs/src/controllers/users.controller.ts:65-70 | `Users.create` appends one row under the next id; usernames stay unique, as the `unique: true` constraint on the username column (`src/models/users.model.ts:43-47`) requires |
| `UsersModel.FindByUsername` | App-e-Docs/backend/src/controllers/auth.controller.ts:95 | `findOne` by username returns a row with that username, and returns nothing exactly when no row has it |
| `UsersModel.FindById` | App-e-Docs/backend/src/controllers/audit.controller.ts:11-17 | the join finds a row with that primary key, and finds nothing exactly when no row has it |
| `UsersModel.FirstIndex` | App-e-Docs/src/controllers/users.controller.ts:55 | the scan returns the first row that satisfies the condition, and returns nothing exactly when no row does |
| `AuditController.InsertByCreatedAt` | App-e-Docs/backend/src/controllers/audit.controller.ts:19 | inserting into a newest-first list keeps it newest first and adds exactly that row |
| `AuditController.SortByNewest` | App-e-Docs/backend/src/controllers/audit.controller.ts:19 | the result is ordered by `createdAt`, newest first, and is a permutation of the log |
| `AuditController.SplitNewestFirst` | App-e-Docs/backend/src/controllers/audit.controller.ts:19-20 | cutting a newest-first list leaves a newest-first prefix, and nothing after the cut is newer than anything before it |
| `AuditController.SelectNewest` | App-e-Docs/backend/src/controllers/audit.controller.ts:10-21 | at most 100 rows, exactly min(100, log size), newest first, all taken from the log, and no row left out is newer than a returned one |
| `AuditController.ToView` | App-e-Docs/backend/src/controllers/audit.controller.ts:11-18 | a returned row is the log row without `updatedAt` (adding it back gives the row again); its user is {id, username, roleId} of the row with that id, or null when there is none |
| `AuditController.AuditListing` | App-e-Docs/backend/src/controllers/audit.controller.ts:10-21 | the listing has exactly min(100, log size) rows, and no listed row is newer than one listed before it |
| `AuditController.ListedRowsComeFromLog` | App-e-Docs/backend/src/controllers/audit.controller.ts:10-21 | every listed row is the view of some row of the log |
| `AuditController.ListedRowsAreLogged` | App-e-Docs/backend/src/controllers/audit.controller.ts:10-36 | every listed row comes from the log read, so its id is at most the log's length |
| `AuditController.GetAllAuditLogs` | App-e-Docs/backend/src/controllers/audit.controller.ts:8-49 | returns 200 with the listing and `total` equal to its length; appends exactly one `VIEW_AUDIT_LOGS` row with `recordsViewed` equal to that length; leaves earlier rows unchanged; the new row is not in the listing |
| `UsersController.PostUsers` | App-e-Docs/src/controllers/users.controller.ts:44-92 | a missing or empty username or password, a missing or zero role id, or an `isActive` that is missing or false gives 400 and no insert; a username already in use gives 409 and no insert; otherwise exactly one row is added with the given username, role and active flag, the hash of the password and the next id, and the response holds only id, username, roleId and isActive; usernames stay unique |
| `UsersController.ListingIgnoresNonAttributes` | App-e-Docs/src/controllers/users.controller.ts:16-25 | an excluded name that is not an attribute of the model changes nothing: the listing equals the one excluding only the attributes among the names |
| `UsersController.ListingHasPasswordIff` | App-e-Docs/src/controllers/users.controller.ts:16-25 | a listed row has a `password` column exactly when `password` itself is not among the excluded names |
| `UsersController.GetAllUsersAsWritten` | App-e-Docs/src/controllers/users.controller.ts:14-31 | one listed row per user |
| `UsersController.AsWrittenListingExposesHash` | App-e-Docs/src/controllers/users.controller.ts:24 | with `exclude: ["passwordHash", "updatedAt"]`, every listed user still has a `password` column holding its hash |
| `UsersController.GetAllUsers` | App-e-Docs/src/controllers/users.controller.ts:14-31 | with the hash column excluded, each user is listed in table order with the modelled attributes id, username, roleId and isActive, each holding that user's value, plus its role name or null when the role row is missing; no row has a password |
| `UsersController.HasRequiredFields` | App-e-Docs/src/controllers/users.controller.ts:49 | a missing or empty username or password, a missing or zero role id, or an `isActive` other than `true` fails the check; the check passes exactly when all four are present and truthy |
| `DocumentsPage.CanCreateOrEdit` | App-e-Docs/frontend/app/page.tsx:43-54 | true exactly when a user is loaded and their role name is "admin" or "editor" |
| `DocumentsPage.IsAdmin` | App-e-Docs/frontend/app/page.tsx:56 | a user is an admin exactly when they may create and edit and their role is not "editor" |
| `DocumentsPage.AdminCanEdit` | App-e-Docs/frontend/app/page.tsx:43-56 | `isAdmin` implies `canCreateOrEdit`; an editor may edit but is not an admin |
| `Text.Lower` | App-e-Docs/frontend/app/page.tsx:228-230 | lower-casing keeps the length, maps each ASCII capital to its small letter (code point plus 32), leaves no capital and leaves every other character as it was |
| `Text.Includes` | App-e-Docs/frontend/app/page.tsx:228-230 | every text includes the empty term, and a text includes only terms no longer than itself |
| `Text.IncludesIsSubstring` | App-e-Docs/frontend/app/page.tsx:228-230 | `includes` holds exactly when the term occurs at some position of the text |
| `DocumentsPage.MatchesSearch` | App-e-Docs/frontend/app/page.tsx:227-230 | a document matches exactly when the lower-cased term occurs at some position of its lower-cased title, creator username or status |
| `DocumentsPage.FilterDocuments` | App-e-Docs/frontend/app/page.tsx:226-231 | the filtered list is no longer than the documents, and every document in it matches the term |
| `DocumentsPage.FilterKeepsExactlyMatches` | App-e-Docs/frontend/app/page.tsx:226-231 | a document is kept exactly when it is in the list and the lower-cased term occurs in its lower-cased title, creator username or status |
| `DocumentsPage.FilterKeepsMultiplicity` | App-e-Docs/frontend/app/page.tsx:226-231 | a matching document occurs in the result as many times as in the input, and any other document not at all |
| `DocumentsPage.FilterIsSubsequence` | App-e-Docs/frontend/app/page.tsx:226-231 | the filtered list is an order-preserving subsequence of the documents |
| `DocumentsPage.EmptyTermKeepsAll` | App-e-Docs/frontend/app/page.tsx:226-231 | an empty search term keeps every document, in order |
| `DocumentsPage.HandleDelete` | App-e-Docs/frontend/app/page.tsx:136-215 | a non-admin gets the access-denied warning; a delete request is issued exactly when an admin confirms and a non-empty token is stored, and it targets the given slug with that token; a confirmed admin with no token or an empty one is sent to login |
| `DocumentsPage.StatusColor` | App-e-Docs/frontend/app/page.tsx:432-442 | case-sensitive: green exactly for "PUBLISHED" or "approved", yellow exactly for "DRAFT", red exactly for "ARCHIVED", gray for everything else, including an empty or missing status |
| `DocumentsPage.ColorClass` | App-e-Docs/frontend/app/page.tsx:435-442 | each colour is rendered with its own class string, and each of the four class strings belongs to exactly one colour |

## Findings

| source | as written | input that shows it | evidently intended | confidence | as-written member | corrected member |
|---|---|---|---|---|---|---|
| App-e-Docs/src/controllers/users.controller.ts:24 | `getAllUsers` excludes `"passwordHash"`. The Users model has no attribute by that name: the hash column is `password` (`users.model.ts:48-52`). Sequelize ignores excluded names that are not attributes. | Any non-empty Users table. Each listed row contains `password` with the stored bcrypt hash. | The listing should leave out the hash column | medium (not executed) | `UsersController.AsWrittenListingExposesHash` | `UsersController.GetAllUsers` |

## Left out

- Password and token primitives. bcrypt and `generateToken` are function parameters. Their cryptographic behaviour is not modelled, and neither is the random salt of `bcrypt.hash`. For `PostUsers`, the model therefore says the row stores `hash(password)`. It does not say that this differs from the plaintext.
- Express, `getIpAddress`, `sendSuccess` and `sendError`. A response is (status, message, payload), and the IP is an input. The 400 body of `postUsers` puts its text under the key `massage`. The model keeps the text as the message and does not model key names.
- The `catch` paths (status 500) are left out. So are faults of the store, the hash function and the token function, and a `findOne` with an undefined username.
- Sequelize. `findOne`, `findAll`, `save` and `create` are modelled only by their effect on the tables. Column widths, defaults, foreign keys and `sync` are not modelled, and neither are the Users rows' `createdAt` and `updatedAt` (which `save()` refreshes).
- Username matching is exact string equality. A case-insensitive database collation is not modelled.
- `UsersController.PostUsers`: users created here get a null `failedAttemptCount`, because `src/models/users.model.ts` declares no such column. Login reads null as 0.
- `AuditController.SortByNewest`: rows with the same `createdAt` keep their log order. SQL leaves the order of such ties unspecified.
- Concurrency: two logins on one row, and an audit write that fails. The un-awaited audit write of `postLogout` is modelled as a plain append.
- `UsersController.GetAllUsers`: the Users rows' `createdAt` and `updatedAt` (`users.model.ts:62-66`) are not modelled. Sequelize would list `createdAt` too, because only `updatedAt` is excluded. The model's listing therefore states only the four modelled attributes.
- `AuthController.PostLogout`: the logout route (`backend/src/routes/auth.route.ts:9`) does not run `authenticateToken`, so, with the routes of `backend/src/routes/auth.route.ts` and no global middleware in `backend/src/server.ts:20-36`, nothing sets `req.user` on logout and no `USER_LOGOUT` row is written (not executed). The model takes the caller's claims as an input and covers both the absent and the present caller.
- The old, commented-out `postLogin`, server start-up, routes, and the `authenticateToken` and `authorizeRole` middleware. The middleware (`backend/src/middleware/auth.middleware.ts`) is not part of this model. The caller's identity comes in as `Claims`. Restricting the audit listing to admins is the middleware's job and is not modelled.
- Frontend runtime: React state, `fetch`, `localStorage`, routing, SweetAlert dialogs, JSX, date formatting and the upper-cased badge label. `toLowerCase` is ASCII-only. `handleDelete` is modelled up to the delete request it issues. The response handling after that request is not modelled.
