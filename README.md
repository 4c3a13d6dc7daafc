# Task manager service — a Dafny model

This project models the core of a small task-manager web service: a JSON API
with user accounts, signed bearer tokens and a task list. The model covers:

- **Accounts** (`auth.dfy`, `user_store.dfy`, `credentials.dfy`). Registration
  adds exactly one row under the next rowid. The row gets the default role "user",
  is active, and stores a hash of the password, never the password itself.
  Login answers 401 for an unknown e-mail or a wrong password (the two cannot
  be told apart) and 403 for an inactive account. Otherwise it returns an
  access/refresh token pair.
- **Tokens** (`tokens.dfy`, `auth.dfy`). An access token carries the subject,
  the role and `type = "access"`, and lives 30 minutes. A refresh token carries
  the subject and `type = "refresh"`, and lives 7 days. The current-user
  dependency accepts only live access tokens. The refresh route accepts only
  live refresh tokens and mints a new pair. The subject is written with
  `str(id)` and read back with `int()`. A subject that does not parse is an
  unhandled error (500).
- **Administration** (`admin.dfy`). Listing and deleting users first resolve the
  caller, then require the admin role of the caller's *stored* row. The token's
  role claim is never consulted. Delete answers 404 for a missing id, and 500
  for an id outside the store's signed 64-bit integers.
- **Tasks** (`task_router.dfy`, `task_store.dfy`, `sql_order.dfy`):
  - create;
  - list, with filters for status and priority, sorting by a named column
    (falling back to `created_at`), ascending or descending, and OFFSET/LIMIT
    pagination;
  - get by id (404 when missing, 500 for an id outside 64 bits);
  - partial update (PATCH), which overwrites only the fields present in the
    request body and, when a value changed, stamps `updated_at`;
  - delete.
- **Models and schemas** (`user_model.dfy`, `task_model.dfy`,
  `user_schemas.dfy`, `task_schemas.dfy`). These hold the closed enumerations,
  the column defaults, and the length and range constraints. The request
  validation layer checks those constraints before a handler runs. The model
  reports a failed check as 422.

Errors are values: `Http.Result` is `Ok(value)` or `Err(error)`. `Http.Error`
lists the status codes the handlers and the framework produce.

Each table is a class (`UserStore.UserTable`, `TaskStore.TaskTable`) with a
`map` from primary key to row. Its methods state the whole new state. Both
primary keys are SQLite `INTEGER PRIMARY KEY` columns without AUTOINCREMENT,
so a new row gets the largest id present plus one (`OrderedKeys.NextRowId`).
Ids are therefore not reserved: after the newest row is deleted, its id goes to
the next row inserted, and a live token of a deleted user can then
authenticate as the newcomer (`Auth.StaleTokenAfterIdReuse`). The routes that change a table are methods over it. The routes
that only read a table are functions over a snapshot of its map.

A query without ORDER BY returns rows in ascending primary-key order
(`OrderedKeys.Scan`). ORDER BY follows the store's ordering of values: NULL
first, then integers, then text compared code point by code point
(`SqlOrder.ValueLe`). A sort is stated by two properties: the result is
ordered by the key, and it is a permutation of its input.

Clocks, salts and randomness are parameters:

- `now` is in seconds;
- `stamp` is the server-side timestamp given to an inserted row, or written
  into `updated_at` by an update;
- `salt` is the bcrypt salt.

## Model

| member | source | states |
|---|---|---|
| Text.IntToString | app/routers/auth.py:117-120 | `str(id)` is non-empty, and starts with '-' exactly for a negative id |
| Text.ParseInt | app/routers/auth.py:152 | `int(sub)`: the empty string and a lone "-" do not parse; the sign of the result follows the leading '-' |
| Text.ParseIntToString | app/routers/auth.py:190 | `int(str(id)) == id` for every integer id: the subject written into a token reads back as that id |
| Text.IntToStringInjective | app/routers/auth.py:118 | different ids give different subject strings |
| Text.Lower | app/routers/task.py:46 | `order.lower()` on ASCII: the length is kept, each of 'A'..'Z' becomes its lower-case letter, every other character is unchanged |
| OrderedKeys.Ascending | app/routers/task.py:35 | the keys of a table, strictly increasing, each once |
| OrderedKeys.Scan | app/routers/admin.py:27-28 | `select(...)` without ORDER BY yields as many rows as keys, and a value is among them exactly when it is a stored row |
| OrderedKeys.ScanInKeyOrder | app/routers/admin.py:27-28 | row `i` of the scan is the row stored under the `i`-th smallest key |
| OrderedKeys.NextRowId | app/models/user.py:16 | the id of a new row is not in use, exceeds every id in use, is 1 for an empty table and otherwise one more than the largest id |
| OrderedKeys.NewestIdReused | alembic/versions/b1_add_users_table.py:24-32 | after the row with the largest id is deleted, the next insert gets that same id (when the id below it is in use, or it was the only row, id 1) |
| SqlOrder.ValueLeTotal | app/routers/task.py:45-49 | any two column values are comparable |
| SqlOrder.ValueLeTransitive | app/routers/task.py:45-49 | the column ordering is transitive |
| SqlOrder.SortBy | app/routers/task.py:46-49 | ORDER BY `asc`/`desc`: the result is ordered by the key in the direction asked, and is a permutation of the input |
| SqlOrder.OffsetLimit | app/routers/task.py:52-53 | OFFSET/LIMIT: at most `limit` rows; row `i` of the result is row `offset + i` of the input; empty past the end; every row of the window is a row of the input |
| SqlOrder.OffsetLimitOrdered | app/routers/task.py:52-53 | a window of an ordered result is still ordered |
| Credentials.HashPassword | app/routers/auth.py:25-28 | the digest is made with the given (random) salt |
| Credentials.VerifyOwnHash | app/routers/auth.py:31-35 | `VerifyPassword` (bcrypt's check) accepts a password against its own hash, whatever the salt |
| Credentials.WrongPasswordRejected | app/routers/auth.py:31-35 | `VerifyPassword` rejects a password other than the one the digest was made from |
| UserModel.ParseRole | app/models/user.py:8-10 | exactly "user" and "admin" are roles, each reading back to the role that spells it |
| UserModel.NewUser | app/models/user.py:20-21 | a row made without role or flag gets role "user" and is active |
| TaskModel.ParseStatus | app/models/task.py:8-11 | exactly "todo", "in_progress" and "done" are statuses, each reading back to the one that spells it |
| TaskModel.ParsePriority | app/models/task.py:14-18 | exactly "low", "medium", "high" and "urgent" are priorities, each reading back to the one that spells it |
| Tokens.CreateToken | app/routers/auth.py:38-47 | the token is signed with the configured key and algorithm, keeps the given claims, and sets `type` and `exp = now + delta` |
| Tokens.CreateAccessToken | app/routers/auth.py:50-54 | type "access", expiry 60 × `access_token_expire_minutes` seconds after issue |
| Tokens.CreateRefreshToken | app/routers/auth.py:57-61 | type "refresh", expiry 60 × `refresh_token_expire_minutes` seconds after issue |
| Tokens.Decode | app/routers/auth.py:177-182 | claims come back exactly for a token signed with the configured key and algorithm that has not yet expired |
| Tokens.DecodeCreated | app/routers/auth.py:38-47 | a created token decodes to its claims until its expiry, and not after |
| Tokens.ForeignTokenRejected | app/routers/auth.py:140-144 | a token signed under another key or algorithm never decodes |
| Tokens.TokenTypesDiffer | app/routers/auth.py:50-61 | access and refresh tokens always carry different `type` claims |
| Tokens.DefaultLifetimes | app/config.py:7-10 | under the default settings tokens are signed with HS256, access tokens live 1800 seconds and refresh tokens 604800 |
| UserSchemas.ToUserResponse | app/schemas/user.py:29-36 | the response carries every column of the row except the password hash |
| UserSchemas.ResponseIgnoresHash | app/schemas/user.py:29-36 | rows that differ only in their hash give the same response |
| UserSchemas.ResponseKeepsOtherColumns | app/schemas/user.py:29-36 | rows that differ in any other column give different responses |
| UserSchemas.NewTokenPair | app/schemas/user.py:39-42 | a token response built without a type label says "bearer" |
| TaskSchemas.TaskCreateWithDefaults | app/schemas/task.py:9-14 | a create request with only a title has status "todo", priority "medium", no description and no due date |
| TaskSchemas.AssignedFields | app/routers/task.py:79 | `model_dump(exclude_unset=True)`: a field is in the update data, with its value, exactly when the request sent it (null included); an empty body gives no data |
| TaskSchemas.ToTaskResponse | app/schemas/task.py:29-35 | the response carries every task column except the owner reference |
| UserStore.UserTable.Add | app/routers/auth.py:85-95 | a taken e-mail inserts nothing (the unique index); otherwise exactly one row is added, under `NextRowId` of the ids present, and it is returned |
| UserStore.UserTable.Remove | app/routers/admin.py:49-50 | exactly that row is removed |
| Auth.FindByEmail | app/routers/auth.py:102-103 | the row found has that e-mail and is in the table; none is found exactly when no row has it |
| Auth.FindByEmailUnique | app/routers/auth.py:74-75 | under the unique index, looking up a row's e-mail finds that row |
| Auth.IssueTokens | app/routers/auth.py:117-125 | the exact claim sets of both tokens (subject and role, or subject only), their types and expiries, and the "bearer" label |
| Auth.Login | app/routers/auth.py:100-125 | 422 when the body fails `ValidUserLogin` (e-mail form, password of at least 8 characters); 401 unless some row has the e-mail and accepts the password; for that row, 403 if it is inactive, otherwise its token pair |
| Auth.TokenSubject | app/routers/auth.py:177-190 | 401 exactly when the token does not decode, has the wrong type or has no subject; for a decoded token of the right type with a subject, 500 exactly when the subject does not parse and otherwise exactly the parsed subject |
| Auth.GetCurrentUser | app/routers/auth.py:168-194 | 401 for a missing token; token errors carried through; for a parsed subject, 401 exactly when it has no row or an inactive row, and otherwise exactly the stored row of the subject |
| Auth.RefreshToken | app/routers/auth.py:128-165 | token errors carried through; for a parsed subject, 401 exactly when it has no row or an inactive row, and otherwise exactly the pair issued to that stored row at the time of the refresh |
| Auth.RegisterUser | app/routers/auth.py:72-97 | 422 when the body fails `ValidUserCreate` (e-mail form, username of at most 100 characters, password of at least 8); 400 for a taken e-mail, table unchanged; otherwise exactly one row is added under `NextRowId` (hashed password, role "user", active) and its response returned |
| Auth.AccessTokenAuthenticates | app/routers/auth.py:168-194 | a live access token of an active row authenticates as that row |
| Auth.RefreshTokenRotates | app/routers/auth.py:128-165 | a live refresh token is exchanged for the pair issued at the time of the exchange |
| Auth.TokenKindsNotInterchangeable | app/routers/auth.py:145-148 | a refresh token never authenticates a request, and an access token is never exchanged |
| Auth.ExpiredTokensRejected | app/routers/auth.py:177-188 | neither token of a pair is accepted once its lifetime has passed |
| Auth.LoginNeedsPassword | app/routers/auth.py:105-115 | anything other than 401 requires a matching password; a 403 means the account with that e-mail is inactive |
| Auth.RegisteredUserCanLogIn | app/routers/auth.py:83-125 | after registration, logging in with the same e-mail and password succeeds, and its access token authenticates as the new row |
| Auth.StaleTokenAfterIdReuse | app/routers/auth.py:189-194 | once the row with the largest id is deleted, the next row gets that id, and a still-live access token of the deleted user authenticates as the new row |
| Admin.RequireAdmin | app/routers/admin.py:21-25 | passes exactly a caller whose role is admin; anything else is 403 |
| Admin.AllUsers | app/routers/admin.py:27-28 | every user, once each, as its public response, and nothing else |
| Admin.AllUsersInIdOrder | app/routers/admin.py:27-28 | entry `i` of the listing is the user with the `i`-th smallest id |
| Admin.ListUsers | app/routers/admin.py:16-28 | authentication errors first, then 403 for a non-admin caller, otherwise every user |
| Admin.DeleteUser | app/routers/admin.py:31-50 | authentication errors, then 403, both with the table unchanged; 500 for an id outside the store's 64-bit integers; 404 for a missing id; otherwise exactly that row is removed |
| Admin.UnauthenticatedIsUnauthorized | app/routers/admin.py:16-20 | a request without a token is a 401, not a 403 |
| Admin.RegularUserForbidden | app/routers/admin.py:21-25 | a live access token of an active non-admin user gets 403 |
| Admin.StoredRoleDecides | app/routers/admin.py:21-25 | the stored role decides, whatever type-correct role claim the token carries |
| TaskStore.TaskTable.Add | app/routers/task.py:17-20 | exactly one row is added, under `NextRowId` of the ids present, with the given fields and both timestamps set to `stamp` |
| TaskStore.TaskTable.Put | app/routers/task.py:84-85 | that row is replaced and no other |
| TaskStore.TaskTable.Remove | app/routers/task.py:97-98 | exactly that row is removed |
| TaskRouter.CreateTask | app/routers/task.py:14-21 | 422 when the body fails `ValidTaskCreate` (a title over 200 characters); otherwise one row with the given fields and no owner, under `NextRowId`, and nothing else changes |
| TaskRouter.SortColumn | app/routers/task.py:45 | the column of that name, or `created_at` when no column has it |
| TaskRouter.DescendingSpellings | app/routers/task.py:46 | `Descending(order)`, the test `order.lower() == "desc"`, holds exactly for the four-letter strings d/D, e/E, s/S, c/C; anything else, "descending" included, sorts ascending |
| TaskRouter.DefaultQueryNewestFirst | app/routers/task.py:26-31 | without parameters the listing is page 1 of 10 rows, by `created_at`, descending |
| TaskRouter.Matching | app/routers/task.py:38-41 | the rows kept are exactly those matching the filters given, each as often as in the input |
| TaskRouter.Ranking | app/routers/task.py:35-41 | a permutation of the rows matching the filters, each of them a stored row that matches |
| TaskRouter.RankingOrdered | app/routers/task.py:45-49 | the ranking is ordered by the chosen column's `ColumnValue` (enums as their text, NULL first) in the direction asked |
| TaskRouter.GetTasks | app/routers/task.py:24-57 | 422 exactly when `ValidQuery` fails (`page < 1`, or a page size outside 1..100); 500 exactly when the offset `PageOffset = (page - 1) * page_size` exceeds 2^63 - 1; no other error; otherwise at most `page_size` rows, all stored and all matching, forming the window at that offset of the ranking |
| TaskRouter.PageAccepted | app/routers/task.py:52-57 | a valid query whose offset fits 64 bits is answered with the window of the ranking at that offset |
| TaskRouter.GetTasksOrdered | app/routers/task.py:46-53 | every page is ordered by the chosen column and direction |
| TaskRouter.EveryRankedTaskOnItsPage | app/routers/task.py:52-53 | pagination skips nothing: the row at position `k` of the ranking (for `k` up to 2^63 - 1) is row `k % n` of page `k / n + 1` |
| TaskRouter.GetTask | app/routers/task.py:60-67 | 500 exactly for an id outside 64 bits; otherwise the stored row exactly when the id exists, and 404 exactly when it does not |
| TaskRouter.Patched | app/schemas/task.py:21-26 | each sent field takes the sent value and each unsent field keeps its value; the assignments leave id, owner and both timestamps alone |
| TaskRouter.SetFieldsAppend | app/routers/task.py:81-82 | the `setattr` loop over two consecutive runs of fields is the loop over their concatenation |
| TaskRouter.SetAssignedFields | app/routers/task.py:79-82 | the `setattr` loop over the update data has exactly the field-by-field effect of the PATCH |
| TaskRouter.NullViolationOfAssignedFields | app/routers/task.py:79-84 | the update data puts NULL in a NOT NULL column exactly when the body sends an explicit null for title, status or priority |
| TaskRouter.ApplyFields | app/routers/task.py:81-82 | the loop applies `SetField` (one `setattr`) to each entry in turn, computing `SetFields` of the whole update data, and flags whether any of them nulls a NOT NULL column |
| TaskRouter.UpdateTask | app/routers/task.py:70-86 | 422 when the body fails `ValidTaskUpdate` (a title over 200 characters); the lookup's 404 or 500; 500 with nothing stored for an explicit null in a NOT NULL column; otherwise the row becomes the patched row, with `updated_at` set to `stamp` when some column changed and the row unchanged when none did, and nothing else changes |
| TaskRouter.DeleteTask | app/routers/task.py:89-98 | the lookup's 404 or 500, table unchanged; otherwise exactly that row is removed |

## Left out

- Password hashing is symbolic. bcrypt's key derivation and salt format are not modelled, nor its 72-byte input limit (depending on the library version, longer passwords are truncated or refused). The model verifies exactly the password the digest was made from.
- Token signing and encoding are symbolic. A token is its claims plus the key and algorithm it was signed with, or unreadable text.
- Tokens.Decode is stated as an assumption about the JWT library: a token decodes exactly when its key and algorithm match and `now < exp`. Other library checks (`nbf`, `iat`, leeway, the header) and clock skew are not modelled.
- Token expiry is whole seconds. The source's datetime arithmetic has microseconds, and the library's boundary handling is taken to be strict.
- Text.ParseInt: Python's `int()` also accepts a leading '+', surrounding whitespace, '_' digit separators and non-ASCII digits. The model accepts only an optional '-' followed by ASCII digits. A token carrying such a subject is out of scope, because the service never writes one.
- UserSchemas.IsEmailAddress is a stand-in for `EmailStr`. It requires exactly one '@' with text on both sides. Domain rules and normalisation are not modelled, and e-mail lookups compare the text exactly.
- Timestamps are opaque values (`stamp`), supplied by the caller of the model.
- TaskRouter.Patched: states only the effect of the `setattr` assignments, which leave `updated_at` alone. The `onupdate` stamp of the commit is added by TaskRouter.UpdateTask, on the assumption that the session writes the row, and so fires `onupdate`, exactly when some column's value changed; assigning a column its current value is no change.
- Concurrency, sessions, transactions and connection lifetimes are not modelled. Each route is one atomic step on the table.
- HTTP framing, routing, response serialisation and status codes for success (201, 204) are not modelled.
- Reading the bearer token from the `Authorization` header is not modelled. A missing or unreadable header is `None`; anything else is the token value.
- Only the task routes are mounted by the application entry point (app/main.py). The auth and admin routers are modelled as written, as if mounted.
- The task routes do not use the current user. Tasks are created without an owner and listed for everyone, as the code does. Row-level ownership is not modelled because the code has none.
- Text.Lower: maps only ASCII letters. Python's `str.lower()` also lowers other cased characters, and turns 'İ' into two characters. No character other than 'D', 'E', 'S' and 'C' lowers to text containing 'd', 'e', 's' or 'c', so `Descending`, the only use of Lower, decides exactly as the source does.
- TaskRouter.EveryRankedTaskOnItsPage: assumes that every page query ranks rows with equal sort keys in the same order. The store does not promise that across separate queries. When the sort keys are distinct, the ranking is unique and the lemma holds as stated.
- Sorting key: SqlOrder.SortBy is a stable insertion sort. The store's order among rows with equal keys is unspecified, so only order and permutation are claimed, not a particular tie order.
- `getattr(Task, sort_by, ...)` also finds attributes of the model class that are not columns (for example `metadata`). What the query builder does with those is not modelled. The model maps every name that is not a column to `created_at`.
- SQLAlchemy stores an enumeration by member name. Here each name equals its value, so sorting by status or priority is alphabetical ("high" < "low" < "medium" < "urgent"), not by urgency.
- OrderedKeys.NextRowId: once the largest id in use is 2^63 - 1, SQLite picks an unused id at random instead. That case is not modelled; the model keeps adding one.
- 64-bit parameters: an id or offset outside the signed 64-bit range makes the driver raise, a 500. GetTask (and through it UpdateTask and DeleteTask), Admin.DeleteUser and GetTasks model this. The lookup of a token subject does not, because the service only signs subjects that are stored ids.
- Deleting a user leaves that user's tasks in place. The foreign key has no cascade in the code.
- Refresh does not revoke the old refresh token. It remains usable until it expires, as in the code.
- The NOT NULL constraints on the task title, status and priority are inferred from their non-optional mapped types. The migration that creates the tasks table is not part of this model. An explicit null sent for one of these columns therefore fails at commit (500), and the model stores nothing in that case.
- Database errors other than the unique e-mail index and the NOT NULL constraints are not modelled.
- The `TaskCreate` and `TaskUpdate` date-time fields are opaque integers. Time zones and parsing are out of scope.
