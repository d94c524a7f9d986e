# Personal-finance backend: authentication, roles and owner-scoped tables

This project models the decision logic under the HTTP and ORM layers of a FastAPI/SQLAlchemy
personal-finance backend, and proves properties about it. The model covers:

- the **role gate**: a rank table `guest < user < admin`, where a missing role means "user" and an unknown role ranks 0;
- the **authentication gate**: decode the bearer token, require a `user_id` claim, refuse revoked tokens, then look the user up;
- the **revocation ledger** that logout writes to;
- the **credential store**: register, with its duplicate-email check, and login, which gives one 401 for every failure;
- the admin **role change**;
- the **owner-scoped category and operation tables**: list, get, create, update, delete, and the balance total.

The store is a `Models.Database` object holding the four tables (`users`, `categories`,
`operations`, `revoked_tokens`). Each table is a sequence of rows in primary-key order. Reads are
pure functions over those sequences. Table changes are methods that take the database and state
its whole new state. Each crud file and each router file is its own module. The `Query` module
holds the shared query shapes: `.filter().first()`, `.filter().all()`, the id a new row gets,
and what a unique column means.

Around the core:

- Token signing is an abstract `Auth.Codec` (`sign`, `verify`). `Auth.Sound` says a signed payload verifies to itself.
- Password hashing is an abstract `UsersRouter.Hasher`. `UsersRouter.Consistent` says a password verifies against its own hash.
- The clock is an explicit `now`, in seconds.
- Amounts are integers (cents). Dates are integer day numbers.

Consequences of the code, each proved, for requests handled one at a time:

- Logout's "Already logged out" answer is never produced. The gate has already refused a revoked token (`UsersRouter.AlreadyLoggedOutIsUnreachable`). So a second logout with the same token is a 401 (`UsersRouter.LogoutTwice`).
- A token depends only on the user id and the issue second. A login, a logout of its token and a second login, all within one second, return the same token twice: the second login hands back the token just revoked, and `me` with it is a 401 (`UsersRouter.ReloginWithinOneSecond`).
- Registration never sets a role, and only an admin can change one. So a store built by registrations never holds an admin, and both admin routes always answer 401 or 403 (`Role.AdminRoutesClosedWithoutAdmins`, `AdminRouter.RegistrationAddsNoAdmin`, `AdminRouter.ChangeUserRole`).

Facts about the code that the model keeps:

- Category names are unique across all users. One global unique column enforces this, and no handler checks it first; see "## Findings".
- A registration with a taken email is a 400.
- The token's payload holds only `user_id` and `exp`; roles are never put in it.
- The balance route takes no date bounds.
- Roles are free strings. The role gate compares them through a rank table, and an unknown string ranks 0.
- `routers/categories.py` and `routers/users.py` run their queries inline instead of calling the crud functions. The queries are the same, so the router modules here call the crud modules.

## Model

| member | source | states |
|---|---|---|
| `Models.Database.constructor` | models/models.py:7-50 | empty tables satisfy every primary key and unique column (email, category name, revoked token) |
| `Role.Rank` | utils/role.py:8-10 | admin ranks 2, user ranks 1, every other string (guest included) ranks 0 |
| `Role.PrincipalRole` | utils/role.py:9 | a principal without a role attribute counts as "user"; otherwise its own role |
| `Role.RoleRequired` | utils/role.py:10-12 | admitted iff the principal's rank is at least the required rank; on success the same principal is returned, otherwise 403 "Insufficient privileges" |
| `Role.RequireRole` | utils/role.py:5-13 | an authentication failure passes through unchanged; an authenticated principal gets exactly the role check's answer: admitted iff its rank suffices, else 403 |
| `Role.AdmissionIsMonotone` | utils/role.py:10 | a principal admitted for a requirement is admitted for every requirement of lower or equal rank |
| `Role.MissingRoleActsAsUser` | utils/role.py:9-10 | no role attribute behaves exactly like role "user": admitted for "user", refused for "admin" |
| `Role.UnknownRolesRankZero` | utils/role.py:10 | an unknown principal role behaves like "guest"; an unknown required role admits everyone |
| `Role.AdminRoutesClosedWithoutAdmins` | utils/role.py:10-11 | with no admin-ranked user stored, no token passes the admin check |
| `Auth.ExpireMinutes` | utils/auth.py:14 | the token lifetime is the environment's value, or 1440 minutes when unset |
| `Auth.CreateAccessToken` | utils/auth.py:20-25 | the signed payload is the caller's claims plus `exp` = issue time + lifetime |
| `Auth.DecodeIssued` | utils/auth.py:20-25 | an issued token decodes to exactly that payload up to its expiry second, and is refused afterwards |
| `Auth.LocalClockExpiry` | utils/auth.py:22-23 | the signed `exp` is the UTC issue time plus the lifetime plus the server's offset from UTC |
| `Auth.CreateAccessTokenLocalClock` | utils/auth.py:20-25 | the token as the source signs it carries that shifted `exp`; on a UTC server it is the token `Auth.CreateAccessToken` issues |
| `Auth.LocalClockTokenBornExpired` | utils/auth.py:22 | with an offset west of UTC larger than the lifetime, the token is refused at the second it is issued |
| `Auth.Decode` | utils/auth.py:42-43 | a token is accepted iff it is authentic and any `exp` it carries has not passed; the result is its verified payload |
| `Auth.IsTokenRevoked` | utils/auth.py:28-29 | true iff the ledger has a row with exactly this token string |
| `Auth.GetCurrentUser` | utils/auth.py:32-57 | decode failure, missing `user_id`, revoked token, unknown user: each a 401 with its own detail, checked in that order; success returns the stored user whose id is the payload's `user_id` |
| `Auth.BadTokenRefusedBeforeLookups` | utils/auth.py:42-48 | a token that does not decode gets the same answer whatever the ledger and user table hold |
| `Auth.RevokedRefusedBeforeUserLookup` | utils/auth.py:51-54 | a revoked token is refused whatever the user table holds |
| `UserCrud.GetUser` | crud/user.py:6-8 | returns a stored user with that email, or None exactly when no user has it |
| `UserCrud.CreateUser` | crud/user.py:10-15 | appends one row with a fresh id and exactly the given email, hash and currency, and returns it; a taken email fails at commit and stores nothing |
| `UsersRouter.Register` | routers/users.py:11-22 | a taken email gives 400 and the table is unchanged; otherwise the stored user holds the password's hash and the requested currency ("$" by default) |
| `UsersRouter.Login` | routers/users.py:25-32 | every failure is the same 401 "Invalid credentials"; success is a "bearer" token for a user with that email whose hash verifies the password |
| `UsersRouter.LoginSucceedsIffPasswordMatches` | routers/users.py:27-29 | with unique emails, login succeeds iff the email's user verifies the password |
| `UsersRouter.GetMe` | routers/users.py:35-37 | `me` answers exactly what the gate answers: a stored user whose token is not revoked, or the gate's 401 |
| `UsersRouter.RegisterLoginMe` | tests/test_auth.py:85-102 | after registering, login succeeds and `me` with the issued token, until it expires, is the registered user |
| `UsersRouter.Logout` | routers/users.py:40-49 | the gate runs first and a refused token changes nothing; an accepted token is appended to the ledger once; the ledger stays duplicate-free |
| `UsersRouter.AlreadyLoggedOutIsUnreachable` | routers/users.py:43-45 | a token the gate accepts is never already in the ledger |
| `UsersRouter.LogoutTwice` | tests/test_auth.py:129-152 | after a successful logout, the same token's second logout is a 401 "Token has been revoked" and the ledger is unchanged |
| `UsersRouter.ReloginWithinOneSecond` | utils/auth.py:20-25 | a login, a logout of its token and a second login, all in the same second: the second login returns a token that the ledger now holds as revoked, and `me` with it is a 401; users, categories and operations are unchanged |
| `AdminUserCrud.GetUserById` | crud/admin_user.py:8-9 | returns the user with that id, or None exactly when there is none |
| `AdminUserCrud.UpdateUserRole` | crud/admin_user.py:11-16 | only the target's role changes, to the new role; other fields and other users are unchanged; the updated user is returned |
| `AdminRouter.ListUsers` | routers/admin.py:14-16 | an admin principal gets the whole user table; otherwise the 401 or 403 of the admin check |
| `AdminRouter.ChangeUserRole` | routers/admin.py:18-25 | admin check, then 404 for a missing user, then 400 unless the role is "user" or "admin"; an admin's request for an existing user with such a role succeeds, and only that user's role changes; a store without admins is never changed |
| `AdminRouter.RegistrationAddsNoAdmin` | routers/users.py:18 | a registered user has no role, so registration never creates an admin |
| `CategoryCrud.ApplyFields` | crud/category.py:26-27 | the setattr loop assigns the fields in order and never touches id or owner |
| `CategoryCrud.AssignedKeepsKeys` | crud/category.py:26-27 | assigning any payload fields keeps the row's id and owner |
| `CategoryCrud.DumpOverwrites` | crud/category.py:26-27 | assigning a dumped payload overwrites name and color and nothing else |
| `CategoryCrud.GetCategories` | crud/category.py:5-6 | the list holds exactly the categories the principal owns |
| `CategoryCrud.ListedInCreationOrder` | tests/test_categories.py:93-114 | a category created later is listed after the earlier ones; another user's new category does not appear |
| `CategoryCrud.GetCategory` | crud/category.py:9-14 | returns a row only when both the id and the owner match, and None otherwise |
| `CategoryCrud.LookupSeesOnlyOwnRows` | crud/category.py:11-14 | a lookup's result depends only on the principal's own rows, so another user's row looks absent |
| `CategoryCrud.CreateCategory` | crud/category.py:16-23 | appends a row with a fresh id, the payload's name and color, owned by the principal; a name any category has fails at commit and stores nothing |
| `CategoryCrud.UpdateCategory` | crud/category.py:25-30 | overwrites name and color in place, keeps id and owner, returns the row; every other row is unchanged; a name another row has fails at commit with no change |
| `CategoryCrud.DeleteCategory` | crud/category.py:32-34 | the new table is the old one with that category's position removed; operations filed under it stay, with their category cleared |
| `CategoryCrud.Detached` | models/models.py:28 | after a category is deleted, an operation that referred to it keeps every field except its category, which becomes null; other operations are unchanged |
| `CategoriesRouter.ListCategories` | routers/categories.py:10-12 | authenticated: exactly `CategoryCrud.GetCategories` for the principal, so its rows in creation order, each once; otherwise the gate's 401 |
| `CategoriesRouter.GetCategory` | routers/categories.py:15-24 | the principal's category with that id, else the same 404 for an absent row and another user's row |
| `CategoriesRouter.CreateCategory` | routers/categories.py:27-37 | authenticated: succeeds iff no category has the name, appending a row owned by the principal with the payload's name and color; a taken name fails at commit with the unique column's error |
| `CategoriesRouter.CreateCategoryChecked` | tests/test_categories.py:78-90 | authenticated: 400 iff some category has the name, with nothing stored; otherwise the row is appended; never an integrity error |
| `CategoriesRouter.CreateDuplicate` | tests/test_categories.py:78-90 | creating a name twice: the handler as written fails the second time with the unique column's error, the checked handler with 400; one row is stored |
| `CategoriesRouter.UpdateCategory` | routers/categories.py:40-57 | 404 with no change unless the principal owns the id; for an owned id, fails at commit iff another category has the new name, else name and color become the payload's and nothing else changes |
| `CategoriesRouter.DeleteCategory` | routers/categories.py:60-71 | 404 with no change unless the principal owns the id; an owned id is always deleted, the table losing exactly that position |
| `OperationCrud.ApplyFields` | crud/operation.py:39-40 | the setattr loop assigns the fields in order and never touches id or owner |
| `OperationCrud.AssignedKeepsKeys` | crud/operation.py:39-40 | assigning any payload fields keeps the row's id and owner |
| `OperationCrud.DumpOverwrites` | crud/operation.py:39-40 | assigning a dumped payload overwrites date, amount, comment and category and nothing else |
| `OperationCrud.GetOperations` | crud/operation.py:8-19 | a row is listed iff it is the principal's, with `date >= start` when a start is given and `date <= end` when an end is given; order and count are fixed by `ListedInCreationOrder` |
| `OperationCrud.ListedInCreationOrder` | crud/operation.py:14-19 | a new operation is listed after every earlier one, once, exactly when it is the principal's and falls within the bounds; otherwise the listing is unchanged |
| `OperationCrud.OneDayWindow` | crud/operation.py:15-18 | start = end = d lists exactly the principal's operations dated d, in table order, each once |
| `OperationCrud.TodayWindowListsOne` | tests/test_operations.py:137-173 | with one operation dated today and one yesterday, a window of today lists only today's operation |
| `OperationCrud.CreateOperation` | crud/operation.py:21-30 | appends a row with a fresh id and the payload's fields, owned by the principal |
| `OperationCrud.GetOperation` | crud/operation.py:32-36 | returns a row only when both the id and the owner match, and None otherwise |
| `OperationCrud.LookupSeesOnlyOwnRows` | crud/operation.py:34-35 | a lookup's result depends only on the principal's own rows, so another user's row looks absent |
| `OperationCrud.UpdateOperation` | crud/operation.py:38-42 | overwrites date, amount, comment and category in place, keeping id and owner; every other row is unchanged |
| `OperationCrud.DeleteOperation` | crud/operation.py:44-46 | the new table is the old one with that operation's position removed; its owner's balance drops by its amount and every other balance stays |
| `OperationCrud.SqlSum` | crud/operation.py:49-50 | the SQL sum is NULL exactly over no rows, and is otherwise the total of the amounts |
| `OperationCrud.GetTotalBalance` | crud/operation.py:48-51 | the balance is the sum of the principal's amounts, and 0 when the principal has none |
| `OperationCrud.BalanceAfterCreate` | crud/operation.py:48-51 | a new operation adds its amount to its owner's balance only |
| `OperationCrud.BalanceAfterDelete` | crud/operation.py:48-51 | deleting an operation subtracts its amount from its owner's balance only |
| `OperationsRouter.ListOperations` | routers/operations.py:13-21 | the optional bounds are passed to the query unchanged; only the principal's rows come back |
| `OperationsRouter.CreateOperation` | routers/operations.py:24-32 | authenticated creation always succeeds, owned by the principal, with the payload's fields |
| `OperationsRouter.GetOperation` | routers/operations.py:35-41 | the principal's operation with that id, else the same 404 for an absent row and another user's row |
| `OperationsRouter.UpdateOperation` | routers/operations.py:44-51 | 404 with no change unless the principal owns the id; an owned id is always updated: the payload overwrites the row and nothing else changes |
| `OperationsRouter.DeleteOperation` | routers/operations.py:54-60 | 404 with no change unless the principal owns the id; an owned id is always deleted, the table losing exactly that position |
| `OperationsRouter.GetTotalBalance` | routers/operations.py:63-66 | the principal's total paired with the principal's own currency |

## Findings

| source | as written | input that shows it | evidently intended | confidence | as-written member | corrected member |
|---|---|---|---|---|---|---|
| models/models.py:23 | a duplicate category name reaches the commit and fails on the unique column, an unhandled error | one user posts `{"name": "Food"}` to `/categories/` twice | 400 for a taken name, as tests/test_categories.py:78-90 expects | not executed; high | `CategoriesRouter.CreateCategory` | `CategoriesRouter.CreateCategoryChecked` |
| utils/auth.py:22 | `exp` is naive local time read as UTC, so a token lives the lifetime plus the server's UTC offset | a server at UTC-5 (offset -18000 s) with `ACCESS_TOKEN_EXPIRE_MINUTES=60`: `exp` is 4 hours before issue | `exp` = UTC issue time + lifetime | not executed; medium, depends on the encoder's naive-datetime conversion | `Auth.LocalClockTokenBornExpired` | `Auth.DecodeIssued` |

## Left out

- JWT signing (HS256 under `SECRET_KEY`, `jwt.encode`/`jwt.decode`) is the abstract `Auth.Codec`. Claim values are integers. Only the `exp` check of decoding is modelled: a token is accepted while `now <= exp`.
- The clock is the parameter `now`, in UTC seconds. The server's offset from UTC appears only in the `Auth.LocalClock…` members; the rest of the model issues tokens on UTC.
- Requests are modelled one at a time. Two concurrent logouts with one token can both pass the gate before either commits: the later one then answers "Already logged out", or its insert fails on the unique `token` column. Neither interleaving is modelled.
- Password hashing (`hash_password`, `verify_password`) is the abstract `UsersRouter.Hasher`. The module that defines them is not part of this model.
- Float amounts and float summation are modelled as exact integer cents. Dates are integer day numbers.
- A missing `Authorization` header, which gives 401 "Not authenticated", is not modelled: every handler receives a token string.
- Pydantic request validation is not modelled: `EmailStr`, required fields, and the 422 answers. Payloads are the records `CategoryCreate`, `OperationCreate`, and register's email, password and optional currency.
- Sessions, `commit`, `refresh`, rollback and dependency injection are not modelled. A failed commit is the outcome `IntegrityError` with the table left unchanged; the source lets that exception escape as a server error.
- Foreign keys are not enforced, as with SQLite's default. An operation's `category_id` can name any id, including another user's category. Nothing checks it.
- Rows are values. The ORM's object identity is not modelled: the row a crud function returns equals the stored row, but there is no shared instance.
- Table order is insertion order, which stands in for the store's unordered `SELECT`.
- `AdminUserCrud.UpdateUserRole`: `users` has no `role` column, so in the source the new role lives only on the loaded instance and is not written to the database. The model keeps the role on the stored row.
- `RevokedToken.created_at` and the debug `print` in the operation create handler are not modelled.
- Application wiring (`main.py`) is not modelled: which routers are mounted, and the legacy root `models.py`/`schemas.py` layouts imported by two routers.
- `AdminUserCrud.GetAllUsers` is the whole user table; its property is stated through `AdminRouter.ListUsers`.
