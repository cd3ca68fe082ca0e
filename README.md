# TaskManager session, task-access and user-administration core in Dafny

This project models three parts of the TaskManager web application:

- **The session manager (`AuthService`).** It runs login, registration, access-token refresh (rotation), revocation and password change. It works over two tables of one database context: the users table and the refresh-token ledger.
- **The task service (`TaskService`).** Its read side is the role-scoped visibility rule, the filtered, sorted and paged task list, the single-task read, the dashboard counts, a task's comments and the category list. Its write side is creating, editing, completing and deleting tasks, adding and deleting comments, and creating and soft-deleting categories.
- **The user-administration controller (`UsersController`).** It reads the caller's identity from the token's claims, lists and reads users, changes a role, deactivates and activates accounts, and reports user counts.

The database context is a class, `Data.AppDbContext`. It has one `seq` field per table plus the next value of each identity column. Its invariant `Valid()` says:

- Primary keys are positive, distinct and below the next identity value.
- Emails are unique; this is the unique index on `Users.Email`.
- Every refresh-token row belongs to an existing user; this is the foreign key.
- A task carries `CompletedAt` exactly while it is Completed.

The services are classes that hold the context and change its tables in place. Each method states the new contents of every table, and each keeps `Valid()`.

The ledger's allowed transitions are a pure relation, `TokenLedger.LedgerStep`. Every session method promises it between the old ledger and the new one. Under it, rows are only appended, a row only goes from unrevoked to revoked, and no row's identity fields ever change.

The read paths are functions over the tables, and lemmas prove what the service promises of them:

- A User-role caller sees only the tasks it created or is assigned to.
- The chained filters select their conjunction.
- A page holds at most `PageSize` tasks, in the requested order.
- The dashboard counts are consistent with each other.
- Only active categories are listed.

Collaborators the code cannot see are values handed to it:

- BCrypt's `Verify` and `HashPassword` are function values; the salt is a parameter.
- `IJwtService.GetJwtId` and `ValidateExpiredToken` are function values.
- The tokens minted on each call are parameters.
- The clock is an integer number of seconds.

Where the code and the intended design differ, the model follows the code:

- **Register is not atomic.** It saves the user, then the token row in a second save (`TaskManager.Web/Services/AuthService.cs:138`, `:155`). When the second save fails, the user stays without a session (`AuthService.AuthService.Register`).
- **Refresh never reads the user's `IsActive` flag, and deactivation revokes no tokens.** A deactivated user can therefore keep refreshing with a token it already holds (`AuthService.CheckRefresh` takes no user table; `UsersController.UsersController.DeactivateUser` leaves the ledger unchanged). The intended design says a deactivated user cannot authenticate.
- **Refresh does not check the subject.** It never checks that the row's owner is the token's subject.
- **Refresh sets no revocation time.** It revokes the old row without stamping `RevokedAt` (`TokenLedger.Rotate`).
- **`IsUsed` is never written.** `TokenLedger.NeverUsed` proves every row keeps it false.
- **An assignee can lose sight of a task it edits.** An assignee who is not the creator, and who hands the task to someone else, has the edit stored. The task that `UpdateTaskAsync` re-reads and returns is then null (`TaskService.ReassignmentHidesTask`).
- **Comments skip the visibility check.** `AddTaskCommentAsync` lets any caller comment on any existing task.
- **Signup counts include deactivated users.** The week's signups can exceed the active total (`UsersController.RecentSignupsMayExceedActive`).

## Model

| member | source | states |
|---|---|---|
| AuthService.ActiveUserByEmail | TaskManager.Web/Services/AuthService.cs:43-44 | the position found holds an active user with exactly that email; none is found iff no active user has it |
| AuthService.ActiveUserByEmailUnique | TaskManager.Web/Data/AppDbContext.cs:25 | under the unique email index, the active user holding an email is the one the login lookup finds |
| AuthService.AuthService.Login | TaskManager.Web/Services/AuthService.cs:43-81 | an unknown or inactive email and a wrong password give the same "Email ou senha inválidos" and change nothing, the identity counters included; otherwise only that user's `LastLoginAt` changes and exactly one fresh row for that user and the new jti is appended; a missing jti fails with nothing saved; the ledger moves by `LedgerStep` and `Valid()` is kept |
| AuthService.IsEmailTaken | TaskManager.Web/Services/AuthService.cs:350-353 | true iff some user, active or not, has exactly that email |
| AuthService.ActiveEmailIsTaken | TaskManager.Web/Services/AuthService.cs:116 | every email a login can find is refused by registration |
| AuthService.FreeEmailKeepsUnique | TaskManager.Web/Services/AuthService.cs:116-137 | adding a user under an email that is not taken keeps the unique email index satisfied |
| AuthService.AuthService.Register | TaskManager.Web/Services/AuthService.cs:116-155 | a taken email fails with the users, the ledger and both identity counters unchanged; otherwise exactly one user with role User, active, under the next key is appended, then one fresh row for that user (or, with no jti, the user stays and no row is added) |
| AuthService.PresentedJti | TaskManager.Web/Services/AuthService.cs:189-207 | a jti is recovered iff the token validates with expiry ignored and carries a non-empty jti, and then it is exactly that jti |
| AuthService.CheckRefresh | TaskManager.Web/Services/AuthService.cs:189-231 | classifies a presented pair: a bad or jti-less access token, no unrevoked row matching both refresh string and jti, a matching row whose expiry is strictly before now, or an accepted row |
| AuthService.AuthService.Refresh | TaskManager.Web/Services/AuthService.cs:189-250 | every refusal returns its own message with the ledger and its identity counter unchanged; an accepted pair revokes exactly the matching row (no `RevokedAt`) and appends one fresh row for the same owner with the new jti; the owner's active flag is never consulted |
| AuthService.AuthService.RevokeToken | TaskManager.Web/Services/AuthService.cs:285-302 | unparseable user-id text fails and changes nothing; otherwise the result is true and the ledger becomes `RevokeSelected`: the user's unrevoked rows (narrowed to the jti when one is given) are revoked and stamped, every other row stays |
| AuthService.AuthService.ChangePassword | TaskManager.Web/Services/AuthService.cs:314-330 | an unknown id or a wrong current password returns false with nothing changed; otherwise only that user's hash is replaced and every unrevoked row of the user is revoked |
| AuthService.UserIndex | TaskManager.Web/Services/AuthService.cs:314 | the position found holds a user with that key, active or not; none iff no user has it |
| AuthService.GetUserById | TaskManager.Web/Services/AuthService.cs:338-342 | returns a stored active user with that id, and nothing iff there is none |
| AuthService.GetUserByEmail | TaskManager.Web/Services/AuthService.cs:344-348 | returns a stored active user with that email, and nothing iff there is none |
| TokenLedger.FindActive | TaskManager.Web/Services/AuthService.cs:209-213 | the row found matches refresh string and jti and is unrevoked; none is found iff no row does |
| TokenLedger.Rotate | TaskManager.Web/Services/AuthService.cs:233-249 | rotation marks exactly the matched row revoked (nothing else of it changes), keeps every other row and appends the new row at the end |
| TokenLedger.RevokeSelected | TaskManager.Web/Services/AuthService.cs:286-299 | bulk revocation rewrites rows in place and keeps the ledger's length; what each row becomes is stated by `RevokeSelectedExact` |
| TokenLedger.LedgerStep | TaskManager.Web/Services/AuthService.cs:233-249 | the permitted ledger writes (rows kept or revoked one way, fresh rows appended) include the write that changes nothing; `LedgerStepTransitive` closes it under sequencing |
| TokenLedger.NewRow | TaskManager.Web/Services/AuthService.cs:70-78 | a new row is unused, unrevoked, unstamped, carries the given owner, strings and creation time, and expires the configured number of days later |
| TokenLedger.LedgerStepTransitive | TaskManager.Web/Services/AuthService.cs:233 | a run of ledger writes is again a ledger write, so the one-way rule holds over any sequence of operations |
| TokenLedger.RevokedIsFinal | TaskManager.Web/Services/AuthService.cs:297 | a revoked row never changes again and never becomes unrevoked |
| TokenLedger.NeverUsed | TaskManager.Web/Models/RefreshToken.cs:19 | no write sets `IsUsed` |
| TokenLedger.AppendIsStep | TaskManager.Web/Services/AuthService.cs:80 | appending a fresh row is a permitted ledger write |
| TokenLedger.RotateIsStep | TaskManager.Web/Services/AuthService.cs:233-249 | the rotation of an unrevoked row is a permitted ledger write |
| TokenLedger.RevokeSelectedIsStep | TaskManager.Web/Services/AuthService.cs:295-299 | bulk revocation is a permitted ledger write |
| TokenLedger.RevokeSelectedExact | TaskManager.Web/Services/AuthService.cs:286-299 | after bulk revocation a row is revoked iff it was or was selected; only selected rows get the new stamp; other users' rows and already revoked rows are untouched; identity fields never change |
| TokenLedger.RevokeAllCoversUser | TaskManager.Web/Services/AuthService.cs:328 | revoking without a jti leaves every row of the user revoked |
| TokenLedger.RevokeSelectedIdempotent | TaskManager.Web/Services/AuthService.cs:286-299 | revoking again, at any later time, changes nothing |
| TokenLedger.NoRefreshAfterRevokeAll | TaskManager.Web/Services/AuthService.cs:209-213 | after revoking all of a user's rows no refresh is accepted on a row of that user |
| TokenLedger.RotateKeepsDistinct | TaskManager.Web/Services/AuthService.cs:233-249 | rotation with a new refresh string keeps refresh strings distinct |
| TokenLedger.AppendKeepsDistinct | TaskManager.Web/Services/AuthService.cs:80 | appending a new refresh string keeps refresh strings distinct |
| TokenLedger.RevokeKeepsDistinct | TaskManager.Web/Services/AuthService.cs:295-299 | revocation keeps refresh strings distinct |
| TokenLedger.ReplayFailsAfterRotate | TaskManager.Web/Services/AuthService.cs:209-233 | with distinct refresh strings, the pair that was just rotated is refused on replay |
| TokenLedger.IssuedPairIsAccepted | TaskManager.Web/Services/AuthService.cs:239-249 | a freshly issued pair with a new refresh string is accepted, at the new row |
| TokenLedger.ReplaySucceedsOnDuplicateRows | TaskManager.Web/Services/AuthService.cs:209-213 | without distinct refresh strings, two unrevoked rows with the same string and jti let the same pair refresh twice |
| Data.AppDbContext.constructor | TaskManager.Web/Data/AppDbContext.cs:22-25 | an empty database satisfies the table invariants, and every identity column starts at 1, so no stored key is ever 0, the value that stands for "no user" in the claims |
| Data.UserEditKeepsTables | TaskManager.Web/Data/AppDbContext.cs:25 | editing a user's fields other than key and email keeps the unique index and every token owner valid |
| Data.UserAppendKeepsTables | TaskManager.Web/Data/AppDbContext.cs:25 | a new user under the next key with a free email keeps the users table and the token ledger well formed |
| Data.RowAppendKeepsLedger | TaskManager.Web/Data/AppDbContext.cs:86-89 | a new row under the next key owned by an existing user keeps the foreign key and the keys valid |
| Data.RowEditsKeepLedger | TaskManager.Web/Data/AppDbContext.cs:86-89 | editing rows while keeping each key and owner keeps the ledger well formed |
| Data.KeysBelowFilter | TaskManager.Web/Data/AppDbContext.cs:69-72 | removing any set of rows, as the comment cascade does, keeps the keys valid |
| Models.ParseRole | TaskManager.Web/Controllers/UsersController.cs:24-28 | a missing claim gives User, and a role other than User is returned only when the claim names it or holds its number |
| Models.ParseRoleRoundTrip | TaskManager.Web/Models/User.cs:5-10 | a role's name and its number (User=1, Manager=2, Admin=3) both parse back to that role |
| Models.ToUserDto | TaskManager.Web/Controllers/UsersController.cs:57-65 | the summary carries the user's id, name, email, role name, creation time and last login, and no password hash |
| Numbers.Wrap32 | TaskManager.Web/Services/TaskService.cs:87 | the result is a 32-bit integer congruent to the input modulo 2^32, and equal to it when it already fits |
| Numbers.ParseInt32ToString | TaskManager.Web/Services/AuthService.cs:328 | the decimal text of any 32-bit integer parses back to it |
| Numbers.ParseRejectsNonDigits | TaskManager.Web/Controllers/UsersController.cs:33 | text starting with neither a digit nor a sign does not parse |
| Numbers.NatToDigitsCorrect | TaskManager.Web/Services/AuthService.cs:328 | the decimal digits of a number are non-empty, all digits, and denote that number |
| Text.Lower | TaskManager.Web/Services/TaskService.cs:72-74 | lower-casing keeps the length and lowers exactly the upper-case letters |
| Text.LowerIdempotent | TaskManager.Web/Services/TaskService.cs:77 | lower-casing twice is lower-casing once |
| Ordering.SortBySorted | TaskManager.Web/Services/TaskService.cs:77-84 | the stable sort returns its input permuted and in the requested order |
| Ordering.LexLeTotal | TaskManager.Web/Services/TaskService.cs:79 | the ordering on keys is total, so any two titles are comparable |
| Ordering.LexLeTransitive | TaskManager.Web/Services/TaskService.cs:79 | the ordering on keys is transitive |
| TaskAccess.Visible | TaskManager.Web/Services/TaskService.cs:47-50 | a Manager or Admin sees every task; a User-role caller sees a task only when it created it or is its assignee |
| TaskAccess.MayDelete | TaskManager.Web/Services/TaskService.cs:261 | whoever may delete a task may see it; a User-role caller may delete only a task it created |
| TaskAccess.MayDeleteComment | TaskManager.Web/Services/TaskService.cs:421 | a Manager or Admin may delete any comment; a User-role caller only its own |
| TaskAccess.DeleteNarrowerThanVisible | TaskManager.Web/Services/TaskService.cs:261 | whoever may delete a task may see it, and an assignee who is not the creator may see but not delete |
| TaskAccess.CompletedAfter | TaskManager.Web/Services/TaskService.cs:232-241 | `CompletedAt` is stamped when the status enters Completed, cleared when it leaves it, and kept otherwise |
| TaskAccess.CompletedAfterRecords | TaskManager.Web/Services/TaskService.cs:232-241 | the rule keeps `CompletedAt` present exactly while the task is Completed |
| TaskAccess.CompletedAfterSameStatus | TaskManager.Web/Services/TaskService.cs:232-241 | re-submitting the current status leaves `CompletedAt` as it was |
| TaskAccess.SelectionIsConjunction | TaskManager.Web/Services/TaskService.cs:47-75 | the chain of `Where` clauses selects, in table order, exactly the visible tasks that satisfy every supplied filter |
| TaskAccess.SortKeyIgnoresCase | TaskManager.Web/Services/TaskService.cs:77 | the sort field is chosen on the lower-cased name |
| TaskAccess.PageOffset | TaskManager.Web/Services/TaskService.cs:87 | the offset is `(Page - 1) * PageSize` in 32-bit arithmetic, exact when it fits |
| TaskAccess.GetTasks | TaskManager.Web/Services/TaskService.cs:37-113 | a page never holds more tasks than the table nor more than `PageSize`; what it holds is stated by `GetTasksSound` and `GetTasksComplete` |
| TaskAccess.GetTasksSound | TaskManager.Web/Services/TaskService.cs:37-113 | every listed task is visible to the caller and satisfies every filter; at most `PageSize` tasks; in the requested order |
| TaskAccess.GetTasksComplete | TaskManager.Web/Services/TaskService.cs:47-88 | a first page at least as large as the table lists every wanted task exactly as often as it occurs |
| TaskAccess.GetTasksUnscopedForStaff | TaskManager.Web/Services/TaskService.cs:47-50 | with no filter, a Manager or Admin lists the whole table |
| TaskAccess.GetTaskById | TaskManager.Web/Services/TaskService.cs:115-156 | the result is a stored task with that id that the caller may see; none iff no such task exists |
| TaskAccess.TaskIndex | TaskManager.Web/Services/TaskService.cs:213 | the position found holds the task with that key; none iff no task has it |
| TaskAccess.GetTaskByIdFindsVisible | TaskManager.Web/Services/TaskService.cs:119-129 | a visible task with a unique key is found by its key |
| TaskAccess.Scope | TaskManager.Web/Services/TaskService.cs:309-314 | the counts range only over tasks the caller may see |
| TaskAccess.GetTaskStats | TaskManager.Web/Services/TaskService.cs:305-326 | the total never exceeds the table, and every status, due-date and priority count is at most the total |
| TaskAccess.StatsTotalIsScope | TaskManager.Web/Services/TaskService.cs:309-318 | the total is the number of visible tasks, the whole table for staff |
| TaskAccess.StatsStatusesWithinTotal | TaskManager.Web/Services/TaskService.cs:318-321 | pending, in-progress and completed together never exceed the total |
| TaskAccess.StatsOverdueWithinDueSoon | TaskManager.Web/Services/TaskService.cs:322-323 | every overdue task is also due soon |
| TaskAccess.StatsDueSoonAreOpen | TaskManager.Web/Services/TaskService.cs:323 | due-soon tasks are open: with the completed tasks they never exceed the total |
| TaskAccess.StatsPriorityAreOpen | TaskManager.Web/Services/TaskService.cs:324-325 | high and critical counts are of open tasks: with the completed tasks they never exceed the total |
| TaskAccess.GetTaskComments | TaskManager.Web/Services/TaskService.cs:338-372 | every comment returned is a stored comment of the requested task, and no more are returned than are stored |
| TaskAccess.GetTaskCommentsSpec | TaskManager.Web/Services/TaskService.cs:338-372 | a missing or hidden task gives no comments; a visible one gives exactly its comments, oldest first |
| TaskAccess.ToCategoryDto | TaskManager.Web/Services/TaskService.cs:443-451 | the summary carries the category's id, name, description, colour and active flag and the number of tasks in it |
| TaskAccess.ActiveCategoryDtos | TaskManager.Web/Services/TaskService.cs:441-451 | the i-th summary is that of the i-th active category, in table order, one per active category |
| TaskAccess.GetCategories | TaskManager.Web/Services/TaskService.cs:439-453 | one row per active category |
| TaskAccess.GetCategoriesOnlyActive | TaskManager.Web/Services/TaskService.cs:441-442 | every listed category is active and is the summary of a stored category |
| TaskAccess.GetCategoriesAllActive | TaskManager.Web/Services/TaskService.cs:441-453 | every active category is listed, one row each, ordered by name |
| TaskService.NewTask | TaskManager.Web/Services/TaskService.cs:162-173 | a new task is Pending, not completed, never updated, owned by the caller, created now, and takes title, description, priority, due date, assignee and category from the request |
| TaskService.ApplyUpdate | TaskManager.Web/Services/TaskService.cs:224-241 | title, description, priority, status, due date, assignee and category come from the request, `UpdatedAt` is stamped, `CompletedAt` follows the completion rule, and key, creator and creation time stay |
| TaskService.MarkCompleted | TaskManager.Web/Services/TaskService.cs:292-294 | the task becomes Completed with `CompletedAt` and `UpdatedAt` stamped, whatever its status was; every other field is unchanged |
| TaskService.RemovedKeyIsGone | TaskManager.Web/Services/TaskService.cs:266 | after removing the row, no row carries its key |
| TaskService.RecordedAfterEdit | TaskManager.Web/Services/TaskService.cs:224-241 | an edit that records completion keeps every task's completion recorded |
| TaskService.RecordedAfterRemove | TaskManager.Web/Services/TaskService.cs:266 | removing a task keeps every other task's completion recorded |
| TaskService.ReassignmentHidesTask | TaskManager.Web/Services/TaskService.cs:245 | an assignee who is not the creator and reassigns the task gets null back from the re-read |
| TaskService.UpdateResultForCreatorOrStaff | TaskManager.Web/Services/TaskService.cs:245 | a Manager, an Admin or the creator always gets the edited task back |
| TaskService.TaskService.CreateTask | TaskManager.Web/Services/TaskService.cs:158-207 | a task whose references resolve is appended under the next key and returned; any caller reads it back; a dangling reference stores nothing |
| TaskService.TaskService.UpdateTask | TaskManager.Web/Services/TaskService.cs:209-251 | a missing task and one the caller may not see give the same null with nothing changed; otherwise only that row changes, to `ApplyUpdate`, and the result is the caller's re-read |
| TaskService.TaskService.DeleteTask | TaskManager.Web/Services/TaskService.cs:253-275 | a missing task, or a User-role caller who is not the creator, gets false with nothing changed; otherwise exactly that task and its comments are removed |
| TaskService.TaskService.CompleteTask | TaskManager.Web/Services/TaskService.cs:277-303 | the update permission; on success only that row changes, to Completed with `CompletedAt` stamped |
| TaskService.TaskService.AddTaskComment | TaskManager.Web/Services/TaskService.cs:374-411 | fails with nothing stored only when the task (or the author) does not exist; otherwise one comment by the caller is appended; visibility is not checked |
| TaskService.TaskService.DeleteTaskComment | TaskManager.Web/Services/TaskService.cs:413-435 | a User-role caller may delete only its own comment; otherwise exactly that comment is removed |
| TaskService.TaskService.CreateCategory | TaskManager.Web/Services/TaskService.cs:463-492 | one active category is appended under the next key and reported with no tasks |
| TaskService.TaskService.DeleteCategory | TaskManager.Web/Services/TaskService.cs:494-511 | an unknown id returns false with nothing changed; otherwise only that category's `IsActive` becomes false |
| TaskService.CommentIndex | TaskManager.Web/Services/TaskService.cs:417 | the position found holds the comment with that key; none iff no comment has it |
| TaskService.CategoryIndex | TaskManager.Web/Services/TaskService.cs:498 | the position found holds the category with that key; none iff none has it |
| TaskService.SoftDeleteHidesCategory | TaskManager.Web/Services/TaskService.cs:502 | a soft-deleted category is no longer listed, and a second delete finds the same row already inactive, so by `DeleteCategory`'s contract it changes nothing |
| UsersController.CurrentUserId | TaskManager.Web/Controllers/UsersController.cs:30-34 | always a 32-bit integer: the parsed `UserId` claim when it parses, 0 when it is missing and 0 when it does not parse |
| UsersController.CurrentUserRole | TaskManager.Web/Controllers/UsersController.cs:24-28 | a missing role claim gives User, and a role other than User is granted only when the claim names it or holds its number |
| UsersController.CurrentUserIdRoundTrip | TaskManager.Web/Controllers/UsersController.cs:30-34 | a claim holding an id's decimal text yields that id |
| UsersController.UnparseableRoleIsUser | TaskManager.Web/Controllers/UsersController.cs:24-28 | an unparseable role claim gives the User role |
| UsersController.ToUserDtos | TaskManager.Web/Controllers/UsersController.cs:56-65 | one summary per user, in order |
| UsersController.GetUsers | TaskManager.Web/Controllers/UsersController.cs:36-75 | unauthorized, with "Token inválido", exactly when the id claim is unusable; otherwise a list with one row per listed user, never longer than the table |
| UsersController.GetUsersSound | TaskManager.Web/Controllers/UsersController.cs:36-75 | every listed user is active, and for a User-role caller is the caller; one row per listed user, ordered by name |
| UsersController.GetUsersSelfOnly | TaskManager.Web/Controllers/UsersController.cs:49-54 | a User-role caller sees at most one record, and its own active record when it has one |
| UsersController.GetUser | TaskManager.Web/Controllers/UsersController.cs:77-119 | no usable id claim is unauthorized; a User-role caller asking for another id is forbidden before any lookup; a permitted caller gets "Usuário não encontrado" exactly when no active user has the id, and otherwise that active user's summary |
| UsersController.GetUserSelf | TaskManager.Web/Controllers/UsersController.cs:85-113 | a caller with a usable id claim always gets its own active record |
| UsersController.GetUserStats | TaskManager.Web/Controllers/UsersController.cs:207-209 | the counts are returned iff the caller is an Admin or a Manager; anyone else is forbidden |
| UsersController.UserStatsOf | TaskManager.Web/Controllers/UsersController.cs:211-220 | the active total and both signup counts never exceed the table; `RoleCountsPartitionActive` and `RecentSignupsNested` relate the counts |
| UsersController.RoleCountsPartitionActive | TaskManager.Web/Controllers/UsersController.cs:215-218 | over the three defined roles, the admin, manager and regular-user counts add up to the active total |
| UsersController.RecentSignupsNested | TaskManager.Web/Controllers/UsersController.cs:219-220 | the week's signups never exceed the month's |
| UsersController.RecentSignupsMayExceedActive | TaskManager.Web/Controllers/UsersController.cs:215-219 | deactivated users count as signups, so the week's signups can exceed the active total |
| UsersController.UsersController.UpdateUserRole | TaskManager.Web/Controllers/UsersController.cs:121-153 | a non-Admin is forbidden; a missing or inactive target is not found, checked first; the caller's own id is refused; otherwise only the target's role changes |
| UsersController.UsersController.DeactivateUser | TaskManager.Web/Controllers/UsersController.cs:155-182 | a non-Admin is forbidden; a missing target is not found; self-deactivation is refused; otherwise only the target's `IsActive` becomes false, even when already false; the ledger is untouched |
| UsersController.UsersController.ActivateUser | TaskManager.Web/Controllers/UsersController.cs:184-205 | a non-Admin is forbidden; a missing target is not found; otherwise the target becomes active, with no self-check |
| UsersController.Activated | TaskManager.Web/Controllers/UsersController.cs:196 | only the target row changes, and it becomes active |
| UsersController.ActivateIdempotent | TaskManager.Web/Controllers/UsersController.cs:190-197 | activating twice is activating once, and the activated user can be read by id |

## Left out

- JWT signing, token validation and BCrypt internals are function values and parameters. The model makes no claim about cryptographic strength or about the freshness of random strings. Distinct refresh strings are a hypothesis of the replay lemmas, not an invariant of the store.
- Configured lifetimes are whole minutes and days. The configuration's `Convert.ToDouble` parsing and fractional durations are not modelled.
- Each operation reads one clock value. The source reads `DateTime.UtcNow` (and `DateTime.Now` in the task counts) several times per call; time zones and clock drift are not modelled.
- The catch-all blocks are modelled only where a failure is determined by the data: a null jti saved into a required column, and a foreign key that points nowhere. Store outages and other exceptions are out of scope.
- `int.Parse` and `int.TryParse` are modelled on an optional sign and decimal digits. Surrounding white space and culture-specific forms are not modelled.
- UsersController.RoleCountsPartitionActive: the partition holds only because the model's role type has exactly the three defined roles. The source can store an undefined role number (`TaskManager.Web/Controllers/UsersController.cs:144`, bound without validation at `:234`). Such an active user counts in `TotalUsers` (`:215`) and in none of the three role counts (`:216-218`), so in the source the role counts can fall short of the total.
- The task enums have the same gap. `TaskUpdateDto.Priority` and `TaskUpdateDto.Status` (`TaskManager.Web/DTOs/TaskDtos.cs:36`, `:38`) have no default and no validation, so a request body that omits them binds the undefined value 0. `UpdateTaskAsync` stores that value (`TaskManager.Web/Services/TaskService.cs:226`, `:232-239`). `Models.TaskPriority` and `Models.TaskStatus` have only the defined members and cannot represent it. A task stored with status 0 counts in the dashboard total and in none of the status counts.
- Models.ParseRole: modelled on the exact role names and the numbers 1 to 3, and maps every other claim to User. `Enum.TryParse` also accepts the text of an undefined number such as "5", comma-separated lists and surrounding white space, and yields a role value that is not User for them. Such a claim can arise from this application itself: `UpdateUserRoleDto.Role` (`TaskManager.Web/Controllers/UsersController.cs:234`) is bound from the request body without range validation, so an Admin can store an undefined role number, which is later issued in the role claim. Every `== UserRole.User` gate in the source then treats that caller as staff, while the model treats it as User. The model does not capture this privilege path; its role type has only the three defined roles.
- `ToLower` is modelled on ASCII letters only, and search matches substrings of the lower-cased text. Database collation is not modelled. Email comparison is exact.
- Sorting is a stable insertion sort on a key. Titles compare by character code, and tasks without a due date sort first. The order of ties, and the database's own collation and null ordering, are not modelled.
- `TaskAccess.GetTasksComplete`: completeness is stated only for a first page at least as large as the table. For other pages it is implied by the sorted selection being sliced, but not stated as its own lemma.
- Paging follows LINQ semantics: a negative `Skip` skips nothing and a negative `Take` takes nothing. A database provider may reject those.
- The completion rate of the task counts is floating point and is not modelled.
- The display names in task, comment and user summaries are not modelled. These are the creator, assignee and category names and the comment author's name with its "Usuário" fallback.
- DTO validation attributes, `ModelState` checks, the password rules and the class-level `[Authorize]` challenge are declarative framework behaviour and are left out. Role gates are modelled only for `UsersController`, as the Forbidden branches driven by the claims' role set.
- TaskService.TaskService.CreateCategory and TaskService.TaskService.DeleteCategory carry no role gate. In the application they are reachable only through `CategoriesController`, whose `[Authorize(Roles = "Admin,Manager")]` on create (`TaskManager.Web/Controllers/CategoriesController.cs:44`) and `[Authorize(Roles = "Admin")]` on delete (`TaskManager.Web/Controllers/CategoriesController.cs:70`) are not part of this model; the service methods themselves check no role.
- The model does not carry the task foreign keys in `Valid()`. Writes check them at the moment of writing, and users and categories are never physically deleted.
- `AuthService.AuthService.ChangePassword` requires its id to be a 32-bit integer, the range of the C# `int` it takes.
- Concurrency, async/await and refresh races are not modelled. Each operation is one atomic step, except Register, whose two saves are modelled in order.
- JwtMiddleware.cs, the other controllers, the cookie sign-in and the view models are not part of this model.
