/**
 * The entities of the task manager (users, refresh tokens, tasks, comments,
 * categories), the enumerations with their underlying values, and the
 * request and response records the services exchange.
 *
 * Every `DateTime` is a `Time`: a count of seconds on one clock.
 */
module Models {
  import opened Common
  import opened Numbers

  type Time = int

  const SecondsPerMinute: int := 60
  const SecondsPerDay: int := 86400

  datatype UserRole = User | Manager | Admin

  /** The enum's underlying value (`User = 1, Manager = 2, Admin = 3`). */
  function RoleValue(r: UserRole): int
  {
    match r
    case User => 1
    case Manager => 2
    case Admin => 3
  }

  /** `Role.ToString()` */
  function RoleName(r: UserRole): string
  {
    match r
    case User => "User"
    case Manager => "Manager"
    case Admin => "Admin"
  }

  /**
   * `Enum.TryParse<UserRole>(claim, out var role) ? role : UserRole.User`:
   * a member name, or the decimal text of a member's value; a missing or
   * unrecognised claim falls back to `User`.
   */
  function ParseRole(claim: Option<string>): (r: UserRole)
    ensures claim.None? ==> r == UserRole.User
    ensures r != UserRole.User ==>
      claim.Some? && (claim.value == RoleName(r) || ParseInt32(claim.value) == Some(RoleValue(r)))
  {
    match claim
    case None => UserRole.User
    case Some(text) =>
      if text == "User" then UserRole.User
      else if text == "Manager" then Manager
      else if text == "Admin" then Admin
      else match ParseInt32(text)
        case Some(1) => UserRole.User
        case Some(2) => Manager
        case Some(3) => Admin
        case _ => UserRole.User
  }

  /** Both spellings a role can take in a claim, its name and its value, parse back to it. */
  lemma ParseRoleRoundTrip(r: UserRole)
    ensures ParseRole(Some(RoleName(r))) == r
    ensures ParseRole(Some(Int32ToString(RoleValue(r)))) == r
  {
    ParseInt32ToString(RoleValue(r));
  }

  datatype TaskPriority = Low | Medium | High | Critical

  function PriorityValue(p: TaskPriority): int
  {
    match p
    case Low => 1
    case Medium => 2
    case High => 3
    case Critical => 4
  }

  datatype TaskStatus = Pending | InProgress | Completed | Cancelled

  function StatusValue(s: TaskStatus): int
  {
    match s
    case Pending => 1
    case InProgress => 2
    case Completed => 3
    case Cancelled => 4
  }

  datatype User = User(
    id: int,
    name: string,
    email: string,
    passwordHash: string,
    role: UserRole,
    isActive: bool,
    createdAt: Time,
    lastLoginAt: Option<Time>)

  /** One row of the refresh-token ledger. */
  datatype RefreshToken = RefreshToken(
    id: int,
    token: string,
    jwtId: string,
    createdAt: Time,
    expiryDate: Time,
    isUsed: bool,
    isRevoked: bool,
    revokedAt: Option<Time>,
    userId: int)

  datatype TaskItem = TaskItem(
    id: int,
    title: string,
    description: string,
    priority: TaskPriority,
    status: TaskStatus,
    dueDate: Option<Time>,
    createdAt: Time,
    completedAt: Option<Time>,
    updatedAt: Option<Time>,
    createdByUserId: int,
    assignedToUserId: Option<int>,
    categoryId: Option<int>)

  /** `CompletedAt` is recorded exactly while the task is completed. */
  predicate CompletionRecorded(t: TaskItem)
  {
    (t.status == Completed) == t.completedAt.Some?
  }

  datatype TaskComment = TaskComment(
    id: int,
    content: string,
    createdAt: Time,
    taskId: int,
    userId: int)

  datatype Category = Category(
    id: int,
    name: string,
    description: Option<string>,
    color: string,
    isActive: bool,
    createdAt: Time)

  /** The user summary returned to clients; it never carries the password hash. */
  datatype UserDto = UserDto(
    id: int,
    name: string,
    email: string,
    role: string,
    createdAt: Time,
    lastLoginAt: Option<Time>)

  function ToUserDto(u: User): (d: UserDto)
    ensures d.id == u.id && d.name == u.name && d.email == u.email
    ensures d.role == RoleName(u.role) && d.createdAt == u.createdAt && d.lastLoginAt == u.lastLoginAt
  {
    UserDto(u.id, u.name, u.email, RoleName(u.role), u.createdAt, u.lastLoginAt)
  }

  datatype TaskCreateDto = TaskCreateDto(
    title: string,
    description: string,
    priority: TaskPriority,
    dueDate: Option<Time>,
    assignedToUserId: Option<int>,
    categoryId: Option<int>)

  datatype TaskUpdateDto = TaskUpdateDto(
    id: int,
    title: string,
    description: string,
    priority: TaskPriority,
    status: TaskStatus,
    dueDate: Option<Time>,
    assignedToUserId: Option<int>,
    categoryId: Option<int>)

  /** Query-string filter of the task list; `searchTerm` of `None` or `Some("")` filters nothing. */
  datatype TaskFilter = TaskFilter(
    status: Option<TaskStatus>,
    priority: Option<TaskPriority>,
    categoryId: Option<int>,
    assignedToUserId: Option<int>,
    dueDateFrom: Option<Time>,
    dueDateTo: Option<Time>,
    searchTerm: Option<string>,
    page: int,
    pageSize: int,
    sortBy: string,
    sortDescending: bool)

  datatype CreateTaskCommentDto = CreateTaskCommentDto(content: string, taskId: int)

  datatype CreateCategoryDto = CreateCategoryDto(name: string, description: Option<string>, color: string)

  datatype CategoryDto = CategoryDto(
    id: int,
    name: string,
    description: Option<string>,
    color: string,
    isActive: bool,
    taskCount: nat)
}
