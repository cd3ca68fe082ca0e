/**
 * The read side of the task service: who may see, change and delete a task
 * or a comment, the filtered and paged task list, the single-task read, the
 * dashboard counts, a task's comments and the category list.
 */
module TaskAccess {
  import opened Common
  import opened Numbers
  import opened Text
  import opened Ordering
  import opened Models

  // ----- permissions -----

  /** A User-role caller sees the tasks it created or is assigned to; Managers and Admins see every task. */
  predicate Visible(userId: int, role: UserRole, t: TaskItem)
    ensures role != UserRole.User ==> Visible(userId, role, t)
    ensures role == UserRole.User && Visible(userId, role, t) ==>
      t.createdByUserId == userId || t.assignedToUserId == Some(userId)
  {
    role != UserRole.User || t.createdByUserId == userId || t.assignedToUserId == Some(userId)
  }

  /** Only the creator may delete a task, unless the caller is a Manager or Admin; an assignee may not. */
  predicate MayDelete(userId: int, role: UserRole, t: TaskItem)
    ensures MayDelete(userId, role, t) ==> Visible(userId, role, t)
    ensures role == UserRole.User && MayDelete(userId, role, t) ==> t.createdByUserId == userId
  {
    role != UserRole.User || t.createdByUserId == userId
  }

  /** A User-role caller may delete only its own comments. */
  predicate MayDeleteComment(userId: int, role: UserRole, c: TaskComment)
    ensures role != UserRole.User ==> MayDeleteComment(userId, role, c)
    ensures role == UserRole.User && MayDeleteComment(userId, role, c) ==> c.userId == userId
  {
    role != UserRole.User || c.userId == userId
  }

  /** Whoever may delete a task may also see it, and for an assignee who did not create it the converse fails. */
  lemma DeleteNarrowerThanVisible(userId: int, role: UserRole, t: TaskItem)
    ensures MayDelete(userId, role, t) ==> Visible(userId, role, t)
    ensures role == UserRole.User && t.createdByUserId != userId && t.assignedToUserId == Some(userId) ==>
      Visible(userId, role, t) && !MayDelete(userId, role, t)
  {
  }

  // ----- the CompletedAt rule -----

  /**
   * `CompletedAt` after a status change: stamped when the task enters
   * Completed, cleared when it leaves it, otherwise kept.
   */
  function CompletedAfter(from: TaskStatus, completedAt: Option<Time>, to: TaskStatus, now: Time): (r: Option<Time>)
    ensures from != Completed && to == Completed ==> r == Some(now)
    ensures from == Completed && to != Completed ==> r.None?
    ensures (from == Completed) == (to == Completed) ==> r == completedAt
  {
    if from != Completed && to == Completed then Some(now)
    else if from == Completed && to != Completed then None
    else completedAt
  }

  /** The rule keeps `CompletedAt` recorded exactly while the task is completed. */
  lemma CompletedAfterRecords(t: TaskItem, to: TaskStatus, now: Time)
    ensures CompletionRecorded(t) ==> CompletionRecorded(t.(status := to, completedAt := CompletedAfter(t.status, t.completedAt, to, now)))
  {
  }

  /** Re-submitting a task's current status leaves `CompletedAt` as it was. */
  lemma CompletedAfterSameStatus(t: TaskItem, now: Time)
    ensures CompletedAfter(t.status, t.completedAt, t.status, now) == t.completedAt
  {
  }

  // ----- the task list -----

  predicate StatusMatches(f: TaskFilter, t: TaskItem) { f.status.None? || t.status == f.status.value }
  predicate PriorityMatches(f: TaskFilter, t: TaskItem) { f.priority.None? || t.priority == f.priority.value }
  predicate CategoryMatches(f: TaskFilter, t: TaskItem) { f.categoryId.None? || t.categoryId == f.categoryId }
  predicate AssigneeMatches(f: TaskFilter, t: TaskItem) { f.assignedToUserId.None? || t.assignedToUserId == f.assignedToUserId }

  /** A bound on the due date excludes every task without one. */
  predicate DueFromMatches(f: TaskFilter, t: TaskItem)
  {
    f.dueDateFrom.None? || (t.dueDate.Some? && t.dueDate.value >= f.dueDateFrom.value)
  }

  predicate DueToMatches(f: TaskFilter, t: TaskItem)
  {
    f.dueDateTo.None? || (t.dueDate.Some? && t.dueDate.value <= f.dueDateTo.value)
  }

  /** A non-empty search term must occur, ignoring case, in the title or the description. */
  predicate SearchMatches(f: TaskFilter, t: TaskItem)
  {
    f.searchTerm.None? || f.searchTerm.value == "" ||
    Contains(Lower(t.title), Lower(f.searchTerm.value)) || Contains(Lower(t.description), Lower(f.searchTerm.value))
  }

  /** Every filter the request supplies holds of the task. */
  predicate TaskMatches(f: TaskFilter, t: TaskItem)
  {
    StatusMatches(f, t) && PriorityMatches(f, t) && CategoryMatches(f, t) && AssigneeMatches(f, t) &&
    DueFromMatches(f, t) && DueToMatches(f, t) && SearchMatches(f, t)
  }

  /**
   * The `Where` chain of the task list in its order: the visibility clause,
   * then one clause per supplied filter. A filter that is not supplied
   * contributes a clause that accepts every task.
   */
  function WhereClauses(userId: int, role: UserRole, f: TaskFilter): seq<TaskItem -> bool>
  {
    [t => Visible(userId, role, t),
     t => StatusMatches(f, t), t => PriorityMatches(f, t),
     t => CategoryMatches(f, t), t => AssigneeMatches(f, t),
     t => DueFromMatches(f, t), t => DueToMatches(f, t),
     t => SearchMatches(f, t)]
  }

  function Selection(tasks: seq<TaskItem>, userId: int, role: UserRole, f: TaskFilter): seq<TaskItem>
  {
    FilterEach(tasks, WhereClauses(userId, role, f))
  }

  /** The chain selects, in table order, exactly the visible tasks that satisfy every filter. */
  lemma SelectionIsConjunction(tasks: seq<TaskItem>, userId: int, role: UserRole, f: TaskFilter)
    ensures Selection(tasks, userId, role, f) == Filter(tasks, Wanted(userId, role, f))
  {
    var ps := WhereClauses(userId, role, f);
    FilterEachIsConjunction(tasks, ps);
    forall t ensures AllHold(ps, t) == Wanted(userId, role, f)(t) {
      ClausesAreWanted(userId, role, f, t);
    }
    FilterCongruent(tasks, t => AllHold(ps, t), Wanted(userId, role, f));
  }

  lemma ClausesAreWanted(userId: int, role: UserRole, f: TaskFilter, t: TaskItem)
    ensures AllHold(WhereClauses(userId, role, f), t) == Wanted(userId, role, f)(t)
  {
    var ps := WhereClauses(userId, role, f);
    assert ps[0](t) == Visible(userId, role, t);
    assert ps[1](t) == StatusMatches(f, t) && ps[2](t) == PriorityMatches(f, t);
    assert ps[3](t) == CategoryMatches(f, t) && ps[4](t) == AssigneeMatches(f, t);
    assert ps[5](t) == DueFromMatches(f, t) && ps[6](t) == DueToMatches(f, t);
    assert ps[7](t) == SearchMatches(f, t);
  }

  /** The tasks the list wants: visible to the caller and satisfying every filter. */
  function Wanted(userId: int, role: UserRole, f: TaskFilter): TaskItem -> bool
  {
    t => Visible(userId, role, t) && TaskMatches(f, t)
  }

  /** The ordering key for `SortBy`, chosen on its lower-cased name; any other name orders by creation time. */
  function SortKey(sortBy: string): TaskItem -> seq<int>
  {
    var name := Lower(sortBy);
    if name == "title" then (t: TaskItem) => StringKey(t.title)
    else if name == "priority" then (t: TaskItem) => [PriorityValue(t.priority)]
    else if name == "status" then (t: TaskItem) => [StatusValue(t.status)]
    else if name == "duedate" then (t: TaskItem) => DueDateKey(t.dueDate)
    else (t: TaskItem) => [t.createdAt]
  }

  /** Tasks without a due date come before every dated task in ascending order. */
  function DueDateKey(d: Option<Time>): (k: seq<int>)
    ensures d.None? ==> k == [0]
    ensures d.Some? ==> k == [1, d.value]
  {
    if d.None? then [0] else [1, d.value]
  }

  /** The sort key name is matched case-insensitively. */
  lemma SortKeyIgnoresCase(sortBy: string)
    ensures SortKey(Lower(sortBy)) == SortKey(sortBy)
  {
    LowerIdempotent(sortBy);
  }

  /** `Skip(n)`: nothing is skipped for `n <= 0`. */
  function Skip<T>(s: seq<T>, n: int): (r: seq<T>)
    ensures n <= 0 ==> r == s
    ensures 0 < n <= |s| ==> r == s[n..]
    ensures n > |s| ==> r == []
    ensures |r| <= |s|
  {
    if n <= 0 then s else if n >= |s| then [] else s[n..]
  }

  /** `Take(n)`: nothing is taken for `n <= 0`. */
  function Take<T>(s: seq<T>, n: int): (r: seq<T>)
    ensures n <= 0 ==> r == []
    ensures 0 < n <= |s| ==> r == s[..n]
    ensures n > |s| ==> r == s
    ensures |r| <= |s| && |r| <= (if n > 0 then n else 0)
  {
    if n <= 0 then [] else if n >= |s| then s else s[..n]
  }

  /** The offset `(Page - 1) * PageSize`, computed in 32-bit arithmetic. */
  function PageOffset(f: TaskFilter): (r: int)
    ensures IsInt32(r)
    ensures IsInt32((f.page - 1) * f.pageSize) ==> r == (f.page - 1) * f.pageSize
  {
    Wrap32((f.page - 1) * f.pageSize)
  }

  /** `GetTasksAsync`: select, order, then cut out one page. */
  function GetTasks(tasks: seq<TaskItem>, f: TaskFilter, userId: int, role: UserRole): (r: seq<TaskItem>)
    ensures |r| <= |tasks|
    ensures |r| <= (if f.pageSize > 0 then f.pageSize else 0)
  {
    var selected := Selection(tasks, userId, role, f);
    var ordered := SortBy(SortKey(f.sortBy), f.sortDescending, selected);
    assert |ordered| == |selected| <= |tasks|;
    Take(Skip(ordered, PageOffset(f)), f.pageSize)
  }

  /** One page of a sorted sequence: in order, no longer than the page size, made of elements of the sequence. */
  lemma PageOfSorted<T>(key: T -> seq<int>, descending: bool, s: seq<T>, offset: int, size: int)
    requires Sorted(key, descending, s)
    ensures var r := Take(Skip(s, offset), size);
      |r| <= (if size > 0 then size else 0) &&
      (forall i :: 0 <= i < |r| ==> r[i] in s) &&
      Sorted(key, descending, r)
  {
    var lo := if offset <= 0 then 0 else if offset >= |s| then |s| else offset;
    var skipped := Skip(s, offset);
    assert skipped == s[lo..];
    SortedSlice(key, descending, s, lo, |s|);
    var hi := if size <= 0 then 0 else if size >= |skipped| then |skipped| else size;
    var r := Take(skipped, size);
    assert r == skipped[..hi];
    SortedSlice(key, descending, skipped, 0, hi);
    forall i | 0 <= i < |r| ensures r[i] in s {
      assert r[i] == s[lo + i];
    }
  }

  /**
   * Every listed task is visible to the caller and satisfies every filter;
   * the page holds at most `PageSize` tasks and is in the requested order.
   */
  lemma GetTasksSound(tasks: seq<TaskItem>, f: TaskFilter, userId: int, role: UserRole)
    ensures var r := GetTasks(tasks, f, userId, role);
      |r| <= (if f.pageSize > 0 then f.pageSize else 0) &&
      (forall i :: 0 <= i < |r| ==> Visible(userId, role, r[i]) && TaskMatches(f, r[i])) &&
      Sorted(SortKey(f.sortBy), f.sortDescending, r)
  {
    var key := SortKey(f.sortBy);
    var sel := Selection(tasks, userId, role, f);
    var ordered := SortBy(key, f.sortDescending, sel);
    SortBySorted(key, f.sortDescending, sel);
    PageOfSorted(key, f.sortDescending, ordered, PageOffset(f), f.pageSize);
    SelectionIsConjunction(tasks, userId, role, f);
    var r := GetTasks(tasks, f, userId, role);
    forall i | 0 <= i < |r| ensures Visible(userId, role, r[i]) && TaskMatches(f, r[i]) {
      assert r[i] in multiset(ordered);
      assert r[i] in sel;
      assert Wanted(userId, role, f)(r[i]);
    }
  }

  /**
   * The first page, when it is large enough, lists every visible task that
   * satisfies the filters, each exactly as often as it occurs in the table.
   */
  lemma GetTasksComplete(tasks: seq<TaskItem>, f: TaskFilter, userId: int, role: UserRole)
    requires f.page == 1 && f.pageSize >= |tasks|
    ensures multiset(GetTasks(tasks, f, userId, role)) ==
      multiset(Filter(tasks, Wanted(userId, role, f)))
  {
    var sel := Selection(tasks, userId, role, f);
    var ordered := SortBy(SortKey(f.sortBy), f.sortDescending, sel);
    assert PageOffset(f) == 0 by { assert (f.page - 1) * f.pageSize == 0; }
    assert Skip(ordered, PageOffset(f)) == ordered;
    assert |ordered| == |sel| <= |tasks|;
    assert Take(ordered, f.pageSize) == ordered;
    assert GetTasks(tasks, f, userId, role) == ordered;
    SelectionIsConjunction(tasks, userId, role, f);
  }

  /** Managers and Admins are not narrowed: with no filter supplied they list the whole table on a large first page. */
  lemma GetTasksUnscopedForStaff(tasks: seq<TaskItem>, f: TaskFilter, userId: int, role: UserRole)
    requires role != UserRole.User
    requires f.status.None? && f.priority.None? && f.categoryId.None? && f.assignedToUserId.None?
    requires f.dueDateFrom.None? && f.dueDateTo.None? && f.searchTerm.None?
    requires f.page == 1 && f.pageSize >= |tasks|
    ensures multiset(GetTasks(tasks, f, userId, role)) == multiset(tasks)
  {
    GetTasksComplete(tasks, f, userId, role);
    forall i | 0 <= i < |tasks| ensures Wanted(userId, role, f)(tasks[i]) {
      assert TaskMatches(f, tasks[i]);
    }
    FilterAll(tasks, Wanted(userId, role, f));
  }

  // ----- single task -----

  /** `GetTaskByIdAsync`: the task with that key, provided the caller may see it. */
  function GetTaskById(tasks: seq<TaskItem>, taskId: int, userId: int, role: UserRole): (r: Option<TaskItem>)
    ensures r.Some? ==> r.value in tasks && r.value.id == taskId && Visible(userId, role, r.value)
    ensures r.None? <==> forall i :: 0 <= i < |tasks| ==> !(tasks[i].id == taskId && Visible(userId, role, tasks[i]))
  {
    match FirstIndex(tasks, (t: TaskItem) => t.id == taskId && Visible(userId, role, t))
    case None => None
    case Some(k) => Some(tasks[k])
  }

  /** `FindAsync(id)`: the position of the task with that key, visible or not. */
  function TaskIndex(tasks: seq<TaskItem>, taskId: int): (r: Option<nat>)
    ensures r.Some? ==> r.value < |tasks| && tasks[r.value].id == taskId
    ensures r.None? <==> forall i :: 0 <= i < |tasks| ==> tasks[i].id != taskId
  {
    FirstIndex(tasks, (t: TaskItem) => t.id == taskId)
  }

  /** The single read agrees with the list: a visible task is found by its key. */
  lemma GetTaskByIdFindsVisible(tasks: seq<TaskItem>, i: nat, userId: int, role: UserRole)
    requires i < |tasks| && Visible(userId, role, tasks[i])
    requires forall j :: 0 <= j < |tasks| && j != i ==> tasks[j].id != tasks[i].id
    ensures GetTaskById(tasks, tasks[i].id, userId, role) == Some(tasks[i])
  {
    var r := FirstIndex(tasks, (t: TaskItem) => t.id == tasks[i].id && Visible(userId, role, t));
    assert r.Some?;
  }

  // ----- dashboard counts -----

  datatype TaskStats = TaskStats(
    total: nat,
    pending: nat,
    inProgress: nat,
    completed: nat,
    overdue: nat,
    dueSoon: nat,
    highPriority: nat,
    criticalPriority: nat)

  /** Two days, the horizon of "due soon". */
  const DueSoonWindow: int := 2 * SecondsPerDay

  predicate Overdue(t: TaskItem, now: Time)
  {
    t.dueDate.Some? && t.dueDate.value < now && t.status != Completed
  }

  predicate DueSoon(t: TaskItem, now: Time)
  {
    t.dueDate.Some? && t.dueDate.value <= now + DueSoonWindow && t.status != Completed
  }

  function VisibleTo(userId: int, role: UserRole): TaskItem -> bool
  {
    t => Visible(userId, role, t)
  }

  function HasStatus(s: TaskStatus): TaskItem -> bool { (t: TaskItem) => t.status == s }
  function IsOpen(): TaskItem -> bool { (t: TaskItem) => t.status != Completed }
  function OpenWithPriority(p: TaskPriority): TaskItem -> bool { (t: TaskItem) => t.priority == p && t.status != Completed }
  function OverdueAt(now: Time): TaskItem -> bool { t => Overdue(t, now) }
  function DueSoonAt(now: Time): TaskItem -> bool { t => DueSoon(t, now) }

  /** The tasks the counts range over: the caller's visible tasks. */
  function Scope(tasks: seq<TaskItem>, userId: int, role: UserRole): (r: seq<TaskItem>)
    ensures forall i :: 0 <= i < |r| ==> Visible(userId, role, r[i])
  {
    if role == UserRole.User then Filter(tasks, VisibleTo(userId, role)) else tasks
  }

  /** `GetTaskStatsAsync` without the completion rate. `now` is the local clock the due-date tests read. */
  function GetTaskStats(tasks: seq<TaskItem>, userId: int, role: UserRole, now: Time): (r: TaskStats)
    ensures r.total <= |tasks|
    ensures r.pending <= r.total && r.inProgress <= r.total && r.completed <= r.total
    ensures r.overdue <= r.total && r.dueSoon <= r.total
    ensures r.highPriority <= r.total && r.criticalPriority <= r.total
  {
    var q := Scope(tasks, userId, role);
    TaskStats(
      |q|,
      |Filter(q, HasStatus(Pending))|,
      |Filter(q, HasStatus(InProgress))|,
      |Filter(q, HasStatus(Completed))|,
      |Filter(q, OverdueAt(now))|,
      |Filter(q, DueSoonAt(now))|,
      |Filter(q, OpenWithPriority(High))|,
      |Filter(q, OpenWithPriority(Critical))|)
  }

  /** Every overdue task is also due soon. */
  lemma StatsOverdueWithinDueSoon(tasks: seq<TaskItem>, userId: int, role: UserRole, now: Time)
    ensures var s := GetTaskStats(tasks, userId, role, now); s.overdue <= s.dueSoon
  {
    FilterCountMonotone(Scope(tasks, userId, role), OverdueAt(now), DueSoonAt(now));
  }

  /** The pending, in-progress and completed counts together never exceed the total. */
  lemma StatsStatusesWithinTotal(tasks: seq<TaskItem>, userId: int, role: UserRole, now: Time)
    ensures var s := GetTaskStats(tasks, userId, role, now); s.pending + s.inProgress + s.completed <= s.total
  {
    var q := Scope(tasks, userId, role);
    var isP, isI, isC := HasStatus(Pending), HasStatus(InProgress), HasStatus(Completed);
    var pOrI := Or(isP, isI);
    FilterDisjointSum(q, isP, isI);
    FilterDisjointSum(q, pOrI, isC);
    var any := Or(pOrI, isC);
    assert |Filter(q, any)| <= |q|;
    var s := GetTaskStats(tasks, userId, role, now);
    assert s.pending == |Filter(q, isP)| && s.inProgress == |Filter(q, isI)|;
    assert s.completed == |Filter(q, isC)| && s.total == |q|;
  }

  /** Due-soon tasks are open, so they and the completed tasks together never exceed the total. */
  lemma StatsDueSoonAreOpen(tasks: seq<TaskItem>, userId: int, role: UserRole, now: Time)
    ensures var s := GetTaskStats(tasks, userId, role, now); s.dueSoon + s.completed <= s.total
  {
    var q := Scope(tasks, userId, role);
    FilterPartition(q, HasStatus(Completed), IsOpen());
    FilterCountMonotone(q, DueSoonAt(now), IsOpen());
  }

  /** High and critical counts are of open tasks, so with the completed tasks they never exceed the total. */
  lemma StatsPriorityAreOpen(tasks: seq<TaskItem>, userId: int, role: UserRole, now: Time)
    ensures var s := GetTaskStats(tasks, userId, role, now); s.highPriority + s.criticalPriority + s.completed <= s.total
  {
    var q := Scope(tasks, userId, role);
    FilterPartition(q, HasStatus(Completed), IsOpen());
    var hi, cr := OpenWithPriority(High), OpenWithPriority(Critical);
    FilterDisjointSum(q, hi, cr);
    FilterCountMonotone(q, Or(hi, cr), IsOpen());
    var s := GetTaskStats(tasks, userId, role, now);
    assert s.highPriority == |Filter(q, hi)| && s.criticalPriority == |Filter(q, cr)|;
    assert s.completed == |Filter(q, HasStatus(Completed))| && s.total == |q|;
  }

  /** For a User-role caller the total counts exactly its visible tasks; for staff it counts the whole table. */
  lemma StatsTotalIsScope(tasks: seq<TaskItem>, userId: int, role: UserRole, now: Time)
    ensures role != UserRole.User ==> GetTaskStats(tasks, userId, role, now).total == |tasks|
    ensures GetTaskStats(tasks, userId, role, now).total == |Filter(tasks, VisibleTo(userId, role))|
  {
    if role != UserRole.User {
      FilterAll(tasks, VisibleTo(userId, role));
    }
  }

  // ----- comments -----

  function OnTask(taskId: int): TaskComment -> bool { (c: TaskComment) => c.taskId == taskId }

  function CommentTimeKey(c: TaskComment): seq<int> { [c.createdAt] }

  /** `GetTaskCommentsAsync`: nothing unless the caller may see the task; then the task's comments by creation time. */
  function GetTaskComments(tasks: seq<TaskItem>, comments: seq<TaskComment>, taskId: int, userId: int, role: UserRole)
    : (r: seq<TaskComment>)
    ensures |r| <= |comments|
    ensures forall i :: 0 <= i < |r| ==> r[i] in comments && r[i].taskId == taskId
  {
    if !AnyMatch(tasks, (t: TaskItem) => t.id == taskId && Visible(userId, role, t)) then []
    else
      var mine := Filter(comments, OnTask(taskId));
      var ordered := SortBy(CommentTimeKey, false, mine);
      assert forall i :: 0 <= i < |ordered| ==> ordered[i] in multiset(mine);
      ordered
  }

  /**
   * Hidden or missing task: no comments. Visible task: all of its comments
   * and nothing else, oldest first.
   */
  lemma GetTaskCommentsSpec(tasks: seq<TaskItem>, comments: seq<TaskComment>, taskId: int, userId: int, role: UserRole)
    ensures var r := GetTaskComments(tasks, comments, taskId, userId, role);
      (GetTaskById(tasks, taskId, userId, role).None? ==> r == []) &&
      (GetTaskById(tasks, taskId, userId, role).Some? ==>
        multiset(r) == multiset(Filter(comments, OnTask(taskId))) &&
        Sorted(CommentTimeKey, false, r))
  {
    var found := GetTaskById(tasks, taskId, userId, role);
    if found.Some? {
      var k :| 0 <= k < |tasks| && tasks[k] == found.value;
      assert tasks[k].id == taskId && Visible(userId, role, tasks[k]);
      SortBySorted(CommentTimeKey, false, Filter(comments, OnTask(taskId)));
    }
  }

  // ----- categories -----

  function InCategory(categoryId: int): TaskItem -> bool { (t: TaskItem) => t.categoryId == Some(categoryId) }
  function IsActiveCategory(): Category -> bool { (c: Category) => c.isActive }

  function ToCategoryDto(c: Category, tasks: seq<TaskItem>): (d: CategoryDto)
    ensures d.id == c.id && d.name == c.name && d.description == c.description
    ensures d.color == c.color && d.isActive == c.isActive
    ensures d.taskCount == |Filter(tasks, InCategory(c.id))|
  {
    CategoryDto(c.id, c.name, c.description, c.color, c.isActive,
                |Filter(tasks, InCategory(c.id))|)
  }

  function CategoryNameKey(d: CategoryDto): seq<int> { StringKey(d.name) }

  function ActiveCategoryDtos(categories: seq<Category>, tasks: seq<TaskItem>): (r: seq<CategoryDto>)
    ensures |r| == |Filter(categories, IsActiveCategory())|
    ensures forall i :: 0 <= i < |r| ==> r[i] == ToCategoryDto(Filter(categories, IsActiveCategory())[i], tasks)
  {
    var active := Filter(categories, IsActiveCategory());
    seq(|active|, i requires 0 <= i < |active| => ToCategoryDto(active[i], tasks))
  }

  /** `GetCategoriesAsync`: the active categories with their task counts, ordered by name. */
  function GetCategories(categories: seq<Category>, tasks: seq<TaskItem>): (r: seq<CategoryDto>)
    ensures |r| == |Filter(categories, IsActiveCategory())|
  {
    SortBy(CategoryNameKey, false, ActiveCategoryDtos(categories, tasks))
  }

  /** Every listed row is the summary of an active category. */
  lemma GetCategoriesOnlyActive(categories: seq<Category>, tasks: seq<TaskItem>)
    ensures var r := GetCategories(categories, tasks);
      forall i :: 0 <= i < |r| ==>
        r[i].isActive &&
        exists j :: 0 <= j < |categories| && categories[j].isActive && r[i] == ToCategoryDto(categories[j], tasks)
  {
    var dtos := ActiveCategoryDtos(categories, tasks);
    var active := Filter(categories, IsActiveCategory());
    var r := GetCategories(categories, tasks);
    forall i | 0 <= i < |r| ensures
      exists j :: 0 <= j < |categories| && categories[j].isActive && r[i] == ToCategoryDto(categories[j], tasks)
    {
      assert r[i] in multiset(dtos);
      var m :| 0 <= m < |dtos| && dtos[m] == r[i];
      assert active[m] in categories && IsActiveCategory()(active[m]);
      var j :| 0 <= j < |categories| && categories[j] == active[m];
      assert r[i] == ToCategoryDto(categories[j], tasks);
    }
  }

  /** Every active category is listed, in name order, one row per active category. */
  lemma GetCategoriesAllActive(categories: seq<Category>, tasks: seq<TaskItem>)
    ensures var r := GetCategories(categories, tasks);
      |r| == |Filter(categories, IsActiveCategory())| &&
      (forall j :: 0 <= j < |categories| && categories[j].isActive ==> ToCategoryDto(categories[j], tasks) in r) &&
      Sorted(CategoryNameKey, false, r)
  {
    var dtos := ActiveCategoryDtos(categories, tasks);
    var active := Filter(categories, IsActiveCategory());
    var r := GetCategories(categories, tasks);
    SortBySorted(CategoryNameKey, false, dtos);
    forall j | 0 <= j < |categories| && categories[j].isActive ensures ToCategoryDto(categories[j], tasks) in r {
      assert IsActiveCategory()(categories[j]);
      var m :| 0 <= m < |active| && active[m] == categories[j];
      assert dtos[m] == ToCategoryDto(categories[j], tasks);
      assert dtos[m] in multiset(r);
    }
  }
}
