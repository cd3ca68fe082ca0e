/**
 * The write side of the task service: creating, editing, completing and
 * deleting tasks, adding and deleting comments, and creating and
 * soft-deleting categories, each an in-place change of the context's tables.
 *
 * A write whose foreign keys point nowhere (a missing creator, assignee,
 * category or comment author) is refused by the database, the service's
 * catch-all turns the failure into its null or false result, and nothing is
 * stored.
 */
module TaskService {
  import opened Common
  import opened Models
  import opened Data
  import opened TaskAccess

  predicate HasCategory(categories: seq<Category>, id: int)
  {
    exists j :: 0 <= j < |categories| && categories[j].id == id
  }

  /** The foreign keys a task row carries all resolve (categories are only ever soft-deleted). */
  predicate TaskReferencesExist(users: seq<User>, categories: seq<Category>,
                                createdBy: int, assignee: Option<int>, category: Option<int>)
  {
    HasUser(users, createdBy) &&
    (assignee.None? || HasUser(users, assignee.value)) &&
    (category.None? || HasCategory(categories, category.value))
  }

  /** The row `CreateTaskAsync` inserts: pending, not completed, owned by the caller. */
  function NewTask(id: int, dto: TaskCreateDto, createdBy: int, now: Time): (t: TaskItem)
    ensures t.id == id && t.status == Pending && t.completedAt.None? && t.updatedAt.None?
    ensures t.createdByUserId == createdBy && t.createdAt == now
    ensures t.title == dto.title && t.description == dto.description
    ensures t.priority == dto.priority && t.dueDate == dto.dueDate
    ensures t.assignedToUserId == dto.assignedToUserId && t.categoryId == dto.categoryId
    ensures CompletionRecorded(t)
  {
    TaskItem(id, dto.title, dto.description, dto.priority, Pending, dto.dueDate, now, None, None,
             createdBy, dto.assignedToUserId, dto.categoryId)
  }

  /**
   * The edit `UpdateTaskAsync` applies: every editable field from the
   * request, `UpdatedAt` stamped, `CompletedAt` by the completion rule.
   * Key, creator and creation time never change.
   */
  function ApplyUpdate(t: TaskItem, dto: TaskUpdateDto, now: Time): (u: TaskItem)
    ensures u.id == t.id && u.createdByUserId == t.createdByUserId && u.createdAt == t.createdAt
    ensures u.status == dto.status && u.updatedAt == Some(now)
    ensures u.title == dto.title && u.description == dto.description
    ensures u.priority == dto.priority && u.dueDate == dto.dueDate
    ensures u.assignedToUserId == dto.assignedToUserId && u.categoryId == dto.categoryId
    ensures u.completedAt == CompletedAfter(t.status, t.completedAt, dto.status, now)
    ensures CompletionRecorded(t) ==> CompletionRecorded(u)
  {
    CompletedAfterRecords(t, dto.status, now);
    t.(title := dto.title, description := dto.description, priority := dto.priority, dueDate := dto.dueDate,
       assignedToUserId := dto.assignedToUserId, categoryId := dto.categoryId, updatedAt := Some(now),
       completedAt := CompletedAfter(t.status, t.completedAt, dto.status, now), status := dto.status)
  }

  /** The edit `CompleteTaskAsync` applies, whatever the previous status; every other field is kept. */
  function MarkCompleted(t: TaskItem, now: Time): (u: TaskItem)
    ensures u.status == Completed && u.completedAt == Some(now) && u.updatedAt == Some(now)
    ensures u.(status := t.status, completedAt := t.completedAt, updatedAt := t.updatedAt) == t
    ensures CompletionRecorded(u)
  {
    t.(status := Completed, completedAt := Some(now), updatedAt := Some(now))
  }

  function RemoveAt<T>(s: seq<T>, k: nat): (r: seq<T>)
    requires k < |s|
    ensures |r| == |s| - 1
    ensures forall i :: 0 <= i < k ==> r[i] == s[i]
    ensures forall i :: k <= i < |r| ==> r[i] == s[i + 1]
  {
    s[..k] + s[k + 1..]
  }

  /** With distinct keys, removing the row at the key's position leaves no row with that key. */
  lemma RemovedKeyIsGone<T>(s: seq<T>, key: T -> int, next: int, k: nat)
    requires KeysBelow(s, key, next) && k < |s|
    ensures forall i :: 0 <= i < |RemoveAt(s, k)| ==> key(RemoveAt(s, k)[i]) != key(s[k])
  {
    var r := RemoveAt(s, k);
    forall i | 0 <= i < |r| ensures key(r[i]) != key(s[k]) {
      if i < k {
        assert r[i] == s[i];
      } else {
        assert r[i] == s[i + 1];
      }
    }
  }

  lemma RecordedAfterEdit(tasks: seq<TaskItem>, k: nat, u: TaskItem)
    requires CompletionsRecorded(tasks) && k < |tasks| && CompletionRecorded(u)
    ensures CompletionsRecorded(tasks[k := u])
  {
  }

  lemma RecordedAfterRemove(tasks: seq<TaskItem>, k: nat)
    requires CompletionsRecorded(tasks) && k < |tasks|
    ensures CompletionsRecorded(RemoveAt(tasks, k))
  {
    var r := RemoveAt(tasks, k);
    forall i | 0 <= i < |r| ensures CompletionRecorded(r[i]) {
      assert r[i] == tasks[if i < k then i else i + 1];
    }
  }

  /**
   * An assignee who is not the creator and hands the task to someone else
   * loses sight of it: the edit is stored, but the re-read that
   * `UpdateTaskAsync` returns finds nothing.
   */
  lemma ReassignmentHidesTask(tasks: seq<TaskItem>, next: int, k: nat, dto: TaskUpdateDto, userId: int, now: Time)
    requires KeysBelow(tasks, TaskKey, next) && k < |tasks|
    requires tasks[k].createdByUserId != userId && dto.assignedToUserId != Some(userId)
    ensures GetTaskById(tasks[k := ApplyUpdate(tasks[k], dto, now)], tasks[k].id, userId, UserRole.User).None?
  {
    var after := tasks[k := ApplyUpdate(tasks[k], dto, now)];
    forall i | 0 <= i < |after| ensures !(after[i].id == tasks[k].id && Visible(userId, UserRole.User, after[i])) {
      if i != k {
        assert TaskKey(tasks[i]) != TaskKey(tasks[k]);
      }
    }
  }

  /** A Manager or Admin, or the creator, always gets the edited task back. */
  lemma UpdateResultForCreatorOrStaff(tasks: seq<TaskItem>, next: int, k: nat, dto: TaskUpdateDto,
                                      userId: int, role: UserRole, now: Time)
    requires KeysBelow(tasks, TaskKey, next) && k < |tasks|
    requires role != UserRole.User || tasks[k].createdByUserId == userId
    ensures var after := tasks[k := ApplyUpdate(tasks[k], dto, now)];
      GetTaskById(after, tasks[k].id, userId, role) == Some(after[k])
  {
    var after := tasks[k := ApplyUpdate(tasks[k], dto, now)];
    forall j | 0 <= j < |after| && j != k ensures after[j].id != after[k].id {
      assert TaskKey(tasks[j]) != TaskKey(tasks[k]);
    }
    GetTaskByIdFindsVisible(after, k, userId, role);
  }

  class TaskService {
    const context: AppDbContext

    constructor (context: AppDbContext)
      ensures this.context == context
    {
      this.context := context;
    }

    /** `CreateTaskAsync`: a pending task owned by the caller, returned as re-read. */
    method CreateTask(dto: TaskCreateDto, currentUserId: int, now: Time) returns (r: Option<TaskItem>)
      requires context.Valid()
      modifies context`tasks, context`nextTaskId
      ensures context.Valid()
      ensures !TaskReferencesExist(context.users, context.categories, currentUserId, dto.assignedToUserId, dto.categoryId) ==>
        r.None? && context.tasks == old(context.tasks)
      ensures TaskReferencesExist(context.users, context.categories, currentUserId, dto.assignedToUserId, dto.categoryId) ==>
        r == Some(NewTask(old(context.nextTaskId), dto, currentUserId, now)) &&
        context.tasks == old(context.tasks) + [r.value]
      ensures r.Some? ==> forall role :: GetTaskById(context.tasks, r.value.id, currentUserId, role) == r
    {
      if !TaskReferencesExist(context.users, context.categories, currentUserId, dto.assignedToUserId, dto.categoryId) {
        return None;
      }
      var t := NewTask(context.nextTaskId, dto, currentUserId, now);
      KeysBelowAppend(context.tasks, TaskKey, context.nextTaskId, t);
      var tasks' := context.tasks + [t];
      forall role ensures GetTaskById(tasks', t.id, currentUserId, role) == Some(t) {
        GetTaskByIdFindsVisible(tasks', |tasks'| - 1, currentUserId, role);
      }
      context.tasks, context.nextTaskId := tasks', context.nextTaskId + 1;
      r := Some(t);
    }

    /**
     * `UpdateTaskAsync`. A missing task and a task the caller may not see
     * give the same null and change nothing; otherwise the edit is stored
     * and the result is the task as the caller can now read it.
     */
    method UpdateTask(dto: TaskUpdateDto, userId: int, role: UserRole, now: Time) returns (r: Option<TaskItem>)
      requires context.Valid()
      modifies context`tasks
      ensures context.Valid()
      ensures var k := TaskIndex(old(context.tasks), dto.id);
        (k.None? || !Visible(userId, role, old(context.tasks)[k.value])) ==>
          r.None? && context.tasks == old(context.tasks)
      ensures var k := TaskIndex(old(context.tasks), dto.id);
        k.Some? && Visible(userId, role, old(context.tasks)[k.value]) &&
        !TaskReferencesExist(context.users, context.categories, old(context.tasks)[k.value].createdByUserId,
                             dto.assignedToUserId, dto.categoryId) ==>
          r.None? && context.tasks == old(context.tasks)
      ensures var k := TaskIndex(old(context.tasks), dto.id);
        k.Some? && Visible(userId, role, old(context.tasks)[k.value]) &&
        TaskReferencesExist(context.users, context.categories, old(context.tasks)[k.value].createdByUserId,
                            dto.assignedToUserId, dto.categoryId) ==>
          context.tasks == old(context.tasks)[k.value := ApplyUpdate(old(context.tasks)[k.value], dto, now)] &&
          r == GetTaskById(context.tasks, dto.id, userId, role)
    {
      var found := TaskIndex(context.tasks, dto.id);
      if found.None? {
        return None;
      }
      var k := found.value;
      var t := context.tasks[k];
      if !Visible(userId, role, t) {
        return None;
      }
      if !TaskReferencesExist(context.users, context.categories, t.createdByUserId, dto.assignedToUserId, dto.categoryId) {
        return None;
      }
      var u := ApplyUpdate(t, dto, now);
      KeysBelowUpdate(context.tasks, TaskKey, context.nextTaskId, k, u);
      RecordedAfterEdit(context.tasks, k, u);
      context.tasks := context.tasks[k := u];
      r := GetTaskById(context.tasks, dto.id, userId, role);
    }

    /**
     * `DeleteTaskAsync`: only the creator, or a Manager or Admin, may
     * delete. The row goes, and the task's comments go with it.
     */
    method DeleteTask(taskId: int, userId: int, role: UserRole) returns (ok: bool)
      requires context.Valid()
      modifies context`tasks, context`taskComments
      ensures context.Valid()
      ensures var k := TaskIndex(old(context.tasks), taskId);
        (k.None? || !MayDelete(userId, role, old(context.tasks)[k.value])) ==>
          !ok && context.tasks == old(context.tasks) && context.taskComments == old(context.taskComments)
      ensures var k := TaskIndex(old(context.tasks), taskId);
        k.Some? && MayDelete(userId, role, old(context.tasks)[k.value]) ==>
          ok && context.tasks == RemoveAt(old(context.tasks), k.value) &&
          context.taskComments == Filter(old(context.taskComments), NotOnTask(taskId))
      ensures ok ==> TaskIndex(context.tasks, taskId).None?
    {
      var found := TaskIndex(context.tasks, taskId);
      if found.None? {
        return false;
      }
      var k := found.value;
      if !MayDelete(userId, role, context.tasks[k]) {
        return false;
      }
      KeysBelowRemoveAt(context.tasks, TaskKey, context.nextTaskId, k);
      RecordedAfterRemove(context.tasks, k);
      RemovedKeyIsGone(context.tasks, TaskKey, context.nextTaskId, k);
      KeysBelowFilter(context.taskComments, CommentKey, context.nextCommentId, NotOnTask(taskId));
      context.tasks, context.taskComments :=
        RemoveAt(context.tasks, k), Filter(context.taskComments, NotOnTask(taskId));
      ok := true;
    }

    /** `CompleteTaskAsync`: the update permission; the task becomes completed and stamped. */
    method CompleteTask(taskId: int, userId: int, role: UserRole, now: Time) returns (ok: bool)
      requires context.Valid()
      modifies context`tasks
      ensures context.Valid()
      ensures var k := TaskIndex(old(context.tasks), taskId);
        (k.None? || !Visible(userId, role, old(context.tasks)[k.value])) ==>
          !ok && context.tasks == old(context.tasks)
      ensures var k := TaskIndex(old(context.tasks), taskId);
        k.Some? && Visible(userId, role, old(context.tasks)[k.value]) ==>
          ok && context.tasks == old(context.tasks)[k.value := MarkCompleted(old(context.tasks)[k.value], now)]
    {
      var found := TaskIndex(context.tasks, taskId);
      if found.None? {
        return false;
      }
      var k := found.value;
      var t := context.tasks[k];
      if !Visible(userId, role, t) {
        return false;
      }
      var u := MarkCompleted(t, now);
      KeysBelowUpdate(context.tasks, TaskKey, context.nextTaskId, k, u);
      RecordedAfterEdit(context.tasks, k, u);
      context.tasks := context.tasks[k := u];
      ok := true;
    }

    /**
     * `AddTaskCommentAsync`: any caller may comment on any existing task,
     * visible to it or not.
     */
    method AddTaskComment(dto: CreateTaskCommentDto, userId: int, now: Time) returns (r: Option<TaskComment>)
      requires context.Valid()
      modifies context`taskComments, context`nextCommentId
      ensures context.Valid()
      ensures TaskIndex(context.tasks, dto.taskId).None? || !HasUser(context.users, userId) ==>
        r.None? && context.taskComments == old(context.taskComments)
      ensures TaskIndex(context.tasks, dto.taskId).Some? && HasUser(context.users, userId) ==>
        r == Some(TaskComment(old(context.nextCommentId), dto.content, now, dto.taskId, userId)) &&
        context.taskComments == old(context.taskComments) + [r.value]
    {
      if TaskIndex(context.tasks, dto.taskId).None? || !HasUser(context.users, userId) {
        return None;
      }
      var c := TaskComment(context.nextCommentId, dto.content, now, dto.taskId, userId);
      KeysBelowAppend(context.taskComments, CommentKey, context.nextCommentId, c);
      context.taskComments, context.nextCommentId := context.taskComments + [c], context.nextCommentId + 1;
      r := Some(c);
    }

    /** `DeleteTaskCommentAsync`: a User-role caller may delete only its own comments. */
    method DeleteTaskComment(commentId: int, userId: int, role: UserRole) returns (ok: bool)
      requires context.Valid()
      modifies context`taskComments
      ensures context.Valid()
      ensures var k := CommentIndex(old(context.taskComments), commentId);
        (k.None? || !MayDeleteComment(userId, role, old(context.taskComments)[k.value])) ==>
          !ok && context.taskComments == old(context.taskComments)
      ensures var k := CommentIndex(old(context.taskComments), commentId);
        k.Some? && MayDeleteComment(userId, role, old(context.taskComments)[k.value]) ==>
          ok && context.taskComments == RemoveAt(old(context.taskComments), k.value)
      ensures ok ==> CommentIndex(context.taskComments, commentId).None?
    {
      var found := CommentIndex(context.taskComments, commentId);
      if found.None? {
        return false;
      }
      var k := found.value;
      if !MayDeleteComment(userId, role, context.taskComments[k]) {
        return false;
      }
      KeysBelowRemoveAt(context.taskComments, CommentKey, context.nextCommentId, k);
      RemovedKeyIsGone(context.taskComments, CommentKey, context.nextCommentId, k);
      context.taskComments := RemoveAt(context.taskComments, k);
      ok := true;
    }

    /** `CreateCategoryAsync`: a new active category, reported with no tasks. */
    method CreateCategory(dto: CreateCategoryDto, now: Time) returns (r: CategoryDto)
      requires context.Valid()
      modifies context`categories, context`nextCategoryId
      ensures context.Valid()
      ensures context.categories ==
        old(context.categories) + [Category(old(context.nextCategoryId), dto.name, dto.description, dto.color, true, now)]
      ensures r == CategoryDto(old(context.nextCategoryId), dto.name, dto.description, dto.color, true, 0)
    {
      var c := Category(context.nextCategoryId, dto.name, dto.description, dto.color, true, now);
      KeysBelowAppend(context.categories, CategoryKey, context.nextCategoryId, c);
      context.categories, context.nextCategoryId := context.categories + [c], context.nextCategoryId + 1;
      r := CategoryDto(c.id, c.name, c.description, c.color, true, 0);
    }

    /** `DeleteCategoryAsync`: a soft delete; the row stays, inactive, and its tasks keep pointing at it. */
    method DeleteCategory(categoryId: int) returns (ok: bool)
      requires context.Valid()
      modifies context`categories
      ensures context.Valid()
      ensures var k := CategoryIndex(old(context.categories), categoryId);
        (k.None? ==> !ok && context.categories == old(context.categories)) &&
        (k.Some? ==> ok && context.categories == old(context.categories)[k.value := old(context.categories)[k.value].(isActive := false)])
    {
      var found := CategoryIndex(context.categories, categoryId);
      if found.None? {
        return false;
      }
      var k := found.value;
      var c := context.categories[k].(isActive := false);
      KeysBelowUpdate(context.categories, CategoryKey, context.nextCategoryId, k, c);
      context.categories := context.categories[k := c];
      ok := true;
    }
  }

  function NotOnTask(taskId: int): TaskComment -> bool { (c: TaskComment) => c.taskId != taskId }

  function CommentIndex(comments: seq<TaskComment>, commentId: int): (r: Option<nat>)
    ensures r.Some? ==> r.value < |comments| && comments[r.value].id == commentId
    ensures r.None? <==> forall i :: 0 <= i < |comments| ==> comments[i].id != commentId
  {
    FirstIndex(comments, (c: TaskComment) => c.id == commentId)
  }

  function CategoryIndex(categories: seq<Category>, categoryId: int): (r: Option<nat>)
    ensures r.Some? ==> r.value < |categories| && categories[r.value].id == categoryId
    ensures r.None? <==> !HasCategory(categories, categoryId)
  {
    FirstIndex(categories, (c: Category) => c.id == categoryId)
  }

  /**
   * A soft-deleted category drops out of the category list; a second
   * `DeleteCategory` of it finds the same, already inactive row, so by that
   * method's contract it changes nothing more.
   */
  lemma SoftDeleteHidesCategory(categories: seq<Category>, tasks: seq<TaskItem>, next: int, k: nat)
    requires KeysBelow(categories, CategoryKey, next) && k < |categories|
    ensures var after := categories[k := categories[k].(isActive := false)];
      (forall d :: d in GetCategories(after, tasks) ==> d.id != categories[k].id) &&
      CategoryIndex(after, categories[k].id) == Some(k) && !after[k].isActive
  {
    var after := categories[k := categories[k].(isActive := false)];
    var found := CategoryIndex(after, categories[k].id);
    assert found.Some? by { assert after[k].id == categories[k].id; }
    GetCategoriesOnlyActive(after, tasks);
    var r := GetCategories(after, tasks);
    forall d | d in r ensures d.id != categories[k].id {
      var i :| 0 <= i < |r| && r[i] == d;
      var j :| 0 <= j < |after| && after[j].isActive && r[i] == ToCategoryDto(after[j], tasks);
      if j != k {
        assert CategoryKey(categories[j]) != CategoryKey(categories[k]);
      }
    }
  }
}
