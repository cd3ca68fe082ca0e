/**
 * The database context: one table per entity, each a sequence of rows in
 * key order, plus the next value each identity column hands out. Services
 * hold a reference to one context and update its tables in place.
 */
module Data {
  import opened Common
  import opened Models

  function UserKey(u: User): int { u.id }
  function RefreshTokenKey(t: RefreshToken): int { t.id }
  function TaskKey(t: TaskItem): int { t.id }
  function CommentKey(c: TaskComment): int { c.id }
  function CategoryKey(c: Category): int { c.id }

  /** Primary keys are positive, distinct, and below the next identity value. */
  predicate KeysBelow<T>(s: seq<T>, key: T -> int, next: int)
  {
    0 < next &&
    (forall i :: 0 <= i < |s| ==> 0 < key(s[i]) < next) &&
    (forall i, j :: 0 <= i < j < |s| ==> key(s[i]) != key(s[j]))
  }

  /** The unique index on `Users.Email`. */
  predicate EmailsUnique(users: seq<User>)
  {
    forall i, j :: 0 <= i < j < |users| ==> users[i].email != users[j].email
  }

  predicate HasUser(users: seq<User>, id: int)
  {
    exists j :: 0 <= j < |users| && users[j].id == id
  }

  /** The foreign key `RefreshTokens.UserId -> Users.Id`. */
  predicate TokensHaveOwners(users: seq<User>, rows: seq<RefreshToken>)
  {
    forall i :: 0 <= i < |rows| ==> HasUser(users, rows[i].userId)
  }

  /** The users table: valid keys and the unique email index. */
  predicate UsersWellFormed(users: seq<User>, next: int)
  {
    KeysBelow(users, UserKey, next) && EmailsUnique(users)
  }

  /** The refresh-token table: valid keys and every row owned by an existing user. */
  predicate LedgerWellFormed(users: seq<User>, rows: seq<RefreshToken>, next: int)
  {
    KeysBelow(rows, RefreshTokenKey, next) && TokensHaveOwners(users, rows)
  }

  predicate CompletionsRecorded(tasks: seq<TaskItem>)
  {
    forall i :: 0 <= i < |tasks| ==> CompletionRecorded(tasks[i])
  }

  /** Adding a user keeps every existing owner reference valid. */
  lemma OwnersAfterUserAppend(users: seq<User>, rows: seq<RefreshToken>, u: User)
    requires TokensHaveOwners(users, rows)
    ensures TokensHaveOwners(users + [u], rows)
  {
    forall i | 0 <= i < |rows| ensures HasUser(users + [u], rows[i].userId) {
      var j :| 0 <= j < |users| && users[j].id == rows[i].userId;
      assert (users + [u])[j] == users[j];
    }
  }

  /** Changing a user's other fields keeps every owner reference valid. */
  lemma OwnersAfterUserUpdate(users: seq<User>, rows: seq<RefreshToken>, k: nat, u: User)
    requires TokensHaveOwners(users, rows) && k < |users| && u.id == users[k].id
    ensures TokensHaveOwners(users[k := u], rows)
  {
    forall i | 0 <= i < |rows| ensures HasUser(users[k := u], rows[i].userId) {
      var j :| 0 <= j < |users| && users[j].id == rows[i].userId;
      assert users[k := u][j].id == users[j].id;
    }
  }

  /** Appending a row keyed by the next identity value keeps the keys valid. */
  lemma KeysBelowAppend<T>(s: seq<T>, key: T -> int, next: int, x: T)
    requires KeysBelow(s, key, next) && key(x) == next
    ensures KeysBelow(s + [x], key, next + 1)
  {
  }

  /** Replacing a row by one with the same key keeps the keys valid. */
  lemma KeysBelowUpdate<T>(s: seq<T>, key: T -> int, next: int, k: nat, x: T)
    requires KeysBelow(s, key, next) && k < |s| && key(x) == key(s[k])
    ensures KeysBelow(s[k := x], key, next)
  {
  }

  /** Removing rows keeps the keys valid. */
  lemma KeysBelowFilter<T>(s: seq<T>, key: T -> int, next: int, p: T -> bool)
    requires KeysBelow(s, key, next)
    ensures KeysBelow(Filter(s, p), key, next)
    decreases |s|
  {
    if |s| > 0 {
      KeysBelowFilter(s[1..], key, next, p);
      var t := Filter(s[1..], p);
      if p(s[0]) {
        forall j | 0 <= j < |t| ensures key(s[0]) != key(t[j]) {
          var m :| 0 <= m < |s[1..]| && s[1..][m] == t[j];
          assert s[m + 1] == t[j];
        }
      }
    }
  }

  /** Removing one row keeps the keys valid. */
  lemma KeysBelowRemoveAt<T>(s: seq<T>, key: T -> int, next: int, k: nat)
    requires KeysBelow(s, key, next) && k < |s|
    ensures KeysBelow(s[..k] + s[k + 1..], key, next)
  {
    var r := s[..k] + s[k + 1..];
    assert forall i :: 0 <= i < |r| ==> r[i] == if i < k then s[i] else s[i + 1];
  }

  /** Editing a user's other fields (same key, same email) keeps both tables well formed. */
  lemma UserEditKeepsTables(users: seq<User>, rows: seq<RefreshToken>, nextUser: int, nextRow: int, k: nat, u: User)
    requires UsersWellFormed(users, nextUser) && LedgerWellFormed(users, rows, nextRow)
    requires k < |users| && u.id == users[k].id && u.email == users[k].email
    ensures UsersWellFormed(users[k := u], nextUser) && LedgerWellFormed(users[k := u], rows, nextRow)
  {
    KeysBelowUpdate(users, UserKey, nextUser, k, u);
    OwnersAfterUserUpdate(users, rows, k, u);
  }

  /** A new user under the next key and a free email keeps both tables well formed. */
  lemma UserAppendKeepsTables(users: seq<User>, rows: seq<RefreshToken>, nextUser: int, nextRow: int, u: User)
    requires UsersWellFormed(users, nextUser) && LedgerWellFormed(users, rows, nextRow)
    requires u.id == nextUser && forall i :: 0 <= i < |users| ==> users[i].email != u.email
    ensures UsersWellFormed(users + [u], nextUser + 1) && LedgerWellFormed(users + [u], rows, nextRow)
  {
    KeysBelowAppend(users, UserKey, nextUser, u);
    OwnersAfterUserAppend(users, rows, u);
  }

  /** A new ledger row under the next key, owned by an existing user, keeps the ledger well formed. */
  lemma RowAppendKeepsLedger(users: seq<User>, rows: seq<RefreshToken>, nextRow: int, row: RefreshToken)
    requires LedgerWellFormed(users, rows, nextRow) && row.id == nextRow && HasUser(users, row.userId)
    ensures LedgerWellFormed(users, rows + [row], nextRow + 1)
  {
    KeysBelowAppend(rows, RefreshTokenKey, nextRow, row);
  }

  /** Editing ledger rows while keeping each row's key and owner keeps the ledger well formed. */
  lemma RowEditsKeepLedger(users: seq<User>, rows: seq<RefreshToken>, rows': seq<RefreshToken>, nextRow: int)
    requires LedgerWellFormed(users, rows, nextRow) && |rows'| == |rows|
    requires forall i :: 0 <= i < |rows| ==> rows'[i].id == rows[i].id && rows'[i].userId == rows[i].userId
    ensures LedgerWellFormed(users, rows', nextRow)
  {
    assert forall i :: 0 <= i < |rows| ==> RefreshTokenKey(rows'[i]) == RefreshTokenKey(rows[i]);
  }

  class AppDbContext {
    var users: seq<User>
    var refreshTokens: seq<RefreshToken>
    var tasks: seq<TaskItem>
    var taskComments: seq<TaskComment>
    var categories: seq<Category>

    var nextUserId: int
    var nextRefreshTokenId: int
    var nextTaskId: int
    var nextCommentId: int
    var nextCategoryId: int

    ghost predicate Valid()
      reads this
    {
      UsersWellFormed(users, nextUserId) &&
      LedgerWellFormed(users, refreshTokens, nextRefreshTokenId) &&
      KeysBelow(tasks, TaskKey, nextTaskId) &&
      CompletionsRecorded(tasks) &&
      KeysBelow(taskComments, CommentKey, nextCommentId) &&
      KeysBelow(categories, CategoryKey, nextCategoryId)
    }

    /** An empty database whose identity columns start at 1. */
    constructor ()
      ensures Valid()
      ensures users == [] && refreshTokens == [] && tasks == [] && taskComments == [] && categories == []
      ensures nextUserId == 1 && nextRefreshTokenId == 1 && nextTaskId == 1 && nextCommentId == 1 && nextCategoryId == 1
    {
      users, refreshTokens, tasks, taskComments, categories := [], [], [], [], [];
      nextUserId, nextRefreshTokenId, nextTaskId, nextCommentId, nextCategoryId := 1, 1, 1, 1, 1;
    }
  }
}
