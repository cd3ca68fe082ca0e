/**
 * The user administration endpoints. They read the caller's identity from
 * the token's claims, query the users table directly and edit one user row
 * in place. The outcome of each request is the HTTP result the controller
 * returns.
 */
module UsersController {
  import opened Common
  import opened Numbers
  import opened Ordering
  import opened Models
  import opened Data
  import opened AuthService

  const MsgUserNotFound: string := "Usuário não encontrado"
  const MsgOwnRole: string := "Não é possível alterar seu próprio role"
  const MsgOwnAccount: string := "Não é possível desativar sua própria conta"
  const MsgRoleUpdated: string := "Role do usuário atualizado com sucesso"
  const MsgDeactivated: string := "Usuário desativado com sucesso"
  const MsgActivated: string := "Usuário ativado com sucesso"

  /**
   * What the authenticated request carries: the text of the `UserId` and
   * `UserRole` claims, when present, and the role names the role gates test.
   */
  datatype Claims = Claims(userId: Option<string>, userRole: Option<string>, roles: set<string>)

  datatype Response<T> =
    | Ok(value: T)
    | Unauthorized(message: string)
    | Forbidden
    | NotFound(message: string)
    | BadRequest(message: string)

  /** `GetCurrentUserId`: the parsed `UserId` claim, or 0 when it is missing or not a 32-bit integer. */
  function CurrentUserId(c: Claims): (id: int)
    ensures IsInt32(id)
    ensures c.userId.None? ==> id == 0
    ensures c.userId.Some? && ParseInt32(c.userId.value).Some? ==> id == ParseInt32(c.userId.value).value
    ensures c.userId.Some? && ParseInt32(c.userId.value).None? ==> id == 0
  {
    if c.userId.None? then 0
    else match ParseInt32(c.userId.value)
      case None => 0
      case Some(n) => n
  }

  /** `GetCurrentUserRole`: the parsed `UserRole` claim, `User` when it does not parse. */
  function CurrentUserRole(c: Claims): (r: UserRole)
    ensures c.userRole.None? ==> r == UserRole.User
    ensures r != UserRole.User ==>
      c.userRole.Some? && (c.userRole.value == RoleName(r) || ParseInt32(c.userRole.value) == Some(RoleValue(r)))
  {
    ParseRole(c.userRole)
  }

  /** A claim holding the decimal text of a nonzero id identifies that user. */
  lemma CurrentUserIdRoundTrip(id: int, role: Option<string>, roles: set<string>)
    requires IsInt32(id)
    ensures CurrentUserId(Claims(Some(Int32ToString(id)), role, roles)) == id
  {
    ParseInt32ToString(id);
  }

  /** An unreadable role claim gives the least privileged role. */
  lemma UnparseableRoleIsUser(text: string)
    requires text != "User" && text != "Manager" && text != "Admin"
    requires ParseInt32(text).None?
    ensures CurrentUserRole(Claims(None, Some(text), {})) == UserRole.User
  {
  }

  // ----- reads -----

  function ActiveUser(): User -> bool { (u: User) => u.isActive }
  function WithId(id: int): User -> bool { (u: User) => u.id == id }

  function UserNameKey(d: UserDto): seq<int> { StringKey(d.name) }

  function ToUserDtos(users: seq<User>): (r: seq<UserDto>)
    ensures |r| == |users| && forall i :: 0 <= i < |users| ==> r[i] == ToUserDto(users[i])
  {
    seq(|users|, i requires 0 <= i < |users| => ToUserDto(users[i]))
  }

  /** The rows `GetUsers` lists before ordering: the active users, and for a User-role caller only itself. */
  function ListedUsers(users: seq<User>, c: Claims): seq<User>
  {
    var active := Filter(users, ActiveUser());
    if CurrentUserRole(c) == UserRole.User then Filter(active, WithId(CurrentUserId(c))) else active
  }

  /** `GetUsers`: unauthorized without a usable id claim; otherwise the listed users by name. */
  function GetUsers(users: seq<User>, c: Claims): (r: Response<seq<UserDto>>)
    ensures r.Unauthorized? <==> CurrentUserId(c) == 0
    ensures r.Unauthorized? ==> r == Unauthorized(MsgInvalidToken)
    ensures !r.Unauthorized? ==> r.Ok? && |r.value| == |ListedUsers(users, c)| <= |users|
  {
    if CurrentUserId(c) == 0 then Unauthorized(MsgInvalidToken)
    else Ok(SortBy(UserNameKey, false, ToUserDtos(ListedUsers(users, c))))
  }

  /**
   * Every user `GetUsers` lists is active and, for a User-role caller, is
   * the caller; the list is ordered by name and has one row per listed user.
   */
  lemma GetUsersSound(users: seq<User>, c: Claims)
    requires CurrentUserId(c) != 0
    ensures var r := GetUsers(users, c);
      r.Ok? && |r.value| == |ListedUsers(users, c)| && Sorted(UserNameKey, false, r.value) &&
      forall i :: 0 <= i < |r.value| ==>
        exists j :: (0 <= j < |users| && users[j].isActive && r.value[i] == ToUserDto(users[j]) &&
                     (CurrentUserRole(c) == UserRole.User ==> users[j].id == CurrentUserId(c)))
  {
    var listed := ListedUsers(users, c);
    var dtos := ToUserDtos(listed);
    var r := SortBy(UserNameKey, false, dtos);
    SortBySorted(UserNameKey, false, dtos);
    var active := Filter(users, ActiveUser());
    forall i | 0 <= i < |r|
      ensures exists j :: (0 <= j < |users| && users[j].isActive && r[i] == ToUserDto(users[j]) &&
                           (CurrentUserRole(c) == UserRole.User ==> users[j].id == CurrentUserId(c)))
    {
      assert r[i] in multiset(dtos);
      var m :| 0 <= m < |dtos| && dtos[m] == r[i];
      assert listed[m] in active;
      assert ActiveUser()(listed[m]);
      var j :| 0 <= j < |users| && users[j] == listed[m];
      if CurrentUserRole(c) == UserRole.User {
        assert WithId(CurrentUserId(c))(listed[m]);
      }
      assert r[i] == ToUserDto(users[j]);
    }
  }

  /** With distinct keys, a User-role caller sees at most one record, and its own active record when it has one. */
  lemma GetUsersSelfOnly(users: seq<User>, next: int, c: Claims, k: nat)
    requires KeysBelow(users, UserKey, next)
    requires CurrentUserRole(c) == UserRole.User && CurrentUserId(c) != 0
    ensures |ListedUsers(users, c)| <= 1
    ensures k < |users| && users[k].id == CurrentUserId(c) && users[k].isActive ==>
      ListedUsers(users, c) == [users[k]]
  {
    var id := CurrentUserId(c);
    var active := Filter(users, ActiveUser());
    FilterFilter(users, ActiveUser(), WithId(id));
    var both := And(ActiveUser(), WithId(id));
    SingleKeyMatch(users, next, id, both);
    if k < |users| && users[k].id == id && users[k].isActive {
      var r := Filter(users, both);
      assert users[k] in r;
      assert |r| == 1;
    }
  }

  /** At most one row carries a given key, so a selection implying that key selects at most one row. */
  lemma {:induction false} SingleKeyMatch(users: seq<User>, next: int, id: int, p: User -> bool)
    requires KeysBelow(users, UserKey, next)
    requires forall u :: p(u) ==> u.id == id
    ensures |Filter(users, p)| <= 1
    decreases |users|
  {
    if |users| > 0 {
      var rest := users[1..];
      assert KeysBelow(rest, UserKey, next) by {
        forall i, j | 0 <= i < j < |rest| ensures UserKey(rest[i]) != UserKey(rest[j]) {
          assert rest[i] == users[i + 1] && rest[j] == users[j + 1];
        }
      }
      SingleKeyMatch(rest, next, id, p);
      if p(users[0]) {
        forall i | 0 <= i < |rest| ensures !p(rest[i]) {
          assert rest[i] == users[i + 1];
          assert UserKey(users[0]) != UserKey(users[i + 1]);
        }
        FilterNone(rest, p);
      }
    }
  }

  lemma {:induction false} FilterNone(s: seq<User>, p: User -> bool)
    requires forall i :: 0 <= i < |s| ==> !p(s[i])
    ensures Filter(s, p) == []
    decreases |s|
  {
    if |s| > 0 {
      FilterNone(s[1..], p);
    }
  }

  /** `GetUser`: the User-role check comes before any lookup, so another id is forbidden whether or not it exists. */
  function GetUser(users: seq<User>, c: Claims, id: int): (r: Response<UserDto>)
    ensures CurrentUserId(c) == 0 ==> r == Unauthorized(MsgInvalidToken)
    ensures CurrentUserId(c) != 0 && CurrentUserRole(c) == UserRole.User && CurrentUserId(c) != id ==> r == Forbidden
    ensures r.NotFound? ==> r == NotFound(MsgUserNotFound) && GetUserById(users, id).None?
    ensures CurrentUserId(c) != 0 && (CurrentUserRole(c) != UserRole.User || CurrentUserId(c) == id) ==>
      (r.Ok? || r.NotFound?) &&
      (r.NotFound? <==> forall j :: 0 <= j < |users| ==> !(users[j].id == id && users[j].isActive))
    ensures r.Ok? ==> exists j :: 0 <= j < |users| && users[j].id == id && users[j].isActive && r.value == ToUserDto(users[j])
  {
    if CurrentUserId(c) == 0 then Unauthorized(MsgInvalidToken)
    else if CurrentUserRole(c) == UserRole.User && CurrentUserId(c) != id then Forbidden
    else match GetUserById(users, id)
      case None => NotFound(MsgUserNotFound)
      case Some(u) => Ok(ToUserDto(u))
  }

  /** A caller with a usable id claim always gets its own active record. */
  lemma GetUserSelf(users: seq<User>, c: Claims, k: nat)
    requires k < |users| && users[k].isActive && CurrentUserId(c) != 0 && users[k].id == CurrentUserId(c)
    ensures GetUser(users, c, users[k].id).Ok?
  {
    assert users[k] in users;
  }

  // ----- statistics -----

  datatype UserStats = UserStats(
    totalUsers: nat,
    totalAdmins: nat,
    totalManagers: nat,
    totalRegularUsers: nat,
    usersLastWeek: nat,
    usersLastMonth: nat)

  function ActiveWithRole(r: UserRole): User -> bool { (u: User) => u.isActive && u.role == r }
  function CreatedSince(t: Time): User -> bool { (u: User) => u.createdAt >= t }

  /** The counts of `GetUserStats`; the recent-signup counts include deactivated users. */
  function UserStatsOf(users: seq<User>, now: Time): (r: UserStats)
    ensures r.totalUsers <= |users| && r.usersLastWeek <= |users| && r.usersLastMonth <= |users|
  {
    UserStats(
      |Filter(users, ActiveUser())|,
      |Filter(users, ActiveWithRole(Admin))|,
      |Filter(users, ActiveWithRole(Manager))|,
      |Filter(users, ActiveWithRole(UserRole.User))|,
      |Filter(users, CreatedSince(now - 7 * SecondsPerDay))|,
      |Filter(users, CreatedSince(now - 30 * SecondsPerDay))|)
  }

  /** `GetUserStats`, behind its Admin-or-Manager gate. */
  function GetUserStats(users: seq<User>, c: Claims, now: Time): (r: Response<UserStats>)
    ensures r.Ok? <==> "Admin" in c.roles || "Manager" in c.roles
    ensures !r.Ok? ==> r == Forbidden
  {
    if "Admin" in c.roles || "Manager" in c.roles then Ok(UserStatsOf(users, now)) else Forbidden
  }

  /** The three role counts split the active users exactly. */
  lemma RoleCountsPartitionActive(users: seq<User>, now: Time)
    ensures var s := UserStatsOf(users, now);
      s.totalAdmins + s.totalManagers + s.totalRegularUsers == s.totalUsers
  {
    var a, m, u := ActiveWithRole(Admin), ActiveWithRole(Manager), ActiveWithRole(UserRole.User);
    assert forall x :: !(a(x) && m(x));
    FilterDisjointSum(users, a, m);
    var am := Or(a, m);
    assert forall x :: !(am(x) && u(x));
    FilterDisjointSum(users, am, u);
    forall x ensures Or(am, u)(x) == ActiveUser()(x) {
      EveryRoleCounted(x);
    }
    FilterCongruent(users, Or(am, u), ActiveUser());
  }

  /** An active user has exactly one of the three roles. */
  lemma EveryRoleCounted(x: User)
    ensures Or(Or(ActiveWithRole(Admin), ActiveWithRole(Manager)), ActiveWithRole(UserRole.User))(x) == x.isActive
  {
    assert x.role == Admin || x.role == Manager || x.role == UserRole.User;
  }

  /** Every signup of the last week is a signup of the last month. */
  lemma RecentSignupsNested(users: seq<User>, now: Time)
    ensures var s := UserStatsOf(users, now); s.usersLastWeek <= s.usersLastMonth
  {
    FilterCountMonotone(users, CreatedSince(now - 7 * SecondsPerDay), CreatedSince(now - 30 * SecondsPerDay));
  }

  /** Deactivated users still count as recent signups, so the week's signups can exceed the active total. */
  lemma RecentSignupsMayExceedActive()
    ensures var s := UserStatsOf([User.User(1, "a", "a@x", "h", UserRole.User, false, 0, None)], 0);
      s.usersLastWeek == 1 && s.totalUsers == 0
  {
    var users := [User.User(1, "a", "a@x", "h", UserRole.User, false, 0, None)];
    assert Filter(users, ActiveUser()) == [];
    assert CreatedSince(0 - 7 * SecondsPerDay)(users[0]);
    assert Filter(users, CreatedSince(0 - 7 * SecondsPerDay)) == users;
  }

  // ----- writes -----

  class UsersController {
    const context: AppDbContext

    constructor (context: AppDbContext)
      ensures this.context == context
    {
      this.context := context;
    }

    /**
     * `UpdateUserRole` (Admin only). The target must exist and be active,
     * and that is checked before the self-check; only the target's role
     * changes.
     */
    method UpdateUserRole(c: Claims, id: int, role: UserRole) returns (r: Response<string>)
      requires context.Valid()
      modifies context`users
      ensures context.Valid()
      ensures "Admin" !in c.roles ==> r == Forbidden && context.users == old(context.users)
      ensures var k := UserIndex(old(context.users), id);
        "Admin" in c.roles && (k.None? || !old(context.users)[k.value].isActive) ==>
          r == NotFound(MsgUserNotFound) && context.users == old(context.users)
      ensures var k := UserIndex(old(context.users), id);
        "Admin" in c.roles && k.Some? && old(context.users)[k.value].isActive && CurrentUserId(c) == id ==>
          r == BadRequest(MsgOwnRole) && context.users == old(context.users)
      ensures var k := UserIndex(old(context.users), id);
        "Admin" in c.roles && k.Some? && old(context.users)[k.value].isActive && CurrentUserId(c) != id ==>
          r == Ok(MsgRoleUpdated) &&
          context.users == old(context.users)[k.value := old(context.users)[k.value].(role := role)]
    {
      if "Admin" !in c.roles {
        return Forbidden;
      }
      var found := UserIndex(context.users, id);
      if found.None? || !context.users[found.value].isActive {
        return NotFound(MsgUserNotFound);
      }
      if CurrentUserId(c) == id {
        return BadRequest(MsgOwnRole);
      }
      var k := found.value;
      var u := context.users[k].(role := role);
      UserEditKeepsTables(context.users, context.refreshTokens, context.nextUserId, context.nextRefreshTokenId, k, u);
      context.users := context.users[k := u];
      r := Ok(MsgRoleUpdated);
    }

    /**
     * `DeactivateUser` (Admin only). A missing target is not found, the
     * caller may not deactivate itself, and an already inactive target is
     * deactivated again. The user's refresh tokens are left as they are.
     */
    method DeactivateUser(c: Claims, id: int) returns (r: Response<string>)
      requires context.Valid()
      modifies context`users
      ensures context.Valid()
      ensures context.refreshTokens == old(context.refreshTokens)
      ensures "Admin" !in c.roles ==> r == Forbidden && context.users == old(context.users)
      ensures var k := UserIndex(old(context.users), id);
        "Admin" in c.roles && k.None? ==> r == NotFound(MsgUserNotFound) && context.users == old(context.users)
      ensures var k := UserIndex(old(context.users), id);
        "Admin" in c.roles && k.Some? && CurrentUserId(c) == id ==>
          r == BadRequest(MsgOwnAccount) && context.users == old(context.users)
      ensures var k := UserIndex(old(context.users), id);
        "Admin" in c.roles && k.Some? && CurrentUserId(c) != id ==>
          r == Ok(MsgDeactivated) &&
          context.users == old(context.users)[k.value := old(context.users)[k.value].(isActive := false)]
    {
      if "Admin" !in c.roles {
        return Forbidden;
      }
      var found := UserIndex(context.users, id);
      if found.None? {
        return NotFound(MsgUserNotFound);
      }
      if CurrentUserId(c) == id {
        return BadRequest(MsgOwnAccount);
      }
      var k := found.value;
      var u := context.users[k].(isActive := false);
      UserEditKeepsTables(context.users, context.refreshTokens, context.nextUserId, context.nextRefreshTokenId, k, u);
      context.users := context.users[k := u];
      r := Ok(MsgDeactivated);
    }

    /** `ActivateUser` (Admin only): no self-check; any existing user becomes active. */
    method ActivateUser(c: Claims, id: int) returns (r: Response<string>)
      requires context.Valid()
      modifies context`users
      ensures context.Valid()
      ensures "Admin" !in c.roles ==> r == Forbidden && context.users == old(context.users)
      ensures var k := UserIndex(old(context.users), id);
        "Admin" in c.roles && k.None? ==> r == NotFound(MsgUserNotFound) && context.users == old(context.users)
      ensures var k := UserIndex(old(context.users), id);
        "Admin" in c.roles && k.Some? ==>
          r == Ok(MsgActivated) &&
          context.users == Activated(old(context.users), k.value)
    {
      if "Admin" !in c.roles {
        return Forbidden;
      }
      var found := UserIndex(context.users, id);
      if found.None? {
        return NotFound(MsgUserNotFound);
      }
      var k := found.value;
      var u := context.users[k].(isActive := true);
      UserEditKeepsTables(context.users, context.refreshTokens, context.nextUserId, context.nextRefreshTokenId, k, u);
      context.users := context.users[k := u];
      r := Ok(MsgActivated);
    }
  }

  /** The users table after `ActivateUser` succeeds on the row at `k`. */
  function Activated(users: seq<User>, k: nat): (r: seq<User>)
    requires k < |users|
    ensures |r| == |users| && r[k].isActive && r[k] == users[k].(isActive := true)
    ensures forall i :: 0 <= i < |users| && i != k ==> r[i] == users[i]
  {
    users[k := users[k].(isActive := true)]
  }

  /** Activating twice is activating once, and the activated user can be found by id again. */
  lemma ActivateIdempotent(users: seq<User>, id: int)
    requires UserIndex(users, id).Some?
    ensures var once := Activated(users, UserIndex(users, id).value);
      UserIndex(once, id) == UserIndex(users, id) &&
      Activated(once, UserIndex(once, id).value) == once &&
      GetUserById(once, id).Some?
  {
    var k := UserIndex(users, id).value;
    var once := Activated(users, k);
    assert forall j :: 0 <= j < |users| ==> once[j].id == users[j].id;
    assert once[k] in once;
  }
}
