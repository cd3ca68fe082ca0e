/**
 * The session manager: login, registration, token refresh (rotation),
 * revocation and password change over the users table and the refresh-token
 * ledger of one database context.
 *
 * Collaborators the service cannot see are values handed to it: the
 * deterministic parts of the JWT service and of BCrypt are function values,
 * and what they mint per call (a signed access token, a random refresh
 * string, a random salt) and the clock reading are parameters.
 */
module AuthService {
  import opened Common
  import opened Numbers
  import opened Models
  import opened Data
  import opened TokenLedger

  const MsgInvalidCredentials: string := "Email ou senha inválidos"
  const MsgLoggedIn: string := "Login realizado com sucesso"
  const MsgEmailTaken: string := "Este email já está em uso"
  const MsgRegistered: string := "Usuário registrado com sucesso"
  const MsgInvalidToken: string := "Token inválido"
  const MsgInvalidRefreshToken: string := "Refresh token inválido"
  const MsgRefreshTokenExpired: string := "Refresh token expirado"
  const MsgRefreshed: string := "Token renovado com sucesso"
  const MsgInternalError: string := "Erro interno do servidor"

  /** The claims of an access token whose signature checked out; only the jti is consulted. */
  datatype Principal = Principal(jti: Option<string>)

  /**
   * The JWT service's deterministic operations: reading the jti out of a
   * token it issued, and validating a token's signature while ignoring its expiry.
   */
  datatype JwtService = JwtService(
    getJwtId: string -> Option<string>,
    validateExpiredToken: string -> Option<Principal>)

  /** BCrypt: `Verify(password, hash)`, and `HashPassword` as a function of the password and a random salt. */
  datatype PasswordHasher = PasswordHasher(
    verify: (string, string) -> bool,
    hash: (string, string) -> string)

  /** Token lifetimes from configuration, in whole minutes and whole days. */
  datatype JwtSettings = JwtSettings(expirationMinutes: int, refreshTokenExpirationDays: int)

  /** What `GenerateJwtToken` and `GenerateRefreshToken` return on this call. */
  datatype IssuedTokens = IssuedTokens(accessToken: string, refreshToken: string)

  datatype AuthResponse = AuthResponse(
    success: bool,
    message: string,
    token: Option<string>,
    refreshToken: Option<string>,
    expiration: Option<Time>,
    user: Option<UserDto>)

  function Failure(message: string): (r: AuthResponse)
    ensures !r.success && r.message == message
    ensures r.token.None? && r.refreshToken.None? && r.user.None?
  {
    AuthResponse(false, message, None, None, None, None)
  }

  function Granted(message: string, issued: IssuedTokens, expiration: Time, user: UserDto): (r: AuthResponse)
    ensures r.success && r.message == message
    ensures r.token == Some(issued.accessToken) && r.refreshToken == Some(issued.refreshToken)
  {
    AuthResponse(true, message, Some(issued.accessToken), Some(issued.refreshToken), Some(expiration), Some(user))
  }

  // ----- queries over the users table -----

  /** `FirstOrDefault(u => u.Email == email && u.IsActive)`, as a position. */
  function ActiveUserByEmail(users: seq<User>, email: string): (r: Option<nat>)
    ensures r.Some? ==> r.value < |users| && users[r.value].email == email && users[r.value].isActive
    ensures r.None? <==> forall i :: 0 <= i < |users| ==> !(users[i].email == email && users[i].isActive)
  {
    FirstIndex(users, (u: User) => u.email == email && u.isActive)
  }

  /** `Users.FindAsync(id)`: the user with that key, active or not, as a position. */
  function UserIndex(users: seq<User>, id: int): (r: Option<nat>)
    ensures r.Some? ==> r.value < |users| && users[r.value].id == id
    ensures r.None? <==> !HasUser(users, id)
  {
    FirstIndex(users, (u: User) => u.id == id)
  }

  function GetUserByEmail(users: seq<User>, email: string): (r: Option<User>)
    ensures r.Some? ==> r.value in users && r.value.email == email && r.value.isActive
    ensures r.None? ==> forall u :: u in users ==> !(u.email == email && u.isActive)
  {
    match ActiveUserByEmail(users, email)
    case None => None
    case Some(k) => Some(users[k])
  }

  function GetUserById(users: seq<User>, id: int): (r: Option<User>)
    ensures r.Some? ==> r.value in users && r.value.id == id && r.value.isActive
    ensures r.None? <==> forall j :: 0 <= j < |users| ==> !(users[j].id == id && users[j].isActive)
  {
    match FirstIndex(users, (u: User) => u.id == id && u.isActive)
    case None => None
    case Some(k) => Some(users[k])
  }

  /** Any user, active or deactivated, already has exactly this email. */
  function IsEmailTaken(users: seq<User>, email: string): (r: bool)
    ensures r <==> exists i :: 0 <= i < |users| && users[i].email == email
  {
    AnyMatch(users, (u: User) => u.email == email)
  }

  /** With the unique email index, the active user holding an email is the one the lookup finds. */
  lemma ActiveUserByEmailUnique(users: seq<User>, email: string, i: nat)
    requires EmailsUnique(users) && i < |users| && users[i].email == email && users[i].isActive
    ensures ActiveUserByEmail(users, email) == Some(i)
  {
  }

  /** An email a login can find is taken; so registration refuses every email that can log in. */
  lemma ActiveEmailIsTaken(users: seq<User>, email: string)
    requires GetUserByEmail(users, email).Some?
    ensures IsEmailTaken(users, email)
  {
    var k := ActiveUserByEmail(users, email).value;
    assert users[k].email == email;
  }

  /** Adding a user under a free email keeps the unique index satisfied. */
  lemma FreeEmailKeepsUnique(users: seq<User>, u: User)
    requires EmailsUnique(users) && !IsEmailTaken(users, u.email)
    ensures EmailsUnique(users + [u])
  {
  }

  /** Login's two checks: an active user with exactly that email, whose hash verifies the password. */
  predicate CredentialsAccepted(users: seq<User>, hasher: PasswordHasher, email: string, password: string)
  {
    var k := ActiveUserByEmail(users, email);
    k.Some? && hasher.verify(password, users[k.value].passwordHash)
  }

  /** The jti the refresh flow recovers: none when the token fails validation or carries no (or an empty) jti. */
  function PresentedJti(jwt: JwtService, accessToken: string): (r: Option<string>)
    ensures r.Some? ==> r.value != ""
    ensures jwt.validateExpiredToken(accessToken).None? ==> r.None?
    ensures var v := jwt.validateExpiredToken(accessToken);
      r.Some? <==> v.Some? && v.value.jti.Some? && v.value.jti.value != ""
    ensures r.Some? ==> r == jwt.validateExpiredToken(accessToken).value.jti
  {
    match jwt.validateExpiredToken(accessToken)
    case None => None
    case Some(p) => if p.jti.None? || p.jti.value == "" then None else p.jti
  }

  /** How the refresh flow judges a presented pair before it writes anything. */
  datatype RefreshCheck = BadAccessToken | UnknownRefreshToken | Expired(index: nat) | Accepted(index: nat)

  /**
   * The checks of `RefreshTokenAsync` in their order: the access token must
   * validate (expiry ignored) and carry a jti; an unrevoked row must carry
   * both the refresh string and that jti; the row must not have expired
   * strictly before `now`.
   */
  function CheckRefresh(jwt: JwtService, rows: seq<RefreshToken>, accessToken: string, refreshToken: string, now: Time)
    : (c: RefreshCheck)
    ensures c.BadAccessToken? <==> PresentedJti(jwt, accessToken).None?
    ensures c.UnknownRefreshToken? <==>
      PresentedJti(jwt, accessToken).Some? && FindActive(rows, refreshToken, PresentedJti(jwt, accessToken).value).None?
    ensures (c.Expired? || c.Accepted?) ==>
      PresentedJti(jwt, accessToken).Some? &&
      FindActive(rows, refreshToken, PresentedJti(jwt, accessToken).value) == Some(c.index) &&
      c.index < |rows| && Accepts(rows[c.index], refreshToken, PresentedJti(jwt, accessToken).value)
    ensures c.Expired? ==> rows[c.index].expiryDate < now
    ensures c.Accepted? ==> now <= rows[c.index].expiryDate
  {
    var jti := PresentedJti(jwt, accessToken);
    if jti.None? then BadAccessToken
    else
      var found := FindActive(rows, refreshToken, jti.value);
      if found.None? then UnknownRefreshToken
      else if rows[found.value].expiryDate < now then Expired(found.value)
      else Accepted(found.value)
  }

  /** The message of each refusal. */
  function RefusalMessage(c: RefreshCheck): string
  {
    match c
    case BadAccessToken => MsgInvalidToken
    case UnknownRefreshToken => MsgInvalidRefreshToken
    case Expired(_) => MsgRefreshTokenExpired
    case Accepted(_) => MsgRefreshed
  }

  class AuthService {
    const context: AppDbContext
    const jwt: JwtService
    const hasher: PasswordHasher
    const settings: JwtSettings

    constructor (context: AppDbContext, jwt: JwtService, hasher: PasswordHasher, settings: JwtSettings)
      ensures this.context == context && this.jwt == jwt && this.hasher == hasher && this.settings == settings
    {
      this.context := context;
      this.jwt := jwt;
      this.hasher := hasher;
      this.settings := settings;
    }

    function AccessExpiry(now: Time): Time
    {
      now + settings.expirationMinutes * SecondsPerMinute
    }

    /**
     * `LoginAsync`. Both refusals give the same message and change nothing;
     * on success the user's last-login stamp and one new ledger row are
     * saved together.
     */
    method Login(email: string, password: string, issued: IssuedTokens, now: Time) returns (r: AuthResponse)
      requires context.Valid()
      modifies context`users, context`refreshTokens, context`nextRefreshTokenId
      ensures context.Valid()
      ensures LedgerStep(old(context.refreshTokens), context.refreshTokens)
      ensures !CredentialsAccepted(old(context.users), hasher, email, password) ==>
        r == Failure(MsgInvalidCredentials) &&
        context.users == old(context.users) && context.refreshTokens == old(context.refreshTokens) &&
        context.nextRefreshTokenId == old(context.nextRefreshTokenId)
      ensures CredentialsAccepted(old(context.users), hasher, email, password) && jwt.getJwtId(issued.accessToken).None? ==>
        r == Failure(MsgInternalError) &&
        context.users == old(context.users) && context.refreshTokens == old(context.refreshTokens) &&
        context.nextRefreshTokenId == old(context.nextRefreshTokenId)
      ensures CredentialsAccepted(old(context.users), hasher, email, password) && jwt.getJwtId(issued.accessToken).Some? ==>
        var k := ActiveUserByEmail(old(context.users), email).value;
        var user := old(context.users)[k].(lastLoginAt := Some(now));
        context.users == old(context.users)[k := user] &&
        context.refreshTokens == old(context.refreshTokens) +
          [NewRow(old(context.nextRefreshTokenId), issued.refreshToken, jwt.getJwtId(issued.accessToken).value,
                  user.id, now, settings.refreshTokenExpirationDays)] &&
        context.nextRefreshTokenId == old(context.nextRefreshTokenId) + 1 &&
        r == Granted(MsgLoggedIn, issued, AccessExpiry(now), ToUserDto(user))
    {
      var found := ActiveUserByEmail(context.users, email);
      if found.None? {
        return Failure(MsgInvalidCredentials);
      }
      var k := found.value;
      var user := context.users[k];
      if !hasher.verify(password, user.passwordHash) {
        return Failure(MsgInvalidCredentials);
      }
      var jti := jwt.getJwtId(issued.accessToken);
      if jti.None? {
        // the row's required JwtId is null: SaveChanges throws and nothing is saved
        return Failure(MsgInternalError);
      }
      user := user.(lastLoginAt := Some(now));
      var row := NewRow(context.nextRefreshTokenId, issued.refreshToken, jti.value, user.id, now,
                        settings.refreshTokenExpirationDays);
      var users' := context.users[k := user];
      UserEditKeepsTables(context.users, context.refreshTokens, context.nextUserId, context.nextRefreshTokenId, k, user);
      assert users'[k].id == row.userId;
      RowAppendKeepsLedger(users', context.refreshTokens, context.nextRefreshTokenId, row);
      AppendIsStep(context.refreshTokens, row);
      context.users, context.refreshTokens, context.nextRefreshTokenId :=
        users', context.refreshTokens + [row], context.nextRefreshTokenId + 1;
      r := Granted(MsgLoggedIn, issued, AccessExpiry(now), ToUserDto(user));
    }

    /**
     * `RegisterAsync`. The user is saved before the token row, in a separate
     * save: when the second save fails the new user stays without a session.
     */
    method Register(name: string, email: string, password: string, salt: string, issued: IssuedTokens, now: Time)
      returns (r: AuthResponse)
      requires context.Valid()
      modifies context`users, context`nextUserId, context`refreshTokens, context`nextRefreshTokenId
      ensures context.Valid()
      ensures LedgerStep(old(context.refreshTokens), context.refreshTokens)
      ensures IsEmailTaken(old(context.users), email) ==>
        r == Failure(MsgEmailTaken) &&
        context.users == old(context.users) && context.refreshTokens == old(context.refreshTokens) &&
        context.nextUserId == old(context.nextUserId) && context.nextRefreshTokenId == old(context.nextRefreshTokenId)
      ensures !IsEmailTaken(old(context.users), email) ==>
        var user := User.User(old(context.nextUserId), name, email, hasher.hash(password, salt),
                              UserRole.User, true, now, None);
        context.users == old(context.users) + [user] && context.nextUserId == old(context.nextUserId) + 1 &&
        (jwt.getJwtId(issued.accessToken).None? ==>
          r == Failure(MsgInternalError) && context.refreshTokens == old(context.refreshTokens) &&
          context.nextRefreshTokenId == old(context.nextRefreshTokenId)) &&
        (jwt.getJwtId(issued.accessToken).Some? ==>
          context.refreshTokens == old(context.refreshTokens) +
            [NewRow(old(context.nextRefreshTokenId), issued.refreshToken, jwt.getJwtId(issued.accessToken).value,
                    user.id, now, settings.refreshTokenExpirationDays)] &&
          context.nextRefreshTokenId == old(context.nextRefreshTokenId) + 1 &&
          r == Granted(MsgRegistered, issued, AccessExpiry(now), ToUserDto(user)))
    {
      if IsEmailTaken(context.users, email) {
        return Failure(MsgEmailTaken);
      }
      var user := User.User(context.nextUserId, name, email, hasher.hash(password, salt), UserRole.User, true, now, None);
      var users' := context.users + [user];
      UserAppendKeepsTables(context.users, context.refreshTokens, context.nextUserId, context.nextRefreshTokenId, user);
      // first SaveChanges: the user is stored
      context.users, context.nextUserId := users', context.nextUserId + 1;

      var jti := jwt.getJwtId(issued.accessToken);
      if jti.None? {
        return Failure(MsgInternalError);
      }
      var row := NewRow(context.nextRefreshTokenId, issued.refreshToken, jti.value, user.id, now,
                        settings.refreshTokenExpirationDays);
      assert users'[|users'| - 1].id == row.userId;
      RowAppendKeepsLedger(users', context.refreshTokens, context.nextRefreshTokenId, row);
      AppendIsStep(context.refreshTokens, row);
      context.refreshTokens, context.nextRefreshTokenId := context.refreshTokens + [row], context.nextRefreshTokenId + 1;
      r := Granted(MsgRegistered, issued, AccessExpiry(now), ToUserDto(user));
    }

    /**
     * `RefreshTokenAsync`: rotation. The presented pair must match one
     * unrevoked row (refresh string and jti); an expired row is refused. The
     * old row is revoked without a `RevokedAt` stamp and the new pair is
     * issued to the row's owner, whether or not that user is still active.
     */
    method Refresh(accessToken: string, refreshToken: string, issued: IssuedTokens, now: Time) returns (r: AuthResponse)
      requires context.Valid()
      modifies context`refreshTokens, context`nextRefreshTokenId
      ensures context.Valid()
      ensures LedgerStep(old(context.refreshTokens), context.refreshTokens)
      ensures var c := CheckRefresh(jwt, old(context.refreshTokens), accessToken, refreshToken, now);
        !c.Accepted? ==>
          r == Failure(RefusalMessage(c)) && context.refreshTokens == old(context.refreshTokens) &&
          context.nextRefreshTokenId == old(context.nextRefreshTokenId)
      ensures var c := CheckRefresh(jwt, old(context.refreshTokens), accessToken, refreshToken, now);
        c.Accepted? && jwt.getJwtId(issued.accessToken).None? ==>
          r == Failure(MsgInternalError) && context.refreshTokens == old(context.refreshTokens) &&
          context.nextRefreshTokenId == old(context.nextRefreshTokenId)
      ensures var c := CheckRefresh(jwt, old(context.refreshTokens), accessToken, refreshToken, now);
        c.Accepted? && jwt.getJwtId(issued.accessToken).Some? ==>
          var owner := old(context.refreshTokens)[c.index].userId;
          context.refreshTokens == Rotate(old(context.refreshTokens), c.index,
            NewRow(old(context.nextRefreshTokenId), issued.refreshToken, jwt.getJwtId(issued.accessToken).value,
                   owner, now, settings.refreshTokenExpirationDays)) &&
          context.nextRefreshTokenId == old(context.nextRefreshTokenId) + 1 &&
          UserIndex(context.users, owner).Some? &&
          r == Granted(MsgRefreshed, issued, AccessExpiry(now), ToUserDto(context.users[UserIndex(context.users, owner).value]))
    {
      var c := CheckRefresh(jwt, context.refreshTokens, accessToken, refreshToken, now);
      if !c.Accepted? {
        return Failure(RefusalMessage(c));
      }
      var k := c.index;
      var row := context.refreshTokens[k];
      var newJti := jwt.getJwtId(issued.accessToken);
      if newJti.None? {
        return Failure(MsgInternalError);
      }
      assert HasUser(context.users, row.userId);
      var owner := UserIndex(context.users, row.userId).value;
      var newRow := NewRow(context.nextRefreshTokenId, issued.refreshToken, newJti.value, row.userId, now,
                           settings.refreshTokenExpirationDays);
      var rows' := context.refreshTokens[k := row.(isRevoked := true)];
      RowEditsKeepLedger(context.users, context.refreshTokens, rows', context.nextRefreshTokenId);
      RowAppendKeepsLedger(context.users, rows', context.nextRefreshTokenId, newRow);
      RotateIsStep(context.refreshTokens, k, newRow);
      context.refreshTokens, context.nextRefreshTokenId := rows' + [newRow], context.nextRefreshTokenId + 1;
      r := Granted(MsgRefreshed, issued, AccessExpiry(now), ToUserDto(context.users[owner]));
    }

    /**
     * `RevokeTokenAsync`: the user id arrives as text. Unparseable text
     * fails; otherwise every selected row is revoked and stamped, one row at
     * a time, and the result is true.
     */
    method RevokeToken(userIdText: string, jti: Option<string>, now: Time) returns (ok: bool)
      requires context.Valid()
      modifies context`refreshTokens
      ensures context.Valid()
      ensures LedgerStep(old(context.refreshTokens), context.refreshTokens)
      ensures ParseInt32(userIdText).None? ==> !ok && context.refreshTokens == old(context.refreshTokens)
      ensures ParseInt32(userIdText).Some? ==>
        ok && context.refreshTokens == RevokeSelected(old(context.refreshTokens), ParseInt32(userIdText).value, jti, now)
    {
      var parsed := ParseInt32(userIdText);
      if parsed.None? {
        return false;
      }
      var userId := parsed.value;
      ghost var before := context.refreshTokens;
      var i := 0;
      while i < |context.refreshTokens|
        invariant 0 <= i <= |context.refreshTokens| == |before|
        invariant forall j :: 0 <= j < i ==>
          context.refreshTokens[j] == if Selected(before[j], userId, jti) then RevokeRow(before[j], now) else before[j]
        invariant forall j :: i <= j < |before| ==> context.refreshTokens[j] == before[j]
      {
        var row := context.refreshTokens[i];
        if Selected(row, userId, jti) {
          context.refreshTokens := context.refreshTokens[i := RevokeRow(row, now)];
        }
        i := i + 1;
      }
      assert context.refreshTokens == RevokeSelected(before, userId, jti, now);
      RevokeSelectedIsStep(before, userId, jti, now);
      RowEditsKeepLedger(context.users, before, context.refreshTokens, context.nextRefreshTokenId);
      return true;
    }

    /**
     * `ChangePasswordAsync`: the user is found by key whether active or not;
     * a wrong current password changes nothing. On success the new hash is
     * saved and then every refresh row of the user is revoked, through
     * `RevokeToken` on the decimal text of the id.
     */
    method ChangePassword(userId: int, currentPassword: string, newPassword: string, salt: string, now: Time)
      returns (ok: bool)
      requires context.Valid()
      requires IsInt32(userId)
      modifies context`users, context`refreshTokens
      ensures context.Valid()
      ensures LedgerStep(old(context.refreshTokens), context.refreshTokens)
      ensures var k := UserIndex(old(context.users), userId);
        (k.None? || !hasher.verify(currentPassword, old(context.users)[k.value].passwordHash)) ==>
          !ok && context.users == old(context.users) && context.refreshTokens == old(context.refreshTokens)
      ensures var k := UserIndex(old(context.users), userId);
        (k.Some? && hasher.verify(currentPassword, old(context.users)[k.value].passwordHash)) ==>
          ok &&
          context.users == old(context.users)[k.value := old(context.users)[k.value].(passwordHash := hasher.hash(newPassword, salt))] &&
          context.refreshTokens == RevokeSelected(old(context.refreshTokens), userId, None, now)
    {
      var found := UserIndex(context.users, userId);
      if found.None? {
        return false;
      }
      var k := found.value;
      var user := context.users[k];
      if !hasher.verify(currentPassword, user.passwordHash) {
        return false;
      }
      user := user.(passwordHash := hasher.hash(newPassword, salt));
      UserEditKeepsTables(context.users, context.refreshTokens, context.nextUserId, context.nextRefreshTokenId, k, user);
      context.users := context.users[k := user];
      ParseInt32ToString(userId);
      var revoked := RevokeToken(Int32ToString(userId), None, now);
      return true;
    }
  }
}
