/** The server's account and session store (`UserAccountRepository`): four
    tables (users, roles, user-role links, refresh-token rows) and the
    `refreshToken` cookie, with register, sign-in, refresh and the user
    administration operations. Password hashing and verification, JWT
    writing and the random refresh-token value are parameters. */
module AccountRepository {
  import opened Wrappers
  import opened Seqs
  import Text
  import opened Claims
  import opened Dtos

  /** The role names of the server's constants. */
  const Admin := "Admin"
  const User := "User"

  datatype ApplicationUser = ApplicationUser(id: nat, fullname: string, email: string, password: string)
  datatype SystemRole = SystemRole(id: nat, name: string)
  datatype UserRole = UserRole(id: nat, roleId: nat, userId: nat)
  datatype RefreshTokenInfo = RefreshTokenInfo(id: nat, token: string, userId: nat)

  // ----- Lookups (the `FirstOrDefault` queries) -----

  /** The first user whose email equals `email` ignoring case. */
  function FindUserByEmail(users: seq<ApplicationUser>, email: string): (r: Option<ApplicationUser>)
    ensures r.Some? ==> r.value in users && Text.ToLower(r.value.email) == Text.ToLower(email)
    ensures r.None? <==> forall i :: 0 <= i < |users| ==> Text.ToLower(users[i].email) != Text.ToLower(email)
  {
    First(users, (u: ApplicationUser) => Text.ToLower(u.email) == Text.ToLower(email))
  }

  function FindUserRole(links: seq<UserRole>, userId: int): Option<UserRole>
  {
    First(links, (l: UserRole) => l.userId == userId)
  }

  function FindRoleName(roles: seq<SystemRole>, roleId: int): Option<SystemRole>
  {
    First(roles, (r: SystemRole) => r.id == roleId)
  }

  function FindRoleNamed(roles: seq<SystemRole>, name: string): Option<SystemRole>
  {
    First(roles, (r: SystemRole) => r.name == name)
  }

  function FindUserById(users: seq<ApplicationUser>, id: int): Option<ApplicationUser>
  {
    First(users, (u: ApplicationUser) => u.id == id)
  }

  /** The claims `GenerateToken` puts into the access token, in this order. */
  function TokenClaims(user: ApplicationUser, role: string): (claims: seq<Claim>)
    ensures |claims| == 4
    ensures claims[0] == Claim(NameIdentifier, Text.NatToString(user.id))
    ensures claims[1] == Claim(Name, user.fullname) && claims[2] == Claim(Email, user.email)
    ensures claims[3] == Claim(Role, role)
  {
    [Claim(NameIdentifier, Text.NatToString(user.id)), Claim(Name, user.fullname),
     Claim(Email, user.email), Claim(Role, role)]
  }

  // ----- Table invariants -----

  ghost predicate UserIdsFresh(users: seq<ApplicationUser>, next: nat)
  {
    && (forall i, j :: 0 <= i < j < |users| ==> users[i].id != users[j].id)
    && (forall i :: 0 <= i < |users| ==> users[i].id < next)
  }

  /** No two users share an email, ignoring case. */
  ghost predicate EmailsDistinct(users: seq<ApplicationUser>)
  {
    forall i, j :: 0 <= i < j < |users| ==> Text.ToLower(users[i].email) != Text.ToLower(users[j].email)
  }

  ghost predicate RoleIdsFresh(roles: seq<SystemRole>, next: nat)
  {
    && (forall i, j :: 0 <= i < j < |roles| ==> roles[i].id != roles[j].id)
    && (forall i :: 0 <= i < |roles| ==> roles[i].id < next)
  }

  /** Link ids are fresh, every link names a user id already issued, and a
      user has at most one link (one role per user). */
  ghost predicate LinksWellFormed(links: seq<UserRole>, next: nat, nextUser: nat)
  {
    && (forall i, j :: 0 <= i < j < |links| ==> links[i].id != links[j].id && links[i].userId != links[j].userId)
    && (forall i :: 0 <= i < |links| ==> links[i].id < next && links[i].userId < nextUser)
  }

  /** At most one refresh row per user. */
  ghost predicate OneRowPerUser(rows: seq<RefreshTokenInfo>)
  {
    forall i, j :: 0 <= i < j < |rows| ==> rows[i].userId != rows[j].userId
  }

  /** Stored refresh tokens are non-empty and pairwise different. */
  ghost predicate TokensDistinct(rows: seq<RefreshTokenInfo>)
  {
    && (forall i :: 0 <= i < |rows| ==> rows[i].token != [])
    && (forall i, j :: 0 <= i < j < |rows| ==> rows[i].token != rows[j].token)
  }

  ghost predicate RowIdsFresh(rows: seq<RefreshTokenInfo>, next: nat)
  {
    && (forall i, j :: 0 <= i < j < |rows| ==> rows[i].id != rows[j].id)
    && (forall i :: 0 <= i < |rows| ==> rows[i].id < next)
  }

  /** A freshly generated refresh token: non-empty and not stored yet. */
  predicate IsFreshToken(rows: seq<RefreshTokenInfo>, token: string)
  {
    token != [] && forall i :: 0 <= i < |rows| ==> rows[i].token != token
  }

  // ----- Register -----

  /** The role a new registrant is linked to, and the role table afterwards:
      Admin while no role named Admin exists, otherwise User; the role row
      is created when it is missing. */
  function AssignedRole(roles: seq<SystemRole>, nextRoleId: nat): (r: (seq<SystemRole>, SystemRole))
    ensures r.1.name == if FindRoleNamed(roles, Admin).None? then Admin else User
    ensures r.1 in r.0
    ensures r.0 == roles || (r.0 == roles + [r.1] && r.1.id == nextRoleId)
    ensures r.0 == roles <==> FindRoleNamed(roles, r.1.name).Some?
    ensures r.0 == roles ==> FindRoleNamed(roles, r.1.name) == Some(r.1)
  {
    match FindRoleNamed(roles, Admin)
    case None =>
      var admin := SystemRole(nextRoleId, Admin);
      (roles + [admin], admin)
    case Some(_) =>
      match FindRoleNamed(roles, User)
      case None =>
        var user := SystemRole(nextRoleId, User);
        (roles + [user], user)
      case Some(user) => (roles, user)
  }

  /** The first registrant bootstraps the Admin role; once Admin exists,
      later registrants get the User role. */
  lemma BootstrapAdmin(nextRoleId: nat)
    ensures AssignedRole([], nextRoleId) == ([SystemRole(nextRoleId, Admin)], SystemRole(nextRoleId, Admin))
    ensures AssignedRole([SystemRole(nextRoleId, Admin)], nextRoleId + 1).1 == SystemRole(nextRoleId + 1, User)
  {
    var roles := [SystemRole(nextRoleId, Admin)];
    assert FindRoleNamed([], Admin).None?;
    assert [] + roles == roles;
    assert FindRoleNamed(roles, Admin) == Some(roles[0]);
    assert FindRoleNamed(roles, User).None? by {
      assert Admin != User;
    }
  }

  // ----- Sign-in -----

  datatype SignInDecision = Denied(message: string) | Granted(user: ApplicationUser, roleName: string)

  /** The checks of sign-in, in the order the repository makes them. */
  function DecideSignIn(users: seq<ApplicationUser>, links: seq<UserRole>, roles: seq<SystemRole>,
                        login: Login, verify: (string, string) -> bool): (d: SignInDecision)
    ensures FindUserByEmail(users, login.email).None? ==> d == Denied("User not found")
    ensures var found := FindUserByEmail(users, login.email);
      found.Some? && !verify(login.password, found.value.password) ==> d == Denied("Email or Password not valid")
    ensures var found := FindUserByEmail(users, login.email);
      found.Some? && verify(login.password, found.value.password) ==>
        var link := FindUserRole(links, found.value.id);
        (link.None? || FindRoleName(roles, link.value.roleId).None?) ==> d == Denied("User role not found")
    ensures d.Granted? <==>
      var found := FindUserByEmail(users, login.email);
      && found.Some? && verify(login.password, found.value.password)
      && FindUserRole(links, found.value.id).Some?
      && FindRoleName(roles, FindUserRole(links, found.value.id).value.roleId).Some?
    ensures d.Granted? ==>
      && Some(d.user) == FindUserByEmail(users, login.email) && verify(login.password, d.user.password)
      && Some(SystemRole(FindUserRole(links, d.user.id).value.roleId, d.roleName))
           == FindRoleName(roles, FindUserRole(links, d.user.id).value.roleId)
  {
    match FindUserByEmail(users, login.email)
    case None => Denied("User not found")
    case Some(user) =>
      if !verify(login.password, user.password) then Denied("Email or Password not valid")
      else match FindUserRole(links, user.id)
        case None => Denied("User role not found")
        case Some(link) =>
          match FindRoleName(roles, link.roleId)
          case None => Denied("User role not found")
          case Some(role) => Granted(user, role.name)
  }

  /** Store the refresh token for a user: overwrite that user's row, or add one. */
  function Upsert(rows: seq<RefreshTokenInfo>, userId: nat, token: string, nextId: nat): seq<RefreshTokenInfo>
  {
    match FirstIndex(rows, (row: RefreshTokenInfo) => row.userId == userId)
    case Some(k) => rows[k := rows[k].(token := token)]
    case None => rows + [RefreshTokenInfo(nextId, token, userId)]
  }

  /** Upserting keeps one row per user, gives the user exactly one row that
      holds the new token, duplicates nothing and leaves other users' rows alone. */
  lemma UpsertOneRow(rows: seq<RefreshTokenInfo>, userId: nat, token: string, nextId: nat)
    requires OneRowPerUser(rows)
    ensures var r := Upsert(rows, userId, token, nextId);
      && OneRowPerUser(r)
      && (exists k :: 0 <= k < |r| && r[k].userId == userId && r[k].token == token)
      && (forall i, j :: 0 <= i < |r| && 0 <= j < |r| && r[i].userId == userId && r[j].userId == userId ==> i == j)
      && (|r| == |rows| <==> exists i :: 0 <= i < |rows| && rows[i].userId == userId)
      && (forall i :: 0 <= i < |rows| && rows[i].userId != userId ==> r[i] == rows[i])
  {
    var r := Upsert(rows, userId, token, nextId);
    match FirstIndex(rows, (row: RefreshTokenInfo) => row.userId == userId)
    case Some(k) =>
      assert r[k].userId == userId && r[k].token == token;
    case None =>
      assert r[|rows|].userId == userId && r[|rows|].token == token;
  }

  /** After sign-in stores a fresh token, that token (the cookie) finds the
      signed-in user's row and no other. */
  lemma StoredTokenFindsUser(rows: seq<RefreshTokenInfo>, userId: nat, token: string, nextId: nat)
    requires OneRowPerUser(rows) && IsFreshToken(rows, token)
    ensures var r := Upsert(rows, userId, token, nextId);
      var k := TokenRow(r, token);
      k.Some? && r[k.value].userId == userId
  {
    var r := Upsert(rows, userId, token, nextId);
    UpsertOneRow(rows, userId, token, nextId);
    var k := TokenRow(r, token);
    assert k.Some?;
    match FirstIndex(rows, (row: RefreshTokenInfo) => row.userId == userId)
    case Some(j) =>
      assert forall i :: 0 <= i < |r| && i != j ==> r[i] == rows[i];
    case None =>
      assert forall i :: 0 <= i < |rows| ==> r[i] == rows[i];
  }

  // ----- Refresh -----

  datatype RefreshDecision = RefreshDenied(message: string) | Rotate(row: nat, user: ApplicationUser, roleName: string)

  /** The first refresh row holding `token` (`FirstOrDefault(rt => rt.Token.Equals(token))`). */
  function TokenRow(rows: seq<RefreshTokenInfo>, token: string): (r: Option<nat>)
    ensures r.Some? ==> r.value < |rows| && rows[r.value].token == token
    ensures r.Some? ==> forall j :: 0 <= j < r.value ==> rows[j].token != token
    ensures r.None? <==> forall j :: 0 <= j < |rows| ==> rows[j].token != token
  {
    FirstIndex(rows, (row: RefreshTokenInfo) => row.token == token)
  }

  /** The checks of refresh, in the order the repository makes them. */
  function DecideRefresh(users: seq<ApplicationUser>, links: seq<UserRole>, roles: seq<SystemRole>,
                         rows: seq<RefreshTokenInfo>, cookie: Option<string>): (d: RefreshDecision)
    ensures Text.IsNullOrEmpty(cookie) ==> d == RefreshDenied("Refresh token is required")
    ensures d.Rotate? ==> cookie.Some? && d.row < |rows| && rows[d.row].token == cookie.value
    ensures d.Rotate? ==> d.user.id == rows[d.row].userId && d.user in users
    ensures d.Rotate? ==> forall j :: 0 <= j < d.row ==> rows[j].token != cookie.value
    ensures !Text.IsNullOrEmpty(cookie) && (forall i :: 0 <= i < |rows| ==> rows[i].token != cookie.value)
      ==> d == RefreshDenied("Invalid refresh token")
    ensures !Text.IsNullOrEmpty(cookie) && TokenRow(rows, cookie.value).Some? ==>
      var k := TokenRow(rows, cookie.value).value;
      var owner := FindUserById(users, rows[k].userId);
      && (owner.None? ==> d == RefreshDenied("User not found"))
      && (owner.Some? && FindUserRole(links, owner.value.id).None? ==> d == RefreshDenied("User role not found"))
      && (owner.Some? && FindUserRole(links, owner.value.id).Some? ==>
            var role := FindRoleName(roles, FindUserRole(links, owner.value.id).value.roleId);
            && (role.None? ==> d == RefreshDenied("Role not found"))
            && (role.Some? ==> d == Rotate(k, owner.value, role.value.name)))
  {
    if Text.IsNullOrEmpty(cookie) then RefreshDenied("Refresh token is required")
    else match TokenRow(rows, cookie.value)
      case None => RefreshDenied("Invalid refresh token")
      case Some(k) =>
        match FindUserById(users, rows[k].userId)
        case None => RefreshDenied("User not found")
        case Some(user) =>
          match FindUserRole(links, user.id)
          case None => RefreshDenied("User role not found")
          case Some(link) =>
            match FindRoleName(roles, link.roleId)
            case None => RefreshDenied("Role not found")
            case Some(role) => Rotate(k, user, role.name)
  }

  function Rotated(rows: seq<RefreshTokenInfo>, k: nat, token: string): seq<RefreshTokenInfo>
    requires k < |rows|
  {
    rows[k := rows[k].(token := token)]
  }

  /** Rotation keeps the row's owner, makes the new value the only match
      and the old value match nothing, so presenting it again is refused. */
  lemma RotationInvalidatesOldToken(users: seq<ApplicationUser>, links: seq<UserRole>, roles: seq<SystemRole>,
                                    rows: seq<RefreshTokenInfo>, k: nat, newToken: string)
    requires TokensDistinct(rows) && k < |rows| && IsFreshToken(rows, newToken)
    ensures var r := Rotated(rows, k, newToken);
      && r[k].userId == rows[k].userId && r[k].token == newToken
      && TokensDistinct(r)
      && (forall i :: 0 <= i < |r| ==> r[i].token != rows[k].token)
      && DecideRefresh(users, links, roles, r, Some(rows[k].token)) == RefreshDenied("Invalid refresh token")
  {
    var r := Rotated(rows, k, newToken);
    assert forall i :: 0 <= i < |r| && i != k ==> r[i] == rows[i];
  }

  // ----- User administration -----

  /** The entry `GetUsers` builds for one user; the role lookup dereferences
      the user's link and the role it finds, so a missing one throws. */
  function ManageUserOf(user: ApplicationUser, links: seq<UserRole>, roles: seq<SystemRole>): Result<ManageUser>
  {
    match FindUserRole(links, user.id)
    case None => Throws(NullReference)
    case Some(link) =>
      match FindRoleName(roles, link.roleId)
      case None => Throws(NullReference)
      case Some(role) => Ok(ManageUser(user.id, user.fullname, user.email, role.name))
  }

  /** The entries for `users` in order, or the exception of the first user whose entry throws. */
  function ManageUsers(users: seq<ApplicationUser>, links: seq<UserRole>, roles: seq<SystemRole>): Result<seq<ManageUser>>
  {
    MapResults(users, (u: ApplicationUser) => ManageUserOf(u, links, roles))
  }

  /** `GetUsers`: null for an empty user or role table, else the entries. */
  function UsersListing(users: seq<ApplicationUser>, links: seq<UserRole>, roles: seq<SystemRole>): Result<Option<seq<ManageUser>>>
  {
    if |users| == 0 || |roles| == 0 then Ok(None)
    else match ManageUsers(users, links, roles)
      case Throws(e) => Throws(e)
      case Ok(entries) => Ok(Some(entries))
  }

  /** The listing succeeds exactly when every user has a link and a role, and
      then has one entry per user, in store order, carrying that user's role name. */
  lemma ManageUsersShape(users: seq<ApplicationUser>, links: seq<UserRole>, roles: seq<SystemRole>)
    ensures ManageUsers(users, links, roles).Ok? <==> forall i :: 0 <= i < |users| ==> ManageUserOf(users[i], links, roles).Ok?
    ensures ManageUsers(users, links, roles).Ok? ==>
      var entries := ManageUsers(users, links, roles).value;
      |entries| == |users| &&
      forall i :: 0 <= i < |users| ==> Ok(entries[i]) == ManageUserOf(users[i], links, roles)
  {
    MapResultsShape(users, (u: ApplicationUser) => ManageUserOf(u, links, roles));
  }

  /** An entry names the user's id, name and email and the name of the role its link points to. */
  lemma ManageUserOfContents(user: ApplicationUser, links: seq<UserRole>, roles: seq<SystemRole>)
    ensures ManageUserOf(user, links, roles).Ok? <==>
      FindUserRole(links, user.id).Some? && FindRoleName(roles, FindUserRole(links, user.id).value.roleId).Some?
    ensures ManageUserOf(user, links, roles).Ok? ==>
      ManageUserOf(user, links, roles).value ==
        ManageUser(user.id, user.fullname, user.email, FindRoleName(roles, FindUserRole(links, user.id).value.roleId).value.name)
  {
  }

  /** Removing one user keeps the ids fresh and the emails distinct, leaves
      no user with the removed id (ids are unique) and keeps every other user. */
  lemma RemoveUserKeepsTable(users: seq<ApplicationUser>, k: nat, next: nat)
    requires k < |users| && UserIdsFresh(users, next) && EmailsDistinct(users)
    ensures var rest := users[..k] + users[k + 1..];
      && UserIdsFresh(rest, next) && EmailsDistinct(rest)
      && (forall i :: 0 <= i < |rest| ==> rest[i].id != users[k].id)
      && (forall u :: u in users && u.id != users[k].id ==> u in rest)
  {
    var rest := users[..k] + users[k + 1..];
    RemovedAt(users, k);
    forall i, j | 0 <= i < j < |rest|
      ensures rest[i].id != rest[j].id && Text.ToLower(rest[i].email) != Text.ToLower(rest[j].email)
    {
      var i' := if i < k then i else i + 1;
      var j' := if j < k then j else j + 1;
      assert rest[i] == users[i'] && rest[j] == users[j'] && i' < j';
    }
    forall i | 0 <= i < |rest| ensures rest[i].id < next && rest[i].id != users[k].id {
      var i' := if i < k then i else i + 1;
      assert rest[i] == users[i'] && i' != k;
    }
    forall u | u in users && u.id != users[k].id ensures u in rest {
      var j :| 0 <= j < |users| && users[j] == u;
      if j < k { assert rest[j] == u; } else { assert rest[j - 1] == u; }
    }
  }

  class UserAccountRepository {
    var users: seq<ApplicationUser>
    var roles: seq<SystemRole>
    var userRoles: seq<UserRole>
    var refreshTokens: seq<RefreshTokenInfo>
    /** The `refreshToken` cookie of one browser: set by sign-in and refresh,
        read by refresh. A request presenting another cookie (an older or a
        stolen one) is modelled by `PresentCookie` before the refresh. */
    var cookie: Option<string>
    /** The identity values the database assigns next, one per table. */
    var nextUserId: nat
    var nextRoleId: nat
    var nextUserRoleId: nat
    var nextTokenId: nat

    /** The table invariants; the cookie is not part of them. */
    ghost predicate Valid()
      reads this`users, this`nextUserId, this`roles, this`nextRoleId, this`userRoles, this`nextUserRoleId
      reads this`refreshTokens, this`nextTokenId
    {
      && UserIdsFresh(users, nextUserId)
      && EmailsDistinct(users)
      && RoleIdsFresh(roles, nextRoleId)
      && LinksWellFormed(userRoles, nextUserRoleId, nextUserId)
      && RowIdsFresh(refreshTokens, nextTokenId)
      && OneRowPerUser(refreshTokens)
      && TokensDistinct(refreshTokens)
    }

    constructor ()
      ensures Valid()
      ensures users == [] && roles == [] && userRoles == [] && refreshTokens == [] && cookie == None
    {
      users, roles, userRoles, refreshTokens, cookie := [], [], [], [], None;
      nextUserId, nextRoleId, nextUserRoleId, nextTokenId := 1, 1, 1, 1;
    }

    /** Register. */
    method CreateAsync(model: Option<Register>, hashPassword: string -> string) returns (r: GeneralResponse)
      requires Valid()
      modifies this
      ensures Valid()
      ensures model.None? ==> r == GeneralResponse(false, "Model is empty") && unchanged(this)
      ensures model.Some? && FindUserByEmail(old(users), model.value.email).Some? ==>
        r == GeneralResponse(false, "User with this email already exists.") && unchanged(this)
      ensures model.Some? && FindUserByEmail(old(users), model.value.email).None? ==>
        var roleChoice := AssignedRole(old(roles), old(nextRoleId));
        && r == GeneralResponse(true, "Account created!")
        && users == old(users) + [ApplicationUser(old(nextUserId), model.value.fullname, model.value.email,
                                                  hashPassword(model.value.password))]
        && roles == roleChoice.0
        && userRoles == old(userRoles) + [UserRole(old(nextUserRoleId), roleChoice.1.id, old(nextUserId))]
        && refreshTokens == old(refreshTokens) && cookie == old(cookie)
        && nextUserId == old(nextUserId) + 1 && nextUserRoleId == old(nextUserRoleId) + 1
        && nextRoleId == (if roles == old(roles) then old(nextRoleId) else old(nextRoleId) + 1)
        && nextTokenId == old(nextTokenId)
    {
      if model.None? {
        return GeneralResponse(false, "Model is empty");
      }
      var user := model.value;
      var checkUser := FindUserByEmail(users, user.email);
      if checkUser.Some? {
        return GeneralResponse(false, "User with this email already exists.");
      }
      var applicationUser := ApplicationUser(nextUserId, user.fullname, user.email, hashPassword(user.password));
      AddUser(applicationUser);
      var checkAdminRole := FindRoleNamed(roles, Admin);
      if checkAdminRole.None? {
        var createAdminRole := SystemRole(nextRoleId, Admin);
        AddRole(createAdminRole);
        AddUserRole(createAdminRole.id, applicationUser.id);
        return GeneralResponse(true, "Account created!");
      }
      var checkUserRole := FindRoleNamed(roles, User);
      if checkUserRole.None? {
        var response := SystemRole(nextRoleId, User);
        AddRole(response);
        AddUserRole(response.id, applicationUser.id);
      } else {
        AddUserRole(checkUserRole.value.id, applicationUser.id);
      }
      return GeneralResponse(true, "Account created!");
    }

    /** `AddToDatabase` of a new user whose email is not taken. */
    method AddUser(user: ApplicationUser)
      requires Valid() && user.id == nextUserId
      requires forall i :: 0 <= i < |users| ==> Text.ToLower(users[i].email) != Text.ToLower(user.email)
      modifies this
      ensures Valid()
      ensures users == old(users) + [user] && nextUserId == old(nextUserId) + 1
      ensures roles == old(roles) && userRoles == old(userRoles) && refreshTokens == old(refreshTokens)
      ensures cookie == old(cookie) && nextRoleId == old(nextRoleId)
      ensures nextUserRoleId == old(nextUserRoleId) && nextTokenId == old(nextTokenId)
    {
      users := users + [user];
      nextUserId := nextUserId + 1;
    }

    /** `AddToDatabase` of a new role. */
    method AddRole(role: SystemRole)
      requires Valid() && role.id == nextRoleId
      modifies this
      ensures Valid()
      ensures roles == old(roles) + [role] && nextRoleId == old(nextRoleId) + 1
      ensures users == old(users) && userRoles == old(userRoles) && refreshTokens == old(refreshTokens)
      ensures cookie == old(cookie) && nextUserId == old(nextUserId)
      ensures nextUserRoleId == old(nextUserRoleId) && nextTokenId == old(nextTokenId)
    {
      roles := roles + [role];
      nextRoleId := nextRoleId + 1;
    }

    /** `AddToDatabase` of the link for the user registered last. */
    method AddUserRole(roleId: nat, userId: nat)
      requires Valid() && userId + 1 == nextUserId
      requires forall i :: 0 <= i < |userRoles| ==> userRoles[i].userId != userId
      modifies this
      ensures Valid()
      ensures userRoles == old(userRoles) + [UserRole(old(nextUserRoleId), roleId, userId)]
      ensures nextUserRoleId == old(nextUserRoleId) + 1
      ensures users == old(users) && roles == old(roles) && refreshTokens == old(refreshTokens)
      ensures cookie == old(cookie) && nextUserId == old(nextUserId)
      ensures nextRoleId == old(nextRoleId) && nextTokenId == old(nextTokenId)
    {
      userRoles := userRoles + [UserRole(nextUserRoleId, roleId, userId)];
      nextUserRoleId := nextUserRoleId + 1;
    }

    /** Sign-in. */
    method SignInAsync(model: Option<Login>, verify: (string, string) -> bool,
                       writeToken: seq<Claim> -> string, freshToken: string) returns (r: LoginResponse)
      requires Valid() && IsFreshToken(refreshTokens, freshToken)
      modifies this
      ensures Valid()
      ensures model.None? ==> r == Failed("Model is empty") && unchanged(this)
      ensures model.Some? && DecideSignIn(old(users), old(userRoles), old(roles), model.value, verify).Denied? ==>
        r == Failed(DecideSignIn(old(users), old(userRoles), old(roles), model.value, verify).message) && unchanged(this)
      ensures model.Some? && DecideSignIn(old(users), old(userRoles), old(roles), model.value, verify).Granted? ==>
        var d := DecideSignIn(old(users), old(userRoles), old(roles), model.value, verify);
        && r == LoginResponse(None, writeToken(TokenClaims(d.user, d.roleName)), "Login successful", true, Some([d.roleName]))
        && refreshTokens == Upsert(old(refreshTokens), d.user.id, freshToken, old(nextTokenId))
        && cookie == Some(freshToken)
        && users == old(users) && roles == old(roles) && userRoles == old(userRoles)
        && nextUserId == old(nextUserId) && nextRoleId == old(nextRoleId) && nextUserRoleId == old(nextUserRoleId)
        && nextTokenId == (if |refreshTokens| == |old(refreshTokens)| then old(nextTokenId) else old(nextTokenId) + 1)
    {
      if model.None? {
        return Failed("Model is empty");
      }
      var user := model.value;
      ghost var d := DecideSignIn(users, userRoles, roles, user, verify);
      var applicationUser := FindUserByEmail(users, user.email);
      if applicationUser.None? {
        assert d == Denied("User not found");
        return Failed("User not found");
      }
      if !verify(user.password, applicationUser.value.password) {
        assert d == Denied("Email or Password not valid");
        return Failed("Email or Password not valid");
      }
      var getUserRole := FindUserRole(userRoles, applicationUser.value.id);
      if getUserRole.None? {
        assert d == Denied("User role not found");
        return Failed("User role not found");
      }
      var getRoleName := FindRoleName(roles, getUserRole.value.roleId);
      if getRoleName.None? {
        assert d == Denied("User role not found");
        return Failed("User role not found");
      }
      assert d == Granted(applicationUser.value, getRoleName.value.name);
      var jwtToken := writeToken(TokenClaims(applicationUser.value, getRoleName.value.name));
      var refreshToken := freshToken;
      StoreRefreshToken(applicationUser.value.id, refreshToken);
      cookie := Some(refreshToken);
      return LoginResponse(None, jwtToken, "Login successful", true, Some([getRoleName.value.name]));
    }

    /** Overwrite the user's refresh row in place, or add one. */
    method StoreRefreshToken(userId: nat, token: string)
      requires Valid() && IsFreshToken(refreshTokens, token)
      modifies this
      ensures Valid()
      ensures refreshTokens == Upsert(old(refreshTokens), userId, token, old(nextTokenId))
      ensures nextTokenId == (if |refreshTokens| == |old(refreshTokens)| then old(nextTokenId) else old(nextTokenId) + 1)
      ensures users == old(users) && roles == old(roles) && userRoles == old(userRoles) && cookie == old(cookie)
      ensures nextUserId == old(nextUserId) && nextRoleId == old(nextRoleId) && nextUserRoleId == old(nextUserRoleId)
    {
      UpsertOneRow(refreshTokens, userId, token, nextTokenId);
      var findUser := FirstIndex(refreshTokens, (row: RefreshTokenInfo) => row.userId == userId);
      if findUser.Some? {
        var k := findUser.value;
        refreshTokens := refreshTokens[k := refreshTokens[k].(token := token)];
      } else {
        refreshTokens := refreshTokens + [RefreshTokenInfo(nextTokenId, token, userId)];
        nextTokenId := nextTokenId + 1;
      }
    }

    /** The next request carries `presented` as its `refreshToken` cookie. */
    method PresentCookie(presented: Option<string>)
      modifies this`cookie
      ensures cookie == presented
    {
      cookie := presented;
    }

    /** Refresh: look the cookie up and rotate it. */
    method RefreshTokenAsync(writeToken: seq<Claim> -> string, freshToken: string) returns (r: LoginResponse)
      requires Valid() && IsFreshToken(refreshTokens, freshToken)
      modifies this
      ensures Valid()
      ensures DecideRefresh(old(users), old(userRoles), old(roles), old(refreshTokens), old(cookie)).RefreshDenied? ==>
        r == Failed(DecideRefresh(old(users), old(userRoles), old(roles), old(refreshTokens), old(cookie)).message)
        && unchanged(this)
      ensures DecideRefresh(old(users), old(userRoles), old(roles), old(refreshTokens), old(cookie)).Rotate? ==>
        var d := DecideRefresh(old(users), old(userRoles), old(roles), old(refreshTokens), old(cookie));
        && r == LoginResponse(None, writeToken(TokenClaims(d.user, d.roleName)), "Token refreshed successfully", true, Some([d.roleName]))
        && refreshTokens == Rotated(old(refreshTokens), d.row, freshToken)
        && cookie == Some(freshToken)
        && users == old(users) && roles == old(roles) && userRoles == old(userRoles)
        && nextUserId == old(nextUserId) && nextRoleId == old(nextRoleId)
        && nextUserRoleId == old(nextUserRoleId) && nextTokenId == old(nextTokenId)
    {
      var refreshToken := cookie;
      ghost var d := DecideRefresh(users, userRoles, roles, refreshTokens, cookie);
      if Text.IsNullOrEmpty(refreshToken) {
        return Failed("Refresh token is required");
      }
      var findToken := TokenRow(refreshTokens, refreshToken.value);
      if findToken.None? {
        return Failed("Invalid refresh token");
      }
      var k := findToken.value;
      var user := FindUserById(users, refreshTokens[k].userId);
      if user.None? {
        return Failed("User not found");
      }
      var userRole := FindUserRole(userRoles, user.value.id);
      if userRole.None? {
        return Failed("User role not found");
      }
      var roleName := FindRoleName(roles, userRole.value.roleId);
      if roleName.None? {
        return Failed("Role not found");
      }
      var newJwtToken := writeToken(TokenClaims(user.value, roleName.value.name));
      var newRefreshToken := freshToken;
      assert d == Rotate(k, user.value, roleName.value.name);
      RotateRefreshToken(k, newRefreshToken);
      cookie := Some(newRefreshToken);
      return LoginResponse(None, newJwtToken, "Token refreshed successfully", true, Some([roleName.value.name]));
    }

    /** Overwrite the token of the row the cookie matched. */
    method RotateRefreshToken(k: nat, token: string)
      requires Valid() && k < |refreshTokens| && IsFreshToken(refreshTokens, token)
      modifies this
      ensures Valid()
      ensures refreshTokens == Rotated(old(refreshTokens), k, token)
      ensures users == old(users) && roles == old(roles) && userRoles == old(userRoles) && cookie == old(cookie)
      ensures nextUserId == old(nextUserId) && nextRoleId == old(nextRoleId)
      ensures nextUserRoleId == old(nextUserRoleId) && nextTokenId == old(nextTokenId)
    {
      RotationInvalidatesOldToken(users, userRoles, roles, refreshTokens, k, token);
      refreshTokens := refreshTokens[k := refreshTokens[k].(token := token)];
    }

    /** `GetUsers`, building the list in a loop over the users. */
    method GetUsers() returns (r: Result<Option<seq<ManageUser>>>)
      ensures r == UsersListing(users, userRoles, roles)
    {
      var allUsers, allUserRoles, allRoles := users, userRoles, roles;
      if |allUsers| == 0 || |allRoles| == 0 {
        return Ok(None);
      }
      ghost var entryOf := (u: ApplicationUser) => ManageUserOf(u, allUserRoles, allRoles);
      var list: seq<ManageUser> := [];
      var i := 0;
      while i < |allUsers|
        invariant 0 <= i <= |allUsers|
        invariant MapResults(allUsers[..i], entryOf) == Ok(list)
      {
        var entry := ManageUserOf(allUsers[i], allUserRoles, allRoles);
        assert entry == entryOf(allUsers[i]);
        MapResultsStep(allUsers, entryOf, i, list);
        if entry.Throws? {
          return Throws(entry.exception);
        }
        list := list + [entry.value];
        i := i + 1;
      }
      assert allUsers[..i] == allUsers;
      return Ok(Some(list));
    }

    /** `UpdateUser`: point the user's link at the role with the given name. */
    method UpdateUser(user: ManageUser) returns (r: Result<GeneralResponse>)
      requires Valid()
      modifies this
      ensures Valid()
      ensures FindRoleNamed(old(roles), user.role).None?
              || FirstIndex(old(userRoles), (l: UserRole) => l.userId == user.userId).None? ==>
        r == Throws(NullReference) && unchanged(this)
      ensures FindRoleNamed(old(roles), user.role).Some?
              && FirstIndex(old(userRoles), (l: UserRole) => l.userId == user.userId).Some? ==>
        var k := FirstIndex(old(userRoles), (l: UserRole) => l.userId == user.userId).value;
        && r == Ok(GeneralResponse(true, "User role updated successfully"))
        && userRoles == old(userRoles)[k := old(userRoles)[k].(roleId := FindRoleNamed(old(roles), user.role).value.id)]
        && users == old(users) && roles == old(roles) && refreshTokens == old(refreshTokens) && cookie == old(cookie)
        && nextUserId == old(nextUserId) && nextRoleId == old(nextRoleId)
        && nextUserRoleId == old(nextUserRoleId) && nextTokenId == old(nextTokenId)
    {
      var getRole := FindRoleNamed(roles, user.role);
      var userRole := FirstIndex(userRoles, (l: UserRole) => l.userId == user.userId);
      if userRole.None? || getRole.None? {
        return Throws(NullReference);
      }
      var k := userRole.value;
      userRoles := userRoles[k := userRoles[k].(roleId := getRole.value.id)];
      return Ok(GeneralResponse(true, "User role updated successfully"));
    }

    method GetRoles() returns (r: seq<SystemRole>)
      ensures r == roles
    {
      return roles;
    }

    /** `DeleteUser`: remove the user with that id; removing a missing one throws. */
    method DeleteUser(id: int) returns (r: Result<GeneralResponse>)
      requires Valid()
      modifies this
      ensures Valid()
      ensures FirstIndex(old(users), (u: ApplicationUser) => u.id == id).None? ==> r == Throws(ArgumentNull) && unchanged(this)
      ensures FirstIndex(old(users), (u: ApplicationUser) => u.id == id).Some? ==>
        var k := FirstIndex(old(users), (u: ApplicationUser) => u.id == id).value;
        && r == Ok(GeneralResponse(true, "User successfully deleted"))
        && users == old(users)[..k] + old(users)[k + 1..]
        && roles == old(roles) && userRoles == old(userRoles) && refreshTokens == old(refreshTokens) && cookie == old(cookie)
        && nextUserId == old(nextUserId) && nextRoleId == old(nextRoleId)
        && nextUserRoleId == old(nextUserRoleId) && nextTokenId == old(nextTokenId)
      ensures forall i :: 0 <= i < |users| ==> users[i].id != id
      ensures forall u :: u in old(users) && u.id != id ==> u in users
    {
      var user := FirstIndex(users, (u: ApplicationUser) => u.id == id);
      if user.None? {
        return Throws(ArgumentNull);
      }
      var k := user.value;
      RemoveUserKeepsTable(users, k, nextUserId);
      users := users[..k] + users[k + 1..];
      return Ok(GeneralResponse(true, "User successfully deleted"));
    }
  }
}
