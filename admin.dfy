/** The admin routes: both run the current-user dependency first, then require
    the admin role of the caller's stored row. */
module Admin {
  import opened Http
  import opened Text
  import opened UserModel
  import opened Tokens
  import opened UserSchemas
  import OrderedKeys
  import opened SqlOrder
  import opened UserStore
  import opened Auth

  /** The role check of both routes. */
  function RequireAdmin(caller: User): (r: Result<User>)
    ensures r.Ok? <==> caller.role == Admin
    ensures r.Ok? ==> r.value == caller
    ensures r.Err? ==> r.error == Forbidden
  {
    if caller.role != Admin then Err(Forbidden) else Ok(caller)
  }

  function Responses(rows: seq<User>): (r: seq<UserResponse>)
    ensures |r| == |rows|
    ensures forall i :: 0 <= i < |rows| ==> r[i] == ToUserResponse(rows[i])
  {
    if rows == [] then [] else [ToUserResponse(rows[0])] + Responses(rows[1..])
  }

  /** `select(User)`: every row, once each, as its public projection. */
  function AllUsers(users: map<int, User>): (r: seq<UserResponse>)
    ensures |r| == |users|
    ensures forall id :: id in users ==> ToUserResponse(users[id]) in r
    ensures forall x :: x in r ==> exists id :: id in users && x == ToUserResponse(users[id])
  {
    var rows := OrderedKeys.Scan(users);
    var r := Responses(rows);
    AllUsersComplete(users, rows, r);
    r
  }

  /** The listing is in ascending id order: entry `i` is the user with the
      `i`-th smallest id. */
  lemma AllUsersInIdOrder(users: map<int, User>)
    ensures var ids := OrderedKeys.Ascending(users.Keys);
            |ids| == |AllUsers(users)| &&
            forall i :: 0 <= i < |ids| ==> ids[i] in users && AllUsers(users)[i] == ToUserResponse(users[ids[i]])
  {
    OrderedKeys.ScanInKeyOrder(users);
    assert AllUsers(users) == Responses(OrderedKeys.Scan(users));
  }

  lemma AllUsersComplete(users: map<int, User>, rows: seq<User>, r: seq<UserResponse>)
    requires forall v :: v in rows <==> v in users.Values
    requires |r| == |rows| && forall i :: 0 <= i < |rows| ==> r[i] == ToUserResponse(rows[i])
    ensures forall id :: id in users ==> ToUserResponse(users[id]) in r
    ensures forall x :: x in r ==> exists id :: id in users && x == ToUserResponse(users[id])
  {
    forall id | id in users ensures ToUserResponse(users[id]) in r {
      assert users[id] in users.Values;
      var i :| 0 <= i < |rows| && rows[i] == users[id];
      assert r[i] == ToUserResponse(users[id]);
    }
    forall x | x in r ensures exists id :: id in users && x == ToUserResponse(users[id]) {
      var i :| 0 <= i < |r| && r[i] == x;
      var row := rows[i];
      assert row in users.Values;
      assert (forall id :: id in users ==> users[id] != row) ==> row !in users.Values;
      var id :| id in users && users[id] == row;
      assert x == ToUserResponse(users[id]);
    }
  }

  /** `list_users`: authentication errors first (401, or 500 for an unreadable
      subject), then 403 for a caller whose stored role is not admin, else
      every user. */
  function ListUsers(users: map<int, User>, token: Option<Jwt>, settings: Settings, now: int): (r: Result<seq<UserResponse>>)
    ensures var caller := GetCurrentUser(users, token, settings, now);
            && (caller.Err? ==> r == Err(caller.error))
            && (caller.Ok? && caller.value.role != Admin ==> r == Err(Forbidden))
            && (caller.Ok? && caller.value.role == Admin ==> r.Ok?)
    ensures r.Ok? ==> |r.value| == |users|
                      && (forall id :: id in users ==> ToUserResponse(users[id]) in r.value)
                      && (forall x :: x in r.value ==> exists id :: id in users && x == ToUserResponse(users[id]))
  {
    match GetCurrentUser(users, token, settings, now)
    case Err(e) => Err(e)
    case Ok(caller) =>
      match RequireAdmin(caller)
      case Err(e) => Err(e)
      case Ok(_) => Ok(AllUsers(users))
  }

  /** `delete_user`: authentication errors, then 403 for a non-admin caller,
      both before the target is looked at; then 500 for an id the store's
      64-bit integers cannot hold, 404 for a missing id; else exactly that row
      is removed. */
  method DeleteUser(table: UserTable, userId: int, token: Option<Jwt>, settings: Settings, now: int) returns (r: Result<()>)
    requires table.Valid()
    modifies table
    ensures table.Valid()
    ensures var caller := GetCurrentUser(old(table.users), token, settings, now);
            && (caller.Err? ==> r == Err(caller.error) && table.users == old(table.users))
            && (caller.Ok? && caller.value.role != Admin ==> r == Err(Forbidden) && table.users == old(table.users))
            && (caller.Ok? && caller.value.role == Admin && !FitsInt64(userId) ==>
                  r == Err(InternalServerError) && table.users == old(table.users))
            && (caller.Ok? && caller.value.role == Admin && FitsInt64(userId) && userId !in old(table.users) ==>
                  r == Err(NotFound) && table.users == old(table.users))
            && (caller.Ok? && caller.value.role == Admin && FitsInt64(userId) && userId in old(table.users) ==>
                  r == Ok(()) && table.users == old(table.users) - {userId})
  {
    var caller := GetCurrentUser(table.users, token, settings, now);
    if caller.Err? {
      return Err(caller.error);
    }
    var admin := RequireAdmin(caller.value);
    if admin.Err? {
      return Err(admin.error);
    }
    if !FitsInt64(userId) {
      return Err(InternalServerError);
    }
    if userId !in table.users {
      return Err(NotFound);
    }
    table.Remove(userId);
    r := Ok(());
  }

  /** A request without a bearer token is a 401 on both routes, never a 403. */
  lemma UnauthenticatedIsUnauthorized(users: map<int, User>, settings: Settings, now: int)
    ensures ListUsers(users, None, settings, now) == Err(Unauthorized)
  {
  }

  /** A live access token of an active non-admin row gets 403. */
  lemma RegularUserForbidden(users: map<int, User>, id: int, settings: Settings, issued: int, now: int)
    requires KeyedById(users) && id in users && users[id].isActive && users[id].role == Regular
    requires now < issued + Seconds(settings.accessTokenExpireMinutes)
    ensures ListUsers(users, Some(IssueTokens(users[id], settings, issued).accessToken), settings, now) == Err(Forbidden)
  {
    AccessTokenAuthenticates(users, id, settings, issued, now);
  }

  /** The role claim of the token is not what is checked: a validly signed
      access token that claims "admin" for a row whose stored role is "user"
      still gets 403, and a stored admin passes whatever the token claims. */
  lemma StoredRoleDecides(users: map<int, User>, id: int, claimedRole: Option<string>, settings: Settings, exp: int, now: int)
    requires KeyedById(users) && id in users && users[id].isActive && now < exp
    ensures var token := Signed(Claims(Some(IntToString(id)), claimedRole, Some(AccessType), Some(exp)),
                                settings.secretKey, settings.algorithm);
            ListUsers(users, Some(token), settings, now) ==
              if users[id].role == Admin then Ok(AllUsers(users)) else Err(Forbidden)
  {
    ParseIntToString(id);
  }
}
