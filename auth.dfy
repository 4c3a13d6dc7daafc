/** The auth routes and the current-user dependency: registration, login,
    token refresh, and resolving the caller of a protected route from its
    bearer token. */
module Auth {
  import opened Http
  import opened Text
  import opened Credentials
  import opened UserModel
  import opened Tokens
  import opened UserSchemas
  import OrderedKeys
  import opened UserStore

  function FirstWithEmail(rows: seq<User>, email: string): (r: Option<User>)
    ensures r.Some? ==> r.value in rows && r.value.email == email
    ensures r.None? <==> forall u :: u in rows ==> u.email != email
  {
    if rows == [] then None
    else if rows[0].email == email then Some(rows[0])
    else FirstWithEmail(rows[1..], email)
  }

  /** `select(User).where(User.email == email)` followed by `scalar_one_or_none()`. */
  function FindByEmail(users: map<int, User>, email: string): (r: Option<User>)
    ensures r.Some? ==> r.value.email == email && exists id :: id in users && users[id] == r.value
    ensures r.None? <==> forall id :: id in users ==> users[id].email != email
  {
    var rows := OrderedKeys.Scan(users);
    var r := FirstWithEmail(rows, email);
    assert forall id :: id in users ==> users[id] in users.Values;
    r
  }

  /** Under the unique index the row found is the one row with that e-mail. */
  lemma FindByEmailUnique(users: map<int, User>, id: int)
    requires UniqueEmails(users) && id in users
    ensures FindByEmail(users, users[id].email) == Some(users[id])
  {
    var r := FindByEmail(users, users[id].email);
    var other :| other in users && users[other] == r.value;
  }

  /** A row whose e-mail is `email` and whose digest accepts `password`. */
  ghost predicate PasswordMatches(users: map<int, User>, email: string, password: string) {
    exists id :: id in users && users[id].email == email && VerifyPassword(password, users[id].hashedPassword)
  }

  /** The token pair issued at login and at refresh: an access token with the
      subject and role claims, a refresh token with the subject claim only,
      and the type label "bearer". */
  function IssueTokens(u: User, settings: Settings, now: int): (t: TokenPair)
    ensures t.tokenType == "bearer"
    ensures t.accessToken == Signed(
              Claims(Some(IntToString(u.id)), Some(RoleValue(u.role)), Some("access"),
                     Some(now + Seconds(settings.accessTokenExpireMinutes))),
              settings.secretKey, settings.algorithm)
    ensures t.refreshToken == Signed(
              Claims(Some(IntToString(u.id)), None, Some("refresh"),
                     Some(now + Seconds(settings.refreshTokenExpireMinutes))),
              settings.secretKey, settings.algorithm)
  {
    var accessToken := CreateAccessToken(Data(IntToString(u.id), Some(RoleValue(u.role))), settings, now);
    var refreshToken := CreateRefreshToken(Data(IntToString(u.id), None), settings, now);
    TokenPair(accessToken, refreshToken, "bearer")
  }

  /** `login`: 401 unless some row has the e-mail and its digest accepts the
      password (an unknown e-mail and a wrong password look the same); then 403
      if that account is inactive; otherwise a fresh token pair for it. */
  function Login(users: map<int, User>, req: UserLogin, settings: Settings, now: int): (r: Result<TokenPair>)
    requires UniqueEmails(users)
    ensures !ValidUserLogin(req) ==> r == Err(UnprocessableEntity)
    ensures ValidUserLogin(req) && !PasswordMatches(users, req.email, req.password) ==> r == Err(Unauthorized)
    ensures ValidUserLogin(req) ==>
              forall id :: id in users && users[id].email == req.email && VerifyPassword(req.password, users[id].hashedPassword) ==>
                r == if users[id].isActive then Ok(IssueTokens(users[id], settings, now)) else Err(Forbidden)
  {
    if !ValidUserLogin(req) then Err(UnprocessableEntity)
    else
      var found := FindByEmail(users, req.email);
      if found.None? || !VerifyPassword(req.password, found.value.hashedPassword) then Err(Unauthorized)
      else if !found.value.isActive then Err(Forbidden)
      else Ok(IssueTokens(found.value, settings, now))
  }

  /** The `jwt.decode` block shared by `refresh_token` and `get_current_user`:
      a token that does not decode, has another `type`, or has no `sub` is a
      401; a `sub` that `int()` cannot read raises outside the `try`, a 500. */
  function TokenSubject(token: Jwt, expectedType: string, settings: Settings, now: int): (r: Result<int>)
    ensures r.Err? ==> r.error == Unauthorized || r.error == InternalServerError
    ensures var c := Decode(token, settings, now);
            (c.None? || c.value.tokenType != Some(expectedType) || c.value.sub.None?) <==> r == Err(Unauthorized)
    ensures var c := Decode(token, settings, now);
            r.Ok? ==> c.Some? && c.value.tokenType == Some(expectedType) && c.value.sub.Some?
                      && ParseInt(c.value.sub.value) == Some(r.value)
    ensures var c := Decode(token, settings, now);
            c.Some? && c.value.tokenType == Some(expectedType) && c.value.sub.Some? ==>
              && (ParseInt(c.value.sub.value).None? <==> r == Err(InternalServerError))
              && (ParseInt(c.value.sub.value).Some? ==> r == Ok(ParseInt(c.value.sub.value).value))
  {
    match Decode(token, settings, now)
    case None => Err(Unauthorized)
    case Some(claims) =>
      if claims.tokenType != Some(expectedType) || claims.sub.None? then Err(Unauthorized)
      else match ParseInt(claims.sub.value)
        case None => Err(InternalServerError)
        case Some(id) => Ok(id)
  }

  /** `get_current_user`: no bearer token, or a token that is not a live access
      token, is a 401; so is a subject with no row or an inactive row.
      Otherwise the caller is the stored row of the subject. */
  function GetCurrentUser(users: map<int, User>, token: Option<Jwt>, settings: Settings, now: int): (r: Result<User>)
    ensures token.None? ==> r == Err(Unauthorized)
    ensures token.Some? && TokenSubject(token.value, AccessType, settings, now).Err? ==>
              r == Err(TokenSubject(token.value, AccessType, settings, now).error)
    ensures r.Ok? ==> token.Some? && Decode(token.value, settings, now).Some?
                      && Decode(token.value, settings, now).value.tokenType == Some(AccessType)
    ensures r.Ok? ==> var sub := TokenSubject(token.value, AccessType, settings, now);
                      sub.Ok? && sub.value in users && users[sub.value] == r.value && r.value.isActive
    ensures token.Some? && TokenSubject(token.value, AccessType, settings, now).Ok? ==>
              var id := TokenSubject(token.value, AccessType, settings, now).value;
              (id !in users || !users[id].isActive) <==> r == Err(Unauthorized)
    ensures token.Some? && TokenSubject(token.value, AccessType, settings, now).Ok? ==>
              var id := TokenSubject(token.value, AccessType, settings, now).value;
              id in users && users[id].isActive ==> r == Ok(users[id])
  {
    if token.None? then Err(Unauthorized)
    else
      match TokenSubject(token.value, AccessType, settings, now)
      case Err(e) => Err(e)
      case Ok(id) =>
        if id !in users || !users[id].isActive then Err(Unauthorized)
        else Ok(users[id])
  }

  /** `refresh_token`: only a live refresh token of an existing, active
      subject is exchanged, for a fresh pair issued to that subject's row. */
  function RefreshToken(users: map<int, User>, req: TokenRefreshRequest, settings: Settings, now: int): (r: Result<TokenPair>)
    ensures TokenSubject(req.refreshToken, RefreshType, settings, now).Err? ==>
              r == Err(TokenSubject(req.refreshToken, RefreshType, settings, now).error)
    ensures r.Ok? ==> Decode(req.refreshToken, settings, now).Some?
                      && Decode(req.refreshToken, settings, now).value.tokenType == Some(RefreshType)
    ensures r.Ok? ==> var sub := TokenSubject(req.refreshToken, RefreshType, settings, now);
                      sub.Ok? && sub.value in users && users[sub.value].isActive
                      && r.value == IssueTokens(users[sub.value], settings, now)
    ensures TokenSubject(req.refreshToken, RefreshType, settings, now).Ok? ==>
              var id := TokenSubject(req.refreshToken, RefreshType, settings, now).value;
              (id !in users || !users[id].isActive) <==> r == Err(Unauthorized)
    ensures TokenSubject(req.refreshToken, RefreshType, settings, now).Ok? ==>
              var id := TokenSubject(req.refreshToken, RefreshType, settings, now).value;
              id in users && users[id].isActive ==> r == Ok(IssueTokens(users[id], settings, now))
  {
    match TokenSubject(req.refreshToken, RefreshType, settings, now)
    case Err(e) => Err(e)
    case Ok(id) =>
      if id !in users || !users[id].isActive then Err(Unauthorized)
      else Ok(IssueTokens(users[id], settings, now))
  }

  /** `register_user`: a taken e-mail is a 400 and changes nothing; otherwise
      exactly one row is added under the next rowid, with the given e-mail and
      username, the hash of the password, role "user" and active. */
  method RegisterUser(table: UserTable, req: UserCreate, salt: Salt, stamp: int) returns (r: Result<UserResponse>)
    requires table.Valid()
    modifies table
    ensures table.Valid()
    ensures !ValidUserCreate(req) ==> r == Err(UnprocessableEntity) && table.users == old(table.users)
    ensures ValidUserCreate(req) && (exists id :: id in old(table.users) && old(table.users)[id].email == req.email) ==>
              r == Err(BadRequest) && table.users == old(table.users)
    ensures ValidUserCreate(req) && (forall id :: id in old(table.users) ==> old(table.users)[id].email != req.email) ==>
              var id := OrderedKeys.NextRowId(old(table.users).Keys);
              var u := User(id, req.email, req.username, HashPassword(req.password, salt), Regular, true, stamp, stamp);
              && id !in old(table.users)
              && table.users == old(table.users)[id := u]
              && r == Ok(ToUserResponse(u))
  {
    if !ValidUserCreate(req) {
      return Err(UnprocessableEntity);
    }
    var existing := FindByEmail(table.users, req.email);
    if existing.Some? {
      return Err(BadRequest);
    }
    var hashed := HashPassword(req.password, salt);
    var added := table.Add(req.email, req.username, hashed, Regular, true, stamp);
    assert added.Some?;
    r := Ok(ToUserResponse(added.value));
  }

  /** A live access token of an active row authenticates as that row. */
  lemma AccessTokenAuthenticates(users: map<int, User>, id: int, settings: Settings, issued: int, now: int)
    requires KeyedById(users) && id in users && users[id].isActive
    requires now < issued + Seconds(settings.accessTokenExpireMinutes)
    ensures GetCurrentUser(users, Some(IssueTokens(users[id], settings, issued).accessToken), settings, now) == Ok(users[id])
  {
    ParseIntToString(id);
  }

  /** A live refresh token of an active row is exchanged for a new pair issued
      to the same row, at the time of the exchange. */
  lemma RefreshTokenRotates(users: map<int, User>, id: int, settings: Settings, issued: int, now: int)
    requires KeyedById(users) && id in users && users[id].isActive
    requires now < issued + Seconds(settings.refreshTokenExpireMinutes)
    ensures RefreshToken(users, TokenRefreshRequest(IssueTokens(users[id], settings, issued).refreshToken), settings, now)
            == Ok(IssueTokens(users[id], settings, now))
  {
    ParseIntToString(id);
  }

  /** Token kinds are never interchangeable: a refresh token never
      authenticates a request, and an access token is never exchanged. */
  lemma TokenKindsNotInterchangeable(users: map<int, User>, u: User, settings: Settings, issued: int, now: int)
    ensures GetCurrentUser(users, Some(IssueTokens(u, settings, issued).refreshToken), settings, now) == Err(Unauthorized)
    ensures RefreshToken(users, TokenRefreshRequest(IssueTokens(u, settings, issued).accessToken), settings, now) == Err(Unauthorized)
  {
  }

  /** Once its lifetime has passed, neither token of a pair is accepted. */
  lemma ExpiredTokensRejected(users: map<int, User>, u: User, settings: Settings, issued: int, now: int)
    ensures now >= issued + Seconds(settings.accessTokenExpireMinutes) ==>
              GetCurrentUser(users, Some(IssueTokens(u, settings, issued).accessToken), settings, now) == Err(Unauthorized)
    ensures now >= issued + Seconds(settings.refreshTokenExpireMinutes) ==>
              RefreshToken(users, TokenRefreshRequest(IssueTokens(u, settings, issued).refreshToken), settings, now) == Err(Unauthorized)
  {
  }

  /** A password that the stored digest accepts is needed for anything but a
      401: an unknown e-mail, a wrong password and an inactive account with a
      wrong password all give the same outcome. */
  lemma LoginNeedsPassword(users: map<int, User>, req: UserLogin, settings: Settings, now: int)
    requires UniqueEmails(users) && ValidUserLogin(req)
    ensures Login(users, req, settings, now) != Err(Unauthorized) ==> PasswordMatches(users, req.email, req.password)
    ensures Login(users, req, settings, now) == Err(Forbidden) ==>
              exists id :: id in users && users[id].email == req.email && !users[id].isActive
  {
    if Login(users, req, settings, now) == Err(Forbidden) {
      var u := FindByEmail(users, req.email).value;
      var id :| id in users && users[id] == u;
    }
  }

  /** Ids are not a counter: once the row with the largest id is deleted, the
      next registration gets the same id, and an access token issued to the
      deleted user, still live, then authenticates as the newcomer. */
  lemma StaleTokenAfterIdReuse(users: map<int, User>, id: int, newcomer: User, settings: Settings, issued: int, now: int)
    requires KeyedById(users) && id in users
    requires forall j :: j in users ==> j <= id
    requires id - 1 in users || users.Keys == {1}
    requires newcomer.isActive
    requires now < issued + Seconds(settings.accessTokenExpireMinutes)
    ensures var rest := users - {id};
            var next := OrderedKeys.NextRowId(rest.Keys);
            && next == id
            && GetCurrentUser(rest[next := newcomer.(id := next)],
                              Some(IssueTokens(users[id], settings, issued).accessToken), settings, now)
               == Ok(newcomer.(id := next))
  {
    var rest := users - {id};
    assert rest.Keys == users.Keys - {id};
    OrderedKeys.NewestIdReused(users.Keys, id);
    ParseIntToString(id);
  }

  /** A user who has just registered can log in with the same e-mail and
      password, and the access token then authenticates as that user. */
  lemma RegisteredUserCanLogIn(users: map<int, User>, id: int, req: UserCreate, salt: Salt, settings: Settings, issued: int, now: int)
    requires UniqueEmails(users) && KeyedById(users) && ValidUserCreate(req)
    requires id in users && users[id].email == req.email && users[id].hashedPassword == HashPassword(req.password, salt)
    requires users[id].isActive
    requires now < issued + Seconds(settings.accessTokenExpireMinutes)
    ensures Login(users, UserLogin(req.email, req.password), settings, issued) == Ok(IssueTokens(users[id], settings, issued))
    ensures GetCurrentUser(users, Some(IssueTokens(users[id], settings, issued).accessToken), settings, now) == Ok(users[id])
  {
    VerifyOwnHash(req.password, salt);
    AccessTokenAuthenticates(users, id, settings, issued, now);
  }
}
