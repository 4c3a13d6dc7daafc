/** Request and response shapes of the user and auth routes, with the field
    constraints the framework checks before a handler runs. */
module UserSchemas {
  import opened Http
  import opened UserModel
  import opened Tokens

  const PasswordMinLength: nat := 8

  function Occurrences(c: char, s: string): (n: nat)
    ensures n <= |s|
  {
    if s == [] then 0 else (if s[0] == c then 1 else 0) + Occurrences(c, s[1..])
  }

  /** Stand-in for the `EmailStr` syntax check: one '@' with text on both sides. */
  predicate IsEmailAddress(s: string) {
    |s| >= 3 && Occurrences('@', s) == 1 && s[0] != '@' && s[|s| - 1] != '@'
  }

  /** `UserBase`'s optional username: absent, or at most 100 characters. */
  predicate ValidUsername(username: Option<string>) {
    username.Some? ==> |username.value| <= UsernameMaxLength
  }

  /** `UserCreate`: e-mail, optional username, plain password. */
  datatype UserCreate = UserCreate(email: string, username: Option<string>, password: string)

  predicate ValidUserCreate(req: UserCreate) {
    IsEmailAddress(req.email) && ValidUsername(req.username) && |req.password| >= PasswordMinLength
  }

  /** `UserLogin`: e-mail and plain password. */
  datatype UserLogin = UserLogin(email: string, password: string)

  predicate ValidUserLogin(req: UserLogin) {
    IsEmailAddress(req.email) && |req.password| >= PasswordMinLength
  }

  /** `UserResponse`: the public projection of a user row. It has no field for the password hash. */
  datatype UserResponse = UserResponse(
    id: int,
    email: string,
    username: Option<string>,
    role: UserRole,
    isActive: bool,
    createdAt: int,
    updatedAt: int)

  function ToUserResponse(u: User): (r: UserResponse)
    ensures r.id == u.id && r.email == u.email && r.username == u.username
    ensures r.role == u.role && r.isActive == u.isActive
    ensures r.createdAt == u.createdAt && r.updatedAt == u.updatedAt
  {
    UserResponse(u.id, u.email, u.username, u.role, u.isActive, u.createdAt, u.updatedAt)
  }

  /** The response never depends on the stored hash: rows that differ only in it look the same. */
  lemma ResponseIgnoresHash(u: User, v: User)
    requires u.(hashedPassword := v.hashedPassword) == v
    ensures ToUserResponse(u) == ToUserResponse(v)
  {
  }

  /** Every other column is visible: different rows with the same hash give different responses. */
  lemma ResponseKeepsOtherColumns(u: User, v: User)
    requires u.hashedPassword == v.hashedPassword && u != v
    ensures ToUserResponse(u) != ToUserResponse(v)
  {
  }

  const BearerTokenType: string := "bearer"

  /** `Token`: an access token, a refresh token and the token type label. */
  datatype TokenPair = TokenPair(accessToken: Jwt, refreshToken: Jwt, tokenType: string)

  /** A `Token` built without a type label gets "bearer". */
  function NewTokenPair(accessToken: Jwt, refreshToken: Jwt): (t: TokenPair)
    ensures t.tokenType == "bearer"
    ensures t.accessToken == accessToken && t.refreshToken == refreshToken
  {
    TokenPair(accessToken, refreshToken, BearerTokenType)
  }

  /** `TokenRefreshRequest`: the refresh token to exchange. */
  datatype TokenRefreshRequest = TokenRefreshRequest(refreshToken: Jwt)
}
