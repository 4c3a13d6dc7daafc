/** The `users` table: its row type, the closed role enumeration and the
    column defaults. */
module UserModel {
  import opened Http
  import opened Credentials

  /** `UserRole`: exactly the two roles "user" and "admin". */
  datatype UserRole = Regular | Admin

  /** The stored (and claimed) spelling of a role. */
  function RoleValue(r: UserRole): string {
    match r
    case Regular => "user"
    case Admin => "admin"
  }

  /** Reading a role back from its spelling; any other string is not a role. */
  function ParseRole(v: string): (r: Option<UserRole>)
    ensures r.Some? <==> v == "user" || v == "admin"
    ensures r.Some? ==> RoleValue(r.value) == v
    ensures forall role :: RoleValue(role) == v ==> r == Some(role)
  {
    if v == "user" then Some(Regular)
    else if v == "admin" then Some(Admin)
    else None
  }

  const DefaultRole: UserRole := Regular
  const DefaultIsActive: bool := true
  const UsernameMaxLength: nat := 100

  /** A row of the `users` table; timestamps are opaque store-side values. */
  datatype User = User(
    id: int,
    email: string,
    username: Option<string>,
    hashedPassword: Digest,
    role: UserRole,
    isActive: bool,
    createdAt: int,
    updatedAt: int)

  /** A row inserted without role or active flag gets the column defaults. */
  function NewUser(id: int, email: string, username: Option<string>, hashedPassword: Digest, stamp: int): (u: User)
    ensures u.role == Regular && u.isActive
    ensures u.id == id && u.email == email && u.username == username && u.hashedPassword == hashedPassword
  {
    User(id, email, username, hashedPassword, DefaultRole, DefaultIsActive, stamp, stamp)
  }

  /** The unique index on `email`. */
  ghost predicate UniqueEmails(users: map<int, User>) {
    forall a, b :: a in users && b in users && users[a].email == users[b].email ==> a == b
  }

  /** The primary key of every row is the key it is stored under. */
  ghost predicate KeyedById(users: map<int, User>) {
    forall id :: id in users ==> users[id].id == id
  }
}
