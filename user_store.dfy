/** The `users` table as the handlers see it through their session: rows by
    primary key and the unique index on `email`. The key is an `INTEGER
    PRIMARY KEY` without AUTOINCREMENT, so a new row gets the largest id
    present plus one. */
module UserStore {
  import opened Http
  import opened Credentials
  import opened UserModel
  import OrderedKeys

  class UserTable {
    var users: map<int, User>

    ghost predicate Valid()
      reads this
    {
      && KeyedById(users)
      && (forall id :: id in users ==> id >= 1)
      && UniqueEmails(users)
    }

    constructor ()
      ensures Valid() && users == map[]
    {
      users := map[];
    }

    /** `db.add` + `commit` + `refresh` of a new row: the row gets the next
        rowid and is stored, unless the unique index already holds its e-mail,
        in which case the commit fails and nothing is stored. */
    method Add(email: string, username: Option<string>, hashedPassword: Digest, role: UserRole, isActive: bool, stamp: int)
      returns (r: Option<User>)
      requires Valid()
      modifies this
      ensures Valid()
      ensures (exists id :: id in old(users) && old(users)[id].email == email) ==>
                r.None? && users == old(users)
      ensures (forall id :: id in old(users) ==> old(users)[id].email != email) ==>
                var id := OrderedKeys.NextRowId(old(users).Keys);
                && r == Some(User(id, email, username, hashedPassword, role, isActive, stamp, stamp))
                && id !in old(users)
                && users == old(users)[id := r.value]
    {
      if exists id :: id in users && users[id].email == email {
        r := None;
        return;
      }
      var id := OrderedKeys.NextRowId(users.Keys);
      var u := User(id, email, username, hashedPassword, role, isActive, stamp, stamp);
      users := users[id := u];
      r := Some(u);
    }

    /** `db.delete` + `commit` of an existing row. */
    method Remove(id: int)
      requires Valid() && id in users
      modifies this
      ensures Valid()
      ensures users == old(users) - {id}
    {
      users := users - {id};
    }
  }
}
