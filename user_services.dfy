/** The user table (src/services/userServices.js): inserting a new user. Password
    hashing and comparison (bcrypt) are not modelled; callers pass their results in. */
module UserServices {
  import opened Seqs
  import opened Schema

  /** The `type` every new user is created with. */
  const INITIAL_TYPE: Role := 9

  /** The row createNewUser inserts: the arguments verbatim (the password exactly as
      given, hashing is the caller's job), type 9 and status true. */
  function NewUser(
    id: UserId, name: string, username: string, password: string,
    idComplex: ComplexId, complement: string)
    : (u: User)
    ensures u.userType == INITIAL_TYPE && u.status
    ensures u.id == id && u.name == name && u.username == username
    ensures u.password == password && u.idComplex == idComplex && u.complement == complement
  {
    User(id, name, username, password, idComplex, INITIAL_TYPE, true, complement)
  }

  /** The table's unique constraint on `username`. */
  ghost predicate UsernamesUnique(users: seq<User>) {
    forall i, j :: 0 <= i < j < |users| ==> users[i].username != users[j].username
  }

  predicate UsernameTaken(users: seq<User>, username: string) {
    exists i :: 0 <= i < |users| && users[i].username == username
  }

  class UserStore {
    var users: seq<User>
    /** The next value of the table's auto-incremented id. */
    var nextId: int

    ghost predicate Valid()
      reads this
    {
      && UsernamesUnique(users)
      && forall i :: 0 <= i < |users| ==> users[i].id < nextId
    }

    constructor ()
      ensures Valid() && users == []
    {
      users := [];
      nextId := 1;
    }

    /** createNewUser: insert one user and return it. The insert fails, and the table
        is unchanged, when the username is already taken. */
    method CreateNewUser(
      name: string, username: string, password: string,
      idComplex: ComplexId, complement: string)
      returns (created: Option<User>)
      requires Valid()
      modifies this
      ensures Valid()
      ensures created.Some? <==> !UsernameTaken(old(users), username)
      ensures created.Some? ==>
                && created.value == NewUser(old(nextId), name, username, password, idComplex, complement)
                && users == old(users) + [created.value]
                && forall i :: 0 <= i < |old(users)| ==> old(users)[i].id != created.value.id
      ensures created.None? ==> unchanged(this)
    {
      if UsernameTaken(users, username) {
        return None;
      }
      var u := NewUser(nextId, name, username, password, idComplex, complement);
      users := users + [u];
      nextId := nextId + 1;
      created := Some(u);
    }
  }
}
