/** Model of routes/users.js: user creation (idempotent by email), role updates and lookups. */
module Users {
  import opened Tables
  import opened Records
  import opened Http
  import opened Store

  /** The filter `{ email }`. */
  function HasEmail(email: string): User -> bool
  {
    (u: User) => u.email == email
  }

  /** `findOne({ email })` on the users collection. */
  function UserWithEmail(users: Table<User>, email: string): (r: Option<Id>)
    requires users.Wf()
    ensures r.Some? ==> r.value in users.rows && users.rows[r.value].email == email
    ensures r.None? <==> forall id :: id in users.rows ==> users.rows[id].email != email
  {
    FindFirst(users, HasEmail(email))
  }

  /** Some user has the email: the `$lookup` on `users.email` finds a document to `$unwind`. */
  predicate HasUser(users: Table<User>, email: string)
  {
    exists id :: id in users.rows && users.rows[id].email == email
  }

  /** With unique emails, the user found for an email is the only user with that email. */
  lemma UserWithEmailIsUnique(users: Table<User>, email: string, id: Id)
    requires users.Wf() && UniqueEmails(users)
    requires id in users.rows && users.rows[id].email == email
    ensures UserWithEmail(users, email) == Some(id)
  {
    var found := UserWithEmail(users, email);
    assert found.Some?;
    assert users.rows[found.value].email == users.rows[id].email;
  }

  /** Adding a member whose email is not yet taken keeps the users collection consistent. */
  lemma NewEmailKeepsUsersOk(users: Table<User>, u: User)
    requires UsersOk(users) && u.role in Roles
    requires UserWithEmail(users, u.email).None?
    ensures UsersOk(Insert(users, u))
  {
    var users' := Insert(users, u);
    assert forall x :: x in users.rows ==> users.rows[x].email != u.email;
    forall a, b | a in users'.rows && b in users'.rows && users'.rows[a].email == users'.rows[b].email
      ensures a == b
    {
      if a != users.next && b != users.next {
        assert users'.rows[a] == users.rows[a] && users'.rows[b] == users.rows[b];
      }
    }
  }

  /** The document `createUser` inserts for a new email. */
  function NewUser(email: string, name: string, photoURL: Option<string>, now: int): User
  {
    User(email, name, OrDefault(photoURL, ""), "member", true, now)
  }

  method CreateUser(db: Database, email: string, name: string, photoURL: Option<string>, now: int)
    returns (reply: Reply)
    requires db.Valid()
    modifies db`users
    ensures db.Valid()
    ensures old(UserWithEmail(db.users, email)).Some? ==>
      reply == Existing(old(UserWithEmail(db.users, email)).value) && db.users == old(db.users)
    ensures old(UserWithEmail(db.users, email)).None? ==>
      && reply == Created(old(db.users.next))
      && db.users == Insert(old(db.users), NewUser(email, name, photoURL, now))
    ensures reply.Created? ==>
      var u := db.users.rows[reply.id];
      u.role == "member" && u.isActive && u.photoURL == OrDefault(photoURL, "")
    ensures (reply.Existing? || reply.Created?) && UserWithEmail(db.users, email) == Some(reply.id)
  {
    var existing := UserWithEmail(db.users, email);
    if existing.Some? {
      return Existing(existing.value);
    }
    var id := db.users.next;
    CreatedUserIsFound(db.users, NewUser(email, name, photoURL, now));
    db.users := Insert(db.users, NewUser(email, name, photoURL, now));
    reply := Created(id);
  }

  /** A user inserted under a fresh email keeps the collection consistent and is what a lookup by that email finds. */
  lemma CreatedUserIsFound(users: Table<User>, u: User)
    requires UsersOk(users) && u.role in Roles
    requires UserWithEmail(users, u.email).None?
    ensures UsersOk(Insert(users, u))
    ensures UserWithEmail(Insert(users, u), u.email) == Some(users.next)
  {
    NewEmailKeepsUsersOk(users, u);
    UserWithEmailIsUnique(Insert(users, u), u.email, users.next);
  }

  /** Creating the same user twice answers the same identifier and leaves the table as the first call did. */
  method CreateUserTwice(db: Database, email: string, name: string, photoURL: Option<string>, now: int)
    returns (first: Reply, second: Reply)
    requires db.Valid()
    modifies db`users
    ensures db.Valid()
    ensures (first.Existing? || first.Created?) && second == Existing(first.id)
    ensures |db.users.rows| <= |old(db.users.rows)| + 1
  {
    first := CreateUser(db, email, name, photoURL, now);
    ghost var afterFirst := db.users;
    second := CreateUser(db, email, name, photoURL, now);
    assert db.users == afterFirst;
  }

  method UpdateUserRole(db: Database, userId: Id, newRole: string) returns (reply: Reply)
    requires db.Valid()
    modifies db`users
    ensures db.Valid()
    ensures newRole !in Roles ==>
      reply == Failed(400, "Invalid role. Valid roles are: admin, clubManager, member")
      && db.users == old(db.users)
    ensures newRole in Roles && userId !in old(db.users.rows) ==>
      reply == Failed(404, "User not found") && db.users == old(db.users)
    ensures newRole in Roles && userId in old(db.users.rows) ==>
      && reply == Done("User role updated to " + newRole)
      && db.users == Replace(old(db.users), userId, old(db.users.rows[userId]).(role := newRole))
  {
    if newRole !in Roles {
      return Failed(400, "Invalid role. Valid roles are: admin, clubManager, member");
    }
    if userId !in db.users.rows {
      return Failed(404, "User not found");
    }
    db.users := Replace(db.users, userId, db.users.rows[userId].(role := newRole));
    reply := Done("User role updated to " + newRole);
  }

  function GetUserByEmail(users: Table<User>, email: string): (r: Result<User>)
    requires users.Wf()
    ensures r.Failure? <==> forall id :: id in users.rows ==> users.rows[id].email != email
    ensures r.Failure? ==> r == Failure(404, "User not found")
    ensures r.Success? ==> r.value.email == email && r.value in users.rows.Values
  {
    match UserWithEmail(users, email)
    case None => Failure(404, "User not found")
    case Some(id) => Success(users.rows[id])
  }

  /** `find({})`: every user, in natural order. */
  function GetAllUsers(users: Table<User>): (r: seq<Id>)
    requires users.Wf()
    ensures forall id :: id in r <==> id in users.rows
    ensures Ascending(r)
  {
    Ids(users)
  }

  function HasRole(role: string): User -> bool
  {
    (u: User) => u.role == role
  }

  function GetUsersByRole(users: Table<User>, role: string): (r: Result<seq<Id>>)
    requires users.Wf()
    ensures role !in Roles <==> r.Failure?
    ensures r.Failure? ==> r == Failure(400, "Invalid role")
    ensures r.Success? ==> forall id :: id in r.value <==> id in users.rows && users.rows[id].role == role
  {
    if role !in Roles then Failure(400, "Invalid role")
    else Success(Where(users, HasRole(role)))
  }
}
