/** The `/users` handlers: registration, which stores the hash of the
    submitted password, and lookup by id. Neither answers with a password.

    The password hasher is a library call; it is a parameter here, so any
    hashing function, salted or not, can stand in for it. */
module UserRouter {
  import opened Base
  import Models
  import Schemas

  /** get_user: the user with primary key `id`, as `UserOut`, or NotFound. */
  function GetUser(t: Models.Tables, id: int): (r: Result<Schemas.UserOut>)
    requires t.Consistent()
    ensures r.Err? <==> id !in t.users
    ensures r.Err? ==> r.error == NotFound
    ensures r.Ok? ==>
              && r.value.id == id
              && r.value.email == t.users[id].email
              && r.value.createdAt == t.users[id].createdAt
  {
    if id in t.users then Ok(Schemas.UserView(t.users[id])) else Err(NotFound)
  }

  /** No two users answer to one email, so a lookup by id is a lookup by
      email as well. */
  lemma GetUserDistinguishesEmails(t: Models.Tables, a: int, b: int)
    requires t.Consistent() && a in t.users && b in t.users && a != b
    ensures GetUser(t, a).value.email != GetUser(t, b).value.email
  {
  }

  /** create_user: replaces the password by its hash and inserts the user.
      A duplicate email is refused by the UNIQUE constraint at commit, and
      the handler lets that failure through instead of answering 409. */
  method CreateUser(s: Models.Store, user: Schemas.UserCreate, hash: string -> string, now: Timestamp)
    returns (r: Result<Schemas.UserOut>)
    requires s.Valid()
    modifies s
    ensures s.Valid()
    ensures s.nextUserId == old(s.nextUserId) + 1 && s.nextPostId == old(s.nextPostId)
    ensures r.Err? <==> old(s.Contents().EmailTaken(user.email))
    ensures r.Err? ==> r.error == StorageFailure(UniqueViolation) && s.Contents() == old(s.Contents())
    ensures r.Ok? ==>
              && r.value.id !in old(s.users)
              && r.value.email == user.email && r.value.createdAt == now
              && s.Contents() == old(s.Contents()).(users := old(s.users)[r.value.id :=
                   Models.User(r.value.id, user.email, hash(user.password), now)])
              && GetUser(s.Contents(), r.value.id) == Ok(r.value)
  {
    var hashed := hash(user.password);
    var submitted := user.(password := hashed);
    var inserted := s.InsertUser(submitted.email, submitted.password, now);
    match inserted
    case Err(e) =>
      r := Err(e);
    case Ok(u) =>
      r := Ok(Schemas.UserView(u));
  }
}
