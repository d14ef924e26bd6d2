/** The account handlers: registration with uniqueness checks, login and
    profile lookup. Password hashing, hash comparison and token signing
    belong to foreign libraries and come in as function parameters. */
module AuthController {
  import opened Seqs
  import opened Store

  const DefaultRole: string := "user"
  const BadCredentials: string := "Invalid email or password"

  /** The body sent after registering or logging in. */
  datatype Session = Session(id: nat, username: string, email: string, role: string, token: string)

  /** The body of `getUserProfile` (no password hash). */
  datatype Profile = Profile(id: nat, username: string, email: string, role: string, createdAt: int)

  function SessionOf(u: User, sign: User -> string): Session {
    Session(u.id, u.username, u.email, u.role, sign(u))
  }

  /** `SELECT * FROM users WHERE email = $1`, first row. */
  function FindByEmail(us: seq<User>, email: string): (r: Option<User>)
    ensures r.Some? ==> r.value in us && r.value.email == email
    ensures r.None? <==> forall u :: u in us ==> u.email != email
  {
    Find(us, (u: User) => u.email == email)
  }

  /** Some row already holds the username or the email. */
  predicate Taken(us: seq<User>, username: string, email: string) {
    exists u :: u in us && (u.username == username || u.email == email)
  }

  /** `registerUser`. Missing fields give 400; a username or email already
      in use gives 400 with nothing inserted; otherwise one row is appended
      with role `user`, and the reply echoes that row and a token. */
  method RegisterUser(db: Database, username: Option<string>, email: Option<string>,
                      password: Option<string>, hash: string -> string,
                      sign: User -> string, now: int)
    returns (reply: Reply<Session>)
    requires db.Valid()
    modifies db`users, db`nextUserId
    ensures db.Valid()
    ensures !(GivenText(username) && GivenText(email) && GivenText(password)) ==>
      reply == Err(StatusBadRequest, "Please provide username, email and password")
      && db.users == old(db.users) && db.nextUserId == old(db.nextUserId)
    ensures GivenText(username) && GivenText(email) && GivenText(password)
            && Taken(old(db.users), username.value, email.value) ==>
      reply == Err(StatusBadRequest, "User already exists") && db.users == old(db.users)
      && db.nextUserId == old(db.nextUserId)
    ensures GivenText(username) && GivenText(email) && GivenText(password)
            && !Taken(old(db.users), username.value, email.value) ==>
      var u := User(old(db.nextUserId), username.value, email.value, hash(password.value),
                    DefaultRole, now);
      && db.users == old(db.users) + [u]
      && db.nextUserId == old(db.nextUserId) + 1
      && reply == Ok(StatusCreated, SessionOf(u, sign))
  {
    if !(GivenText(username) && GivenText(email) && GivenText(password)) {
      reply := Err(StatusBadRequest, "Please provide username, email and password");
      return;
    }
    var existing := Find(db.users, (u: User) => u.username == username.value || u.email == email.value);
    if existing.Some? {
      reply := Err(StatusBadRequest, "User already exists");
      return;
    }
    assert forall i :: 0 <= i < |db.users| ==>
      db.users[i].username != username.value && db.users[i].email != email.value by {
      forall i | 0 <= i < |db.users|
        ensures db.users[i].username != username.value && db.users[i].email != email.value {
        assert db.users[i] in db.users;
      }
    }
    var u := User(db.nextUserId, username.value, email.value, hash(password.value), DefaultRole, now);
    db.users := db.users + [u];
    db.nextUserId := db.nextUserId + 1;
    reply := Ok(StatusCreated, SessionOf(u, sign));
  }

  /** `loginUser`. An unknown email and a wrong password are answered with
      the very same 401 reply, so the reply does not reveal which emails
      are registered. */
  function LoginUser(us: seq<User>, email: Option<string>, password: Option<string>,
                     verify: (string, string) -> bool, sign: User -> string): (r: Reply<Session>)
    ensures !(GivenText(email) && GivenText(password)) ==>
      r == Err(StatusBadRequest, "Please provide email and password")
    ensures GivenText(email) && GivenText(password) && !r.Ok? ==> r == Err(StatusUnauthorized, BadCredentials)
    ensures GivenText(email) && GivenText(password) && (forall u :: u in us ==> u.email != email.value) ==>
      r == Err(StatusUnauthorized, BadCredentials)
    ensures r.Ok? <==>
      GivenText(email) && GivenText(password) && FindByEmail(us, email.value).Some?
      && verify(password.value, FindByEmail(us, email.value).value.passwordHash)
    ensures r.Ok? ==> r.status == StatusOk && r.body.email == email.value
    ensures r.Ok? ==> exists u :: u in us && r.body == SessionOf(u, sign) && verify(password.value, u.passwordHash)
    ensures r.Err? && r.status == StatusUnauthorized ==> r.message == BadCredentials
  {
    if !(GivenText(email) && GivenText(password)) then
      Err(StatusBadRequest, "Please provide email and password")
    else match FindByEmail(us, email.value)
      case None => Err(StatusUnauthorized, BadCredentials)
      case Some(u) =>
        if !verify(password.value, u.passwordHash) then Err(StatusUnauthorized, BadCredentials)
        else Ok(StatusOk, SessionOf(u, sign))
  }

  /** `getUserProfile`: the requester's row without its hash, or 404 when
      the row is gone. */
  function UserProfile(us: seq<User>, requester: nat): (r: Reply<Profile>)
    ensures r.Err? <==> forall u :: u in us ==> u.id != requester
    ensures r.Err? ==> r == Err(StatusNotFound, "User not found")
    ensures r.Ok? ==> r.status == StatusOk && r.body.id == requester
    ensures r.Ok? ==> exists u :: u in us && r.body == Profile(u.id, u.username, u.email, u.role, u.createdAt)
  {
    match FindUser(us, requester)
    case None => Err(StatusNotFound, "User not found")
    case Some(u) => Ok(StatusOk, Profile(u.id, u.username, u.email, u.role, u.createdAt))
  }
}
