/** `AuthService`: registration, login and the current-user lookup. The
    permission queries of the same service are in `Resolver`. Hashing,
    password comparison and token signing are parameters. */
module AuthService {
  import opened Common
  import opened Schema

  const Duplicate := "Username or email already exists"
  const PasswordRequired := "Password is required"
  const IdentifierRequired := "Username or email is required"
  const InvalidCredentials := "Invalid credentials"
  const NotFound := "User not found"

  /** `{ token, user: { id, username, email } }`. */
  datatype Session = Session(token: string, user: Profile)

  /** The users whose username is `x`. */
  function WithUsername(users: map<Id, User>, x: string): (ids: set<Id>)
    ensures forall i :: i in ids <==> i in users && users[i].username == x
  {
    set i | i in users && users[i].username == x
  }

  /** The users whose email is `x`. */
  function WithEmail(users: map<Id, User>, x: string): (ids: set<Id>)
    ensures forall i :: i in ids <==> i in users && users[i].email == x
  {
    set i | i in users && users[i].email == x
  }

  /** `findUserByUsernameOrEmail(x)`: the users whose username or email is
      `x`; `db.get` hands back one of them. */
  function UsersMatching(users: map<Id, User>, x: string): (ids: set<Id>)
    ensures forall i :: i in ids <==> i in users && (users[i].username == x || users[i].email == x)
    ensures UsersUnique(users) ==> |ids| <= 2
  {
    var ids := WithUsername(users, x) + WithEmail(users, x);
    assert UsersUnique(users) ==> |ids| <= 2 by {
      if UsersUnique(users) {
        OneUserPerIdentifier(users, x);
      }
    }
    ids
  }

  /** Under `username UNIQUE` and `email UNIQUE`, at most one user has a
      given username and at most one a given email. */
  lemma OneUserPerIdentifier(users: map<Id, User>, x: string)
    requires UsersUnique(users)
    ensures |WithUsername(users, x)| <= 1
    ensures |WithEmail(users, x)| <= 1
  {
    var byName := WithUsername(users, x);
    var byEmail := WithEmail(users, x);
    if byName != {} {
      var a :| a in byName;
      assert byName == {a};
    }
    if byEmail != {} {
      var a :| a in byEmail;
      assert byEmail == {a};
    }
  }

  /** `register({username, password, email})`: the duplicate check, the
      hash, the insert, then a token for `{ id, username }`. */
  method Register(db: Database, username: Option<string>, password: Option<string>, email: Option<string>,
                  hash: string -> string, sign: Claims -> string)
    returns (r: Result<Session, Failure>)
    requires db.Valid()
    modifies db
    ensures db.Valid()
    ensures UserTaken(old(db.users), username, email, None) ==> r == Err(Thrown(Duplicate))
    ensures !UserTaken(old(db.users), username, email, None) && password.None? ==> r == Err(Engine(HashArgumentMissing))
    ensures !UserTaken(old(db.users), username, email, None) && password.Some? && (username.None? || email.None?) ==>
      r == Err(Engine(NotNullViolated))
    ensures r.Err? ==> db.State() == old(db.State())
    ensures r.Ok? <==> !UserTaken(old(db.users), username, email, None) && username.Some? && password.Some? && email.Some?
    ensures r.Ok? ==>
      && r.value.user == Profile(old(db.next.userId), username.value, email.value)
      && r.value.token == sign(Claims(r.value.user.id, username.value))
      && db.State() == old(db.State()).(
           users := old(db.users)[r.value.user.id := User(username.value, email.value, hash(password.value))],
           next := old(db.next).(userId := r.value.user.id + 1))
  {
    if exists i | i in db.users ::
         (username.Some? && db.users[i].username == username.value) || (email.Some? && db.users[i].email == email.value) {
      return Err(Thrown(Duplicate));
    }
    if password.None? {
      return Err(Engine(HashArgumentMissing));
    }
    var hashed := hash(password.value);
    if username.None? || email.None? {
      return Err(Engine(NotNullViolated));
    }
    var id := db.next.userId;
    db.users := db.users[id := User(username.value, email.value, hashed)];
    db.next := db.next.(userId := id + 1);
    r := Ok(Session(sign(Claims(id, username.value)), Profile(id, username.value, email.value)));
  }

  /** `login({username, email, password})` with `matches` standing for
      `bcrypt.compare`. The identifier is the username when truthy, else
      the email, and it is looked up in both columns. */
  method Login(db: Database, username: Option<string>, email: Option<string>, password: Option<string>,
               matches: (string, string) -> bool, sign: Claims -> string)
    returns (r: Result<Session, Failure>)
    ensures !Truthy(password) ==> r == Err(Thrown(PasswordRequired))
    ensures Truthy(password) && !Truthy(username) && !Truthy(email) ==> r == Err(Thrown(IdentifierRequired))
    ensures Truthy(password) && (Truthy(username) || Truthy(email)) ==>
      var candidates := UsersMatching(db.users, if Truthy(username) then username.value else email.value);
      && (r.Err? ==> r == Err(Thrown(InvalidCredentials)))
      && (candidates == {} ==> r.Err?)
      && (r.Ok? ==>
            && r.value.user.id in candidates
            && matches(password.value, db.users[r.value.user.id].password)
            && r.value.user == Profile(r.value.user.id, db.users[r.value.user.id].username, db.users[r.value.user.id].email)
            && r.value.token == sign(Claims(r.value.user.id, r.value.user.username)))
      && ((forall i | i in candidates :: !matches(password.value, db.users[i].password)) ==> r.Err?)
      && (candidates != {} && (forall i | i in candidates :: matches(password.value, db.users[i].password)) ==> r.Ok?)
  {
    if !Truthy(password) {
      return Err(Thrown(PasswordRequired));
    }
    if !Truthy(username) && !Truthy(email) {
      return Err(Thrown(IdentifierRequired));
    }
    var identifier := if Truthy(username) then username.value else email.value;
    var candidates := UsersMatching(db.users, identifier);
    if candidates == {} {
      return Err(Thrown(InvalidCredentials));
    }
    var id :| id in candidates;
    var user := db.users[id];
    if !matches(password.value, user.password) {
      return Err(Thrown(InvalidCredentials));
    }
    r := Ok(Session(sign(Claims(id, user.username)), Profile(id, user.username, user.email)));
  }

  /** When no email equals the identifier, unique usernames leave exactly
      one candidate, so the password decides the login alone. */
  lemma UsernameNamesOneCandidate(users: map<Id, User>, x: string, id: Id)
    requires UsersUnique(users)
    requires id in users && users[id].username == x
    requires forall j | j in users :: users[j].email != x
    ensures UsersMatching(users, x) == {id}
  {
  }

  /** `getCurrentUser(userId)`: the profile, or 'User not found'. */
  function CurrentUser(s: Store, userId: int): (r: Result<Profile, Failure>)
    ensures r.Ok? <==> userId in s.users
    ensures r.Err? ==> r == Err(Thrown(NotFound))
    ensures r.Ok? ==> r.value.id == userId && r.value.username == s.users[userId].username && r.value.email == s.users[userId].email
  {
    if userId in s.users then Ok(Profile(userId, s.users[userId].username, s.users[userId].email))
    else Err(Thrown(NotFound))
  }
}
