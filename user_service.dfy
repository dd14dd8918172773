/** `UserService`: the user list with its group names, create, update,
    delete, and the single-group assignment. */
module UserService {
  import opened Common
  import opened Schema
  import opened EdgeTable

  const NotFound := "User not found"
  const Duplicate := "Username or email already exists"

  /** The names of the given group rows, in the same order. */
  function NamesOf(s: Store, rows: seq<Id>): (names: seq<string>)
    requires forall i | 0 <= i < |rows| :: rows[i] in s.groups
    ensures |names| == |rows|
    ensures forall i | 0 <= i < |rows| :: names[i] == s.groups[rows[i]].name
  {
    if rows == [] then [] else [s.groups[rows[0]].name] + NamesOf(s, rows[1..])
  }

  /** `rows` lists, once each, the groups the `LEFT JOIN`s attach to user `u`
      in the engine's order; a membership whose group row is missing
      contributes NULL, which `GROUP_CONCAT` skips. */
  predicate GroupRowsOf(s: Store, u: Id, rows: seq<Id>) {
    && Distinct(rows)
    && (forall i | 0 <= i < |rows| :: rows[i] in s.groups && (u, rows[i]) in s.userGroups)
    && (forall g | g in s.groups && (u, g) in s.userGroups :: g in rows)
  }

  /** The `groups` field `getAllUsers` reports for one user:
      `GROUP_CONCAT(g.name)` split again on commas, `[]` for no group. */
  function ListedGroups(s: Store, u: Id, rows: seq<Id>): (names: seq<string>)
    requires GroupRowsOf(s, u, rows)
    ensures rows == [] ==> names == []
    ensures (forall i | 0 <= i < |rows| :: ',' !in s.groups[rows[i]].name) && NamesOf(s, rows) != [""] ==>
      names == NamesOf(s, rows)
  {
    var values := NamesOf(s, rows);
    assert (forall i | 0 <= i < |values| :: ',' !in values[i]) ==>
      ParseList(GroupConcat(values)) == (if values == [""] then [] else values) by {
      if forall i | 0 <= i < |values| :: ',' !in values[i] {
        ParseConcatenated(values);
      }
    }
    ParseList(GroupConcat(values))
  }

  /** On a consistent database a user's listed groups are exactly the
      groups of the user's memberships. */
  lemma ListedGroupsAreMemberships(s: Store, u: Id, rows: seq<Id>)
    requires Consistent(s)
    requires GroupRowsOf(s, u, rows)
    ensures forall g :: g in rows <==> (u, g) in s.userGroups
  {
    assert EdgesWithin(s.userGroups, s.users, s.groups);
  }

  /** `getUserById(id)`: the profile, or nothing. */
  function UserById(s: Store, id: int): (p: Option<Profile>)
    ensures p.Some? <==> id in s.users
    ensures p.Some? ==> p.value == Profile(id, s.users[id].username, s.users[id].email)
  {
    if id in s.users then Some(Profile(id, s.users[id].username, s.users[id].email)) else None
  }

  /** `createUser({username, password, email})` with `hash` standing for
      `bcrypt.hash` at the configured cost. */
  method CreateUser(db: Database, username: Option<string>, password: Option<string>, email: Option<string>,
                    hash: string -> string)
    returns (r: Result<Profile, Failure>)
    requires db.Valid()
    modifies db
    ensures db.Valid()
    ensures UserTaken(old(db.users), username, email, None) ==> r == Err(Thrown(Duplicate))
    ensures !UserTaken(old(db.users), username, email, None) && password.None? ==> r == Err(Engine(HashArgumentMissing))
    ensures !UserTaken(old(db.users), username, email, None) && password.Some? && (username.None? || email.None?) ==>
      r == Err(Engine(NotNullViolated))
    ensures r.Err? ==> db.State() == old(db.State())
    ensures r.Ok? <==> !UserTaken(old(db.users), username, email, None) && username.Some? && password.Some? && email.Some?
    ensures r.Ok? ==>
      && r.value == Profile(old(db.next.userId), username.value, email.value)
      && db.State() == old(db.State()).(
           users := old(db.users)[r.value.id := User(username.value, email.value, hash(password.value))],
           next := old(db.next).(userId := r.value.id + 1))
  {
    if exists i | i in db.users ::
         (username.Some? && db.users[i].username == username.value) || (email.Some? && db.users[i].email == email.value) {
      return Err(Thrown(Duplicate));
    }
    if password.None? {
      return Err(Engine(HashArgumentMissing));
    }
    var hashed := hash(password.value);
    if username.None? || email.None? {
      return Err(Engine(NotNullViolated));
    }
    var id := db.next.userId;
    db.users := db.users[id := User(username.value, email.value, hashed)];
    db.next := db.next.(userId := id + 1);
    r := Ok(Profile(id, username.value, email.value));
  }

  /** The username/email check of an update: run only when either is truthy,
      on the new-or-old pair, against the other users. */
  predicate UpdateBlocked(users: map<Id, User>, id: Id, username: Option<string>, email: Option<string>)
    requires id in users
  {
    (Truthy(username) || Truthy(email))
    && UserTaken(users, Some(OrElse(username, users[id].username)), Some(OrElse(email, users[id].email)), Some(id))
  }

  /** Whether the `updates` list is non-empty; otherwise the statement
      reads `UPDATE users SET , updated_at = ...` and SQLite rejects it. */
  predicate HasUpdates(username: Option<string>, email: Option<string>, password: Option<string>) {
    Truthy(username) || Truthy(email) || Truthy(password)
  }

  /** The row after the update: truthy fields replace the old ones, and a
      new password is stored hashed. */
  function UpdatedUser(row: User, username: Option<string>, email: Option<string>, password: Option<string>,
                       hash: string -> string): (u: User)
    ensures u.username == OrElse(username, row.username) && u.email == OrElse(email, row.email)
    ensures Truthy(password) ==> u.password == hash(password.value)
    ensures !Truthy(password) ==> u.password == row.password
  {
    User(OrElse(username, row.username), OrElse(email, row.email),
         if Truthy(password) then hash(password.value) else row.password)
  }

  /** `updateUser(id, {username, email, password})`. */
  method UpdateUser(db: Database, id: int, username: Option<string>, email: Option<string>, password: Option<string>,
                    hash: string -> string)
    returns (r: Result<Profile, Failure>)
    requires db.Valid()
    modifies db
    ensures db.Valid()
    ensures id !in old(db.users) ==> r == Err(Thrown(NotFound))
    ensures id in old(db.users) && UpdateBlocked(old(db.users), id, username, email) ==> r == Err(Thrown(Duplicate))
    ensures id in old(db.users) && !UpdateBlocked(old(db.users), id, username, email) && !HasUpdates(username, email, password) ==>
      r == Err(Engine(SyntaxError))
    ensures r.Err? ==> db.State() == old(db.State())
    ensures r.Ok? <==> id in old(db.users) && !UpdateBlocked(old(db.users), id, username, email) && HasUpdates(username, email, password)
    ensures r.Ok? ==>
      && r.value == Profile(id, OrElse(username, old(db.users)[id].username), OrElse(email, old(db.users)[id].email))
      && db.State() == old(db.State()).(users := old(db.users)[id := UpdatedUser(old(db.users)[id], username, email, password, hash)])
  {
    if id !in db.users {
      return Err(Thrown(NotFound));
    }
    var row := db.users[id];
    if Truthy(username) || Truthy(email) {
      var u, e := OrElse(username, row.username), OrElse(email, row.email);
      if exists i | i in db.users :: i != id && (db.users[i].username == u || db.users[i].email == e) {
        return Err(Thrown(Duplicate));
      }
    }
    if !HasUpdates(username, email, password) {
      return Err(Engine(SyntaxError));
    }
    var updated := UpdatedUser(row, username, email, password, hash);
    db.users := db.users[id := updated];
    r := Ok(Profile(id, updated.username, updated.email));
  }

  /** `deleteUser(id)`: no deleted row means 'User not found'; otherwise
      the user's memberships go with it. */
  method DeleteUser(db: Database, id: int) returns (r: Result<(), Failure>)
    requires db.Valid()
    modifies db
    ensures db.Valid()
    ensures r.Err? <==> id !in old(db.users)
    ensures r.Err? ==> r == Err(Thrown(NotFound)) && db.State() == old(db.State())
    ensures r.Ok? ==> db.State() == Schema.DeleteUser(old(db.State()), id)
  {
    if id !in db.users {
      return Err(Thrown(NotFound));
    }
    db.Commit(Schema.DeleteUser(db.State(), id));
    r := Ok(());
  }

  /** The fault of the single membership insert: a missing `groupId` is NULL
      in a NOT NULL column, an unknown one fails the foreign key. */
  function MembershipFault(groups: map<Id, Named>, groupId: Option<int>): (f: Option<EngineFault>)
    ensures f.None? <==> groupId.Some? && groupId.value in groups
    ensures groupId.None? ==> f == Some(NotNullViolated)
    ensures groupId.Some? && groupId.value !in groups ==> f == Some(ForeignKeyViolated)
  {
    if groupId.None? then Some(NotNullViolated) else InsertFault([groupId.value], groups)
  }

  /** `assignGroup(userId, groupId)`: inside one transaction the user's
      memberships are deleted and the one given group inserted; a failed
      insert rolls back. The service itself never looks the group up. */
  method AssignGroup(db: Database, userId: int, groupId: Option<int>) returns (r: Result<(), Failure>)
    requires db.Valid()
    modifies db
    ensures db.Valid()
    ensures userId !in old(db.users) ==> r == Err(Thrown(NotFound))
    ensures userId in old(db.users) && MembershipFault(old(db.groups), groupId).Some? ==>
      r == Err(Engine(MembershipFault(old(db.groups), groupId).value))
    ensures r.Err? ==> db.State() == old(db.State())
    ensures r.Ok? <==> userId in old(db.users) && MembershipFault(old(db.groups), groupId).None?
    ensures r.Ok? ==> db.State() == old(db.State()).(userGroups := Replace(old(db.userGroups), userId, {groupId.value}))
  {
    if userId !in db.users {
      return Err(Thrown(NotFound));
    }
    var fault := MembershipFault(db.groups, groupId);
    if fault.Some? {
      return Err(Engine(fault.value));
    }
    var g: Id := groupId.value;
    ReplaceWithin(db.userGroups, db.users, db.groups, userId, {g});
    db.userGroups := (set e | e in db.userGroups && e.0 != userId) + {(userId, g)};
    r := Ok(());
  }

  /** After a successful `assignGroup`, the user belongs to exactly that
      group and every other user's memberships are as before. */
  lemma AssignGroupExclusive(s: Store, u: Id, g: Id)
    ensures Targets(Replace(s.userGroups, u, {g}), u) == {g}
    ensures forall v, h | v != u :: (v, h) in Replace(s.userGroups, u, {g}) <==> (v, h) in s.userGroups
  {
  }
}
