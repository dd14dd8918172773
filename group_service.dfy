/** `GroupService`: create, rename, delete groups and replace the roles a
    group grants. */
module GroupService {
  import opened Common
  import opened Schema
  import opened NamedTable
  import opened EdgeTable

  const NotFound := "Group not found"
  const Duplicate := "Group name already exists"

  /** `getGroupById(id)`: the row, or nothing. */
  function GroupById(s: Store, id: int): (g: Option<Named>)
    ensures g.Some? <==> id in s.groups
    ensures g.Some? ==> g.value == s.groups[id]
  {
    if id in s.groups then Some(s.groups[id]) else None
  }

  /** `createGroup({name, description})`. A missing name passes the lookup
      (NULL matches nothing) and is then refused by `name NOT NULL`. */
  method CreateGroup(db: Database, name: Option<string>, description: Option<string>) returns (r: Result<Reply, Failure>)
    requires db.Valid()
    modifies db
    ensures db.Valid()
    ensures NameTaken(old(db.groups), name, None) ==> r == Err(Thrown(Duplicate))
    ensures !NameTaken(old(db.groups), name, None) && name.None? ==> r == Err(Engine(NotNullViolated))
    ensures r.Err? ==> db.State() == old(db.State())
    ensures r.Ok? <==> !NameTaken(old(db.groups), name, None) && name.Some?
    ensures r.Ok? ==>
      && r.value == Reply(old(db.next.groupId), name.value, description)
      && db.State() == old(db.State()).(
           groups := old(db.groups)[r.value.id := Named(name.value, description)],
           next := old(db.next).(groupId := r.value.id + 1))
  {
    if name.Some? && exists i | i in db.groups :: db.groups[i].name == name.value {
      return Err(Thrown(Duplicate));
    }
    if name.None? {
      return Err(Engine(NotNullViolated));
    }
    var id := db.next.groupId;
    InsertKeepsUnique(db.groups, id, Named(name.value, description));
    db.groups := db.groups[id := Named(name.value, description)];
    db.next := db.next.(groupId := id + 1);
    r := Ok(Reply(id, name.value, description));
  }

  /** `updateGroup(id, {name, description})`: not-found first, then the
      name conflict against other groups only, then the partial update. */
  method UpdateGroup(db: Database, id: int, name: Option<string>, description: Input<Option<string>>)
    returns (r: Result<Reply, Failure>)
    requires db.Valid()
    modifies db
    ensures db.Valid()
    ensures id !in old(db.groups) ==> r == Err(Thrown(NotFound))
    ensures id in old(db.groups) && RenameBlocked(old(db.groups), id, name) ==> r == Err(Thrown(Duplicate))
    ensures id in old(db.groups) && !RenameBlocked(old(db.groups), id, name) && !HasUpdates(name, description) ==>
      r == Err(Engine(SyntaxError))
    ensures r.Err? ==> db.State() == old(db.State())
    ensures r.Ok? <==> id in old(db.groups) && !RenameBlocked(old(db.groups), id, name) && HasUpdates(name, description)
    ensures r.Ok? ==>
      && r.value == UpdateReply(id, old(db.groups)[id], name, description)
      && (!ClearsDescription(old(db.groups)[id], description) ==>
            r.value == EchoedReply(id, old(db.groups)[id], name, description))
      && db.State() == old(db.State()).(groups := old(db.groups)[id := Applied(old(db.groups)[id], name, description)])
  {
    if id !in db.groups {
      return Err(Thrown(NotFound));
    }
    if Truthy(name) && exists i | i in db.groups :: db.groups[i].name == name.value && i != id {
      return Err(Thrown(Duplicate));
    }
    if !HasUpdates(name, description) {
      return Err(Engine(SyntaxError));
    }
    var row := Applied(db.groups[id], name, description);
    UpdateKeepsUnique(db.groups, id, row);
    EchoedReplyFaithfulUnlessCleared(id, db.groups[id], name, description);
    r := Ok(UpdateReply(id, db.groups[id], name, description));
    db.groups := db.groups[id := row];
  }

  /** `deleteGroup(id)`: no deleted row means 'Group not found'; otherwise
      the group's memberships and role grants go with it. */
  method DeleteGroup(db: Database, id: int) returns (r: Result<(), Failure>)
    requires db.Valid()
    modifies db
    ensures db.Valid()
    ensures r.Err? <==> id !in old(db.groups)
    ensures r.Err? ==> r == Err(Thrown(NotFound)) && db.State() == old(db.State())
    ensures r.Ok? ==> db.State() == Schema.DeleteGroup(old(db.State()), id)
  {
    if id !in db.groups {
      return Err(Thrown(NotFound));
    }
    db.Commit(Schema.DeleteGroup(db.State(), id));
    r := Ok(());
  }

  /** `assignRoles(groupId, roleIds)`: inside one transaction the group's
      rows are deleted and one row per listed role inserted; a failed insert
      rolls the whole replacement back. */
  method AssignRoles(db: Database, groupId: int, roleIds: seq<int>) returns (r: Result<(), Failure>)
    requires db.Valid()
    modifies db
    ensures db.Valid()
    ensures groupId !in old(db.groups) ==> r == Err(Thrown(NotFound))
    ensures groupId in old(db.groups) && InsertFault(roleIds, old(db.roles)).Some? ==>
      r == Err(Engine(InsertFault(roleIds, old(db.roles)).value))
    ensures r.Err? ==> db.State() == old(db.State())
    ensures r.Ok? <==> groupId in old(db.groups) && InsertFault(roleIds, old(db.roles)).None?
    ensures r.Ok? ==> db.State() == old(db.State()).(groupRoles := Replace(old(db.groupRoles), groupId, IdSet(roleIds)))
  {
    if groupId !in db.groups {
      return Err(Thrown(NotFound));
    }
    var edges := set e | e in db.groupRoles && e.0 != groupId;
    var fault: Option<EngineFault> := None;
    var i := 0;
    while i < |roleIds|
      invariant 0 <= i <= |roleIds|
      invariant fault == InsertFault(roleIds[..i], db.roles)
      invariant fault.None? ==> edges == Replace(db.groupRoles, groupId, IdSet(roleIds[..i]))
    {
      var roleId := roleIds[i];
      assert roleIds[..i + 1][..i] == roleIds[..i];
      if roleId !in db.roles {
        if fault.None? { fault := Some(ForeignKeyViolated); }
      } else if (groupId, roleId) in edges {
        if fault.None? { fault := Some(UniqueViolated); }
      } else {
        edges := edges + {(groupId, roleId)};
      }
      i := i + 1;
    }
    assert roleIds[..i] == roleIds;
    if fault.Some? {
      return Err(Engine(fault.value));
    }
    ReplaceWithin(db.groupRoles, db.groups, db.roles, groupId, IdSet(roleIds));
    db.groupRoles := edges;
    r := Ok(());
  }

  /** `getGroupRoles(groupId)`: the role rows the group grants. */
  function GroupRoles(s: Store, groupId: Id): (rows: map<Id, Named>)
    ensures forall r :: r in rows <==> r in s.roles && (groupId, r) in s.groupRoles
    ensures forall r | r in rows :: rows[r] == s.roles[r]
  {
    map r | r in s.roles && (groupId, r) in s.groupRoles :: s.roles[r]
  }

  /** After a successful `assignRoles`, reading the group's roles back gives
      exactly the listed roles; an empty list leaves the group without roles. */
  lemma AssignThenRead(s: Store, groupId: Id, roleIds: seq<int>)
    requires InsertFault(roleIds, s.roles).None?
    ensures GroupRoles(s.(groupRoles := Replace(s.groupRoles, groupId, IdSet(roleIds))), groupId).Keys == IdSet(roleIds)
  {
  }
}
