/** `RoleService`: create, rename, delete roles and replace the permissions
    a role grants. */
module RoleService {
  import opened Common
  import opened Schema
  import opened NamedTable
  import opened EdgeTable

  const NotFound := "Role not found"
  const Duplicate := "Role name already exists"

  /** `getRoleById(id)`: the row, or nothing. */
  function RoleById(s: Store, id: int): (g: Option<Named>)
    ensures g.Some? <==> id in s.roles
    ensures g.Some? ==> g.value == s.roles[id]
  {
    if id in s.roles then Some(s.roles[id]) else None
  }

  /** `createRole({name, description})`. A missing name passes the lookup
      (NULL matches nothing) and is then refused by `name NOT NULL`. */
  method CreateRole(db: Database, name: Option<string>, description: Option<string>) returns (r: Result<Reply, Failure>)
    requires db.Valid()
    modifies db
    ensures db.Valid()
    ensures NameTaken(old(db.roles), name, None) ==> r == Err(Thrown(Duplicate))
    ensures !NameTaken(old(db.roles), name, None) && name.None? ==> r == Err(Engine(NotNullViolated))
    ensures r.Err? ==> db.State() == old(db.State())
    ensures r.Ok? <==> !NameTaken(old(db.roles), name, None) && name.Some?
    ensures r.Ok? ==>
      && r.value == Reply(old(db.next.roleId), name.value, description)
      && db.State() == old(db.State()).(
           roles := old(db.roles)[r.value.id := Named(name.value, description)],
           next := old(db.next).(roleId := r.value.id + 1))
  {
    if name.Some? && exists i | i in db.roles :: db.roles[i].name == name.value {
      return Err(Thrown(Duplicate));
    }
    if name.None? {
      return Err(Engine(NotNullViolated));
    }
    var id := db.next.roleId;
    InsertKeepsUnique(db.roles, id, Named(name.value, description));
    db.roles := db.roles[id := Named(name.value, description)];
    db.next := db.next.(roleId := id + 1);
    r := Ok(Reply(id, name.value, description));
  }

  /** `updateRole(id, {name, description})`: not-found first, then the
      name conflict against other roles only, then the partial update. */
  method UpdateRole(db: Database, id: int, name: Option<string>, description: Input<Option<string>>)
    returns (r: Result<Reply, Failure>)
    requires db.Valid()
    modifies db
    ensures db.Valid()
    ensures id !in old(db.roles) ==> r == Err(Thrown(NotFound))
    ensures id in old(db.roles) && RenameBlocked(old(db.roles), id, name) ==> r == Err(Thrown(Duplicate))
    ensures id in old(db.roles) && !RenameBlocked(old(db.roles), id, name) && !HasUpdates(name, description) ==>
      r == Err(Engine(SyntaxError))
    ensures r.Err? ==> db.State() == old(db.State())
    ensures r.Ok? <==> id in old(db.roles) && !RenameBlocked(old(db.roles), id, name) && HasUpdates(name, description)
    ensures r.Ok? ==>
      && r.value == UpdateReply(id, old(db.roles)[id], name, description)
      && (!ClearsDescription(old(db.roles)[id], description) ==>
            r.value == EchoedReply(id, old(db.roles)[id], name, description))
      && db.State() == old(db.State()).(roles := old(db.roles)[id := Applied(old(db.roles)[id], name, description)])
  {
    if id !in db.roles {
      return Err(Thrown(NotFound));
    }
    if Truthy(name) && exists i | i in db.roles :: db.roles[i].name == name.value && i != id {
      return Err(Thrown(Duplicate));
    }
    if !HasUpdates(name, description) {
      return Err(Engine(SyntaxError));
    }
    var row := Applied(db.roles[id], name, description);
    UpdateKeepsUnique(db.roles, id, row);
    EchoedReplyFaithfulUnlessCleared(id, db.roles[id], name, description);
    r := Ok(UpdateReply(id, db.roles[id], name, description));
    db.roles := db.roles[id := row];
  }

  /** `deleteRole(id)`: no deleted row means 'Role not found'; otherwise
      the groups' grants of the role and its permission grants go with it. */
  method DeleteRole(db: Database, id: int) returns (r: Result<(), Failure>)
    requires db.Valid()
    modifies db
    ensures db.Valid()
    ensures r.Err? <==> id !in old(db.roles)
    ensures r.Err? ==> r == Err(Thrown(NotFound)) && db.State() == old(db.State())
    ensures r.Ok? ==> db.State() == Schema.DeleteRole(old(db.State()), id)
  {
    if id !in db.roles {
      return Err(Thrown(NotFound));
    }
    db.Commit(Schema.DeleteRole(db.State(), id));
    r := Ok(());
  }

  /** `assignPermissions(roleId, permissionIds)`: inside one transaction the role's
      rows are deleted and one row per listed permission inserted; a failed insert
      rolls the whole replacement back. */
  method AssignPermissions(db: Database, roleId: int, permissionIds: seq<int>) returns (r: Result<(), Failure>)
    requires db.Valid()
    modifies db
    ensures db.Valid()
    ensures roleId !in old(db.roles) ==> r == Err(Thrown(NotFound))
    ensures roleId in old(db.roles) && InsertFault(permissionIds, old(db.permissions)).Some? ==>
      r == Err(Engine(InsertFault(permissionIds, old(db.permissions)).value))
    ensures r.Err? ==> db.State() == old(db.State())
    ensures r.Ok? <==> roleId in old(db.roles) && InsertFault(permissionIds, old(db.permissions)).None?
    ensures r.Ok? ==> db.State() == old(db.State()).(rolePermissions := Replace(old(db.rolePermissions), roleId, IdSet(permissionIds)))
  {
    if roleId !in db.roles {
      return Err(Thrown(NotFound));
    }
    var edges := set e | e in db.rolePermissions && e.0 != roleId;
    var fault: Option<EngineFault> := None;
    var i := 0;
    while i < |permissionIds|
      invariant 0 <= i <= |permissionIds|
      invariant fault == InsertFault(permissionIds[..i], db.permissions)
      invariant fault.None? ==> edges == Replace(db.rolePermissions, roleId, IdSet(permissionIds[..i]))
    {
      var permissionId := permissionIds[i];
      assert permissionIds[..i + 1][..i] == permissionIds[..i];
      if permissionId !in db.permissions {
        if fault.None? { fault := Some(ForeignKeyViolated); }
      } else if (roleId, permissionId) in edges {
        if fault.None? { fault := Some(UniqueViolated); }
      } else {
        edges := edges + {(roleId, permissionId)};
      }
      i := i + 1;
    }
    assert permissionIds[..i] == permissionIds;
    if fault.Some? {
      return Err(Engine(fault.value));
    }
    ReplaceWithin(db.rolePermissions, db.roles, db.permissions, roleId, IdSet(permissionIds));
    db.rolePermissions := edges;
    r := Ok(());
  }

  /** A `permissions` row as `getRolePermissions` returns it: `p.*` with the
      module's name. */
  datatype PermissionRow = PermissionRow(moduleId: Id, action: string, moduleName: string)

  /** `getRolePermissions(roleId)`: the permissions the role grants whose
      module row exists, each tagged with that module's name. */
  function RolePermissions(s: Store, roleId: Id): (rows: map<Id, PermissionRow>)
    ensures forall p :: p in rows <==>
      p in s.permissions && (roleId, p) in s.rolePermissions && s.permissions[p].moduleId in s.modules
    ensures forall p | p in rows ::
      && rows[p].moduleId == s.permissions[p].moduleId
      && rows[p].action == s.permissions[p].action
      && rows[p].moduleName == s.modules[s.permissions[p].moduleId].name
  {
    map p | p in s.permissions && (roleId, p) in s.rolePermissions && s.permissions[p].moduleId in s.modules
      :: PermissionRow(s.permissions[p].moduleId, s.permissions[p].action, s.modules[s.permissions[p].moduleId].name)
  }

  /** On a consistent database the module join drops nothing: every granted
      permission is listed. After a successful `assignPermissions`, reading
      back gives exactly the listed permissions. */
  lemma AssignThenRead(s: Store, roleId: Id, permissionIds: seq<int>)
    requires Consistent(s)
    requires InsertFault(permissionIds, s.permissions).None?
    ensures RolePermissions(s.(rolePermissions := Replace(s.rolePermissions, roleId, IdSet(permissionIds))), roleId).Keys
      == IdSet(permissionIds)
  {
    assert PermissionModulesExist(s.permissions, s.modules);
  }
}
