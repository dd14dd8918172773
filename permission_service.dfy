/** `PermissionService`: create, update and delete the (module, action)
    rows that roles grant. */
module PermissionService {
  import opened Common
  import opened Schema

  const NotFound := "Permission not found"
  const ModuleNotFound := "Module not found"
  const Duplicate := "Permission already exists for this module and action"

  /** `{ id, module_id, action }` as create and update answer. */
  datatype Reply = Reply(id: Id, moduleId: Id, action: string)

  /** `getPermissionById(id)`: the row with its module's name; the join with
      `modules` drops a row whose module is gone. */
  function PermissionById(s: Store, id: int): (row: Option<(Permission, string)>)
    ensures row.Some? <==> id in s.permissions && s.permissions[id].moduleId in s.modules
    ensures row.Some? ==> row.value == (s.permissions[id], s.modules[s.permissions[id].moduleId].name)
  {
    if id in s.permissions && s.permissions[id].moduleId in s.modules then
      Some((s.permissions[id], s.modules[s.permissions[id].moduleId].name))
    else None
  }

  /** `checkModuleExists(moduleId)` answered with a row. */
  predicate ModuleFound(s: Store, moduleId: Option<int>) {
    moduleId.Some? && moduleId.value in s.modules
  }

  /** JavaScript truthiness of an optional number. */
  predicate TruthyId(v: Option<int>) {
    v.Some? && v.value != 0
  }

  /** `checkExistingPermission(module_id, action)` finds a row for an
      existing module and a given action. */
  predicate CreateDuplicate(s: Store, moduleId: Option<int>, action: Option<string>) {
    ModuleFound(s, moduleId) && action.Some? && PermissionTaken(s.permissions, moduleId.value, action.value, None)
  }

  /** `createPermission({module_id, action})`: the module check comes first,
      then the duplicate check, then the insert. */
  method CreatePermission(db: Database, moduleId: Option<int>, action: Option<string>) returns (r: Result<Reply, Failure>)
    requires db.Valid()
    modifies db
    ensures db.Valid()
    ensures !ModuleFound(old(db.State()), moduleId) ==> r == Err(Thrown(ModuleNotFound))
    ensures CreateDuplicate(old(db.State()), moduleId, action) ==> r == Err(Thrown(Duplicate))
    ensures ModuleFound(old(db.State()), moduleId) && action.None? ==> r == Err(Engine(NotNullViolated))
    ensures r.Err? ==> db.State() == old(db.State())
    ensures r.Ok? <==> ModuleFound(old(db.State()), moduleId) && action.Some? && !CreateDuplicate(old(db.State()), moduleId, action)
    ensures r.Ok? ==>
      && r.value == Reply(old(db.next.permissionId), moduleId.value, action.value)
      && db.State() == old(db.State()).(
           permissions := old(db.permissions)[r.value.id := Permission(r.value.moduleId, action.value)],
           next := old(db.next).(permissionId := r.value.id + 1))
  {
    if !(moduleId.Some? && moduleId.value in db.modules) {
      return Err(Thrown(ModuleNotFound));
    }
    var m: Id := moduleId.value;
    if action.Some? && exists i | i in db.permissions :: db.permissions[i] == Permission(m, action.value) {
      return Err(Thrown(Duplicate));
    }
    if action.None? {
      return Err(Engine(NotNullViolated));
    }
    var id := db.next.permissionId;
    db.permissions := db.permissions[id := Permission(m, action.value)];
    db.next := db.next.(permissionId := id + 1);
    r := Ok(Reply(id, m, action.value));
  }

  /** The pair an update would store: each supplied truthy field over the
      old value. */
  function Merged(row: Permission, moduleId: Option<int>, action: Option<string>): (p: Permission)
    requires TruthyId(moduleId) ==> moduleId.value >= 1
    ensures TruthyId(moduleId) ==> p.moduleId == moduleId.value
    ensures !TruthyId(moduleId) ==> p.moduleId == row.moduleId
    ensures p.action == OrElse(action, row.action)
  {
    Permission(if TruthyId(moduleId) then moduleId.value as Id else row.moduleId, OrElse(action, row.action))
  }

  /** `updatePermission(id, {module_id, action})`. */
  method UpdatePermission(db: Database, id: int, moduleId: Option<int>, action: Option<string>)
    returns (r: Result<Reply, Failure>)
    requires db.Valid()
    modifies db
    ensures db.Valid()
    ensures PermissionById(old(db.State()), id).None? ==> r == Err(Thrown(NotFound))
    ensures PermissionById(old(db.State()), id).Some? && TruthyId(moduleId) && moduleId.value !in old(db.modules) ==>
      r == Err(Thrown(ModuleNotFound))
    ensures r.Err? ==> db.State() == old(db.State())
    ensures r.Ok? ==>
      && id in old(db.permissions)
      && (TruthyId(moduleId) ==> moduleId.value in old(db.modules))
      && (TruthyId(moduleId) || Truthy(action))
      && var p := Merged(old(db.permissions)[id], moduleId, action);
         && !PermissionTaken(old(db.permissions), p.moduleId, p.action, Some(id))
         && r.value == Reply(id, p.moduleId, p.action)
         && db.State() == old(db.State()).(permissions := old(db.permissions)[id := p])
    ensures PermissionById(old(db.State()), id).Some? && (TruthyId(moduleId) ==> moduleId.value in old(db.modules)) ==>
      var p := Merged(old(db.permissions)[id], moduleId, action);
      (PermissionTaken(old(db.permissions), p.moduleId, p.action, Some(id)) ==> r == Err(Thrown(Duplicate)))
      && (!PermissionTaken(old(db.permissions), p.moduleId, p.action, Some(id)) && !(TruthyId(moduleId) || Truthy(action)) ==>
            r == Err(Engine(SyntaxError)))
      && (!PermissionTaken(old(db.permissions), p.moduleId, p.action, Some(id)) && (TruthyId(moduleId) || Truthy(action)) ==>
            r.Ok?)
  {
    if !(id in db.permissions && db.permissions[id].moduleId in db.modules) {
      return Err(Thrown(NotFound));
    }
    if TruthyId(moduleId) && moduleId.value !in db.modules {
      return Err(Thrown(ModuleNotFound));
    }
    var p := Merged(db.permissions[id], moduleId, action);
    if exists i | i in db.permissions :: db.permissions[i] == p && i != id {
      return Err(Thrown(Duplicate));
    }
    if !(TruthyId(moduleId) || Truthy(action)) {
      return Err(Engine(SyntaxError));
    }
    db.permissions := db.permissions[id := p];
    r := Ok(Reply(id, p.moduleId, p.action));
  }

  /** `deletePermission(id)`: no deleted row means 'Permission not found';
      otherwise the roles' grants of it go with it. */
  method DeletePermission(db: Database, id: int) returns (r: Result<(), Failure>)
    requires db.Valid()
    modifies db
    ensures db.Valid()
    ensures r.Err? <==> id !in old(db.permissions)
    ensures r.Err? ==> r == Err(Thrown(NotFound)) && db.State() == old(db.State())
    ensures r.Ok? ==> db.State() == Schema.DeletePermission(old(db.State()), id)
  {
    if id !in db.permissions {
      return Err(Thrown(NotFound));
    }
    db.Commit(Schema.DeletePermission(db.State(), id));
    r := Ok(());
  }
}
