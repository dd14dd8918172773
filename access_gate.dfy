/** The `checkPermission(module, action)` middleware: a route fixes the
    required pair, and the handler decides for the authenticated user. */
module AccessGate {
  import opened Common
  import opened Schema
  import opened Resolver
  import opened TokenGate

  const ValidModules: seq<string> := ["user", "group", "role", "module", "permission"]
  const ValidActions: seq<string> := ["create", "read", "update", "delete"]

  /** The JSON body of a refusal. */
  datatype Body = Error(error: string) | Denied(error: string, moduleName: string, action: string)

  /** `next()` (`Allow`), or a reply sent with a status and a body. */
  datatype Decision = Allow | Respond(status: int, body: Body)

  /** `validateInput(module, action)`: `None` when it returns, otherwise the
      message of the error it throws. */
  function ValidateInput(moduleName: string, action: string): (thrown: Option<string>)
    ensures thrown.None? <==> moduleName in ValidModules && action in ValidActions
    ensures moduleName !in ValidModules ==> thrown == Some("Invalid module: " + moduleName)
    ensures moduleName in ValidModules && action !in ValidActions ==> thrown == Some("Invalid action: " + action)
  {
    if moduleName !in ValidModules then Some("Invalid module: " + moduleName)
    else if action !in ValidActions then Some("Invalid action: " + action)
    else None
  }

  /** `SELECT id FROM modules WHERE name = ?` found a row. */
  predicate ModuleExists(s: Store, moduleName: string) {
    exists i | i in s.modules :: s.modules[i].name == moduleName
  }

  /** The handler for the route's `(module, action)`. The primary query names
      a `user_roles` table the schema does not declare, so it always fails
      with "no such table" and the fallback query over groups and roles
      decides. */
  method Authorize(db: Database, req: Request, moduleName: string, action: string) returns (d: Decision)
    ensures ValidateInput(moduleName, action).Some? ==> d == Respond(500, Error("Internal server error"))
    ensures ValidateInput(moduleName, action).None? && (req.user.None? || req.user.value.id == 0) ==>
      d == Respond(401, Error("Authentication required"))
    ensures ValidateInput(moduleName, action).None? && req.user.Some? && req.user.value.id != 0 && !ModuleExists(db.State(), moduleName) ==>
      d == Respond(400, Error("Module '" + moduleName + "' does not exist"))
    ensures (ValidateInput(moduleName, action).None? && req.user.Some? && req.user.value.id != 0 && ModuleExists(db.State(), moduleName)
             && !(req.user.value.id >= 1 && Chain(db.State(), req.user.value.id, moduleName, action))) ==>
      d == Respond(403, Denied("Permission denied", moduleName, action))
    ensures d.Respond? && d.status == 403 ==> d == Respond(403, Denied("Permission denied", moduleName, action))
    ensures d == Allow <==>
      && ValidateInput(moduleName, action).None?
      && req.user.Some? && req.user.value.id >= 1
      && ModuleExists(db.State(), moduleName)
      && Chain(db.State(), req.user.value.id, moduleName, action)
  {
    if ValidateInput(moduleName, action).Some? {
      return Respond(500, Error("Internal server error"));
    }
    if req.user.None? || req.user.value.id == 0 {
      return Respond(401, Error("Authentication required"));
    }
    var uid := req.user.value.id;
    var moduleExists := exists i | i in db.modules :: db.modules[i].name == moduleName;
    if !moduleExists {
      return Respond(400, Error("Module '" + moduleName + "' does not exist"));
    }
    // user_groups holds only ids >= 1, so no other id reaches a row
    var hasPermission := uid >= 1 && (moduleName, action) in Grants(db.State(), uid);
    if !hasPermission {
      return Respond(403, Denied("Permission denied", moduleName, action));
    }
    return Allow;
  }

  /** A request the gate lets through also passes the authentication
      service's own single-pair check, on a consistent database. */
  lemma AllowedImpliesServiceCheck(s: Store, u: Id, moduleName: string, action: string)
    requires Consistent(s)
    requires Chain(s, u, moduleName, action)
    ensures CheckPermission(s, u, moduleName, action)
    ensures ModuleExists(s, moduleName)
  {
    var g: Id, r: Id, p: Id :| (u, g) in s.userGroups && (g, r) in s.groupRoles && r in s.roles
      && (r, p) in s.rolePermissions && p in s.permissions && s.permissions[p].action == action
      && s.permissions[p].moduleId in s.modules && s.modules[s.permissions[p].moduleId].name == moduleName;
    var mid := s.permissions[p].moduleId;
    assert mid in s.modules && s.modules[mid].name == moduleName;
    var e1, e2, e3 := (u, g), (g, r), (r, p);
    assert e1 in s.userGroups && e2 in s.groupRoles && e3 in s.rolePermissions;
  }
}
