/** The relational state declared by `initDatabase`: five entity tables,
    three edge tables keyed by both ids, and the constraints (UNIQUE,
    composite PRIMARY KEY, FOREIGN KEY with or without ON DELETE CASCADE)
    that the engine enforces with foreign keys switched on. */
module Schema {
  import opened Common

  /** A `users` row; `password` holds the bcrypt hash, never the plain text. */
  datatype User = User(username: string, email: string, password: string)

  /** `SELECT id, username, email FROM users`: a user without the password. */
  datatype Profile = Profile(id: Id, username: string, email: string)

  /** A `groups`, `roles` or `modules` row: the three tables have the same shape. */
  datatype Named = Named(name: string, description: Option<string>)

  /** A `permissions` row. */
  datatype Permission = Permission(moduleId: Id, action: string)

  /** `(owner id, target id)`: a row of an edge table. */
  type Edge = (Id, Id)

  /** The next id each AUTOINCREMENT table hands out. */
  datatype Counters = Counters(userId: Id, groupId: Id, roleId: Id, moduleId: Id, permissionId: Id)

  /** A snapshot of the whole database. */
  datatype Store = Store(
    users: map<Id, User>,
    groups: map<Id, Named>,
    roles: map<Id, Named>,
    modules: map<Id, Named>,
    permissions: map<Id, Permission>,
    userGroups: set<Edge>,
    groupRoles: set<Edge>,
    rolePermissions: set<Edge>,
    next: Counters)

  const EmptyStore := Store(map[], map[], map[], map[], map[], {}, {}, {}, Counters(1, 1, 1, 1, 1))

  // ---- the constraints of the schema ----

  /** `username TEXT UNIQUE` and `email TEXT UNIQUE`. */
  predicate UsersUnique(users: map<Id, User>) {
    forall i, j | i in users && j in users && i != j ::
      users[i].username != users[j].username && users[i].email != users[j].email
  }

  /** `name TEXT UNIQUE` of groups, roles and modules. */
  predicate NamesUnique(t: map<Id, Named>) {
    forall i, j | i in t && j in t && i != j :: t[i].name != t[j].name
  }

  /** `UNIQUE(module_id, action)`. */
  predicate PermissionsUnique(p: map<Id, Permission>) {
    forall i, j | i in p && j in p && i != j :: p[i] != p[j]
  }

  /** `FOREIGN KEY (module_id) REFERENCES modules(id)`. */
  predicate PermissionModulesExist(p: map<Id, Permission>, modules: map<Id, Named>) {
    forall i | i in p :: p[i].moduleId in modules
  }

  /** Both foreign keys of an edge table. */
  predicate EdgesWithin<A, B>(edges: set<Edge>, owners: map<Id, A>, targets: map<Id, B>) {
    forall e | e in edges :: e.0 in owners && e.1 in targets
  }

  /** Every id in use is below the table's AUTOINCREMENT counter. */
  predicate Below<T>(t: map<Id, T>, next: Id) {
    forall i | i in t :: i < next
  }

  /** Every constraint of the schema. */
  predicate Consistent(s: Store) {
    && UsersUnique(s.users)
    && NamesUnique(s.groups)
    && NamesUnique(s.roles)
    && NamesUnique(s.modules)
    && PermissionsUnique(s.permissions)
    && PermissionModulesExist(s.permissions, s.modules)
    && EdgesWithin(s.userGroups, s.users, s.groups)
    && EdgesWithin(s.groupRoles, s.groups, s.roles)
    && EdgesWithin(s.rolePermissions, s.roles, s.permissions)
    && Below(s.users, s.next.userId)
    && Below(s.groups, s.next.groupId)
    && Below(s.roles, s.next.roleId)
    && Below(s.modules, s.next.moduleId)
    && Below(s.permissions, s.next.permissionId)
  }

  // ---- exact-match lookups shared by the services ----

  /** `SELECT * FROM t WHERE name = ? [AND id != ?]`; a NULL name matches nothing. */
  predicate NameTaken(t: map<Id, Named>, name: Option<string>, exclude: Option<Id>) {
    name.Some? && exists i | i in t :: t[i].name == name.value && Some(i) != exclude
  }

  /** `SELECT * FROM users WHERE (username = ? OR email = ?) [AND id != ?]`. */
  predicate UserTaken(users: map<Id, User>, username: Option<string>, email: Option<string>, exclude: Option<Id>) {
    exists i | i in users ::
      Some(i) != exclude
      && ((username.Some? && users[i].username == username.value)
          || (email.Some? && users[i].email == email.value))
  }

  /** `SELECT * FROM permissions WHERE module_id = ? AND action = ? [AND id != ?]`. */
  predicate PermissionTaken(p: map<Id, Permission>, moduleId: Id, action: string, exclude: Option<Id>) {
    exists i | i in p :: p[i] == Permission(moduleId, action) && Some(i) != exclude
  }

  /** Ids of the rows whose name is `name`. */
  function IdsNamed(t: map<Id, Named>, name: string): (ids: set<Id>)
    ensures forall i :: i in ids <==> i in t && t[i].name == name
  {
    set i | i in t && t[i].name == name
  }

  /** Under `name TEXT UNIQUE` a lookup by name finds at most one row. */
  lemma {:induction false} NamedAtMostOne(t: map<Id, Named>, name: string)
    requires NamesUnique(t)
    ensures |IdsNamed(t, name)| <= 1
  {
    var ids := IdsNamed(t, name);
    if ids != {} {
      var a :| a in ids;
      assert ids == {a};
    }
  }

  /** `db.get('SELECT id FROM t WHERE name = ?')`: the row with that name,
      of which the UNIQUE constraint allows at most one. */
  function FindByName(t: map<Id, Named>, name: string): (r: Option<Id>)
    requires NamesUnique(t)
    ensures r.None? <==> IdsNamed(t, name) == {}
    ensures r.Some? ==> IdsNamed(t, name) == {r.value}
  {
    if exists i | i in t :: t[i].name == name then
      var i :| i in t && t[i].name == name;
      Some(i)
    else None
  }

  /** `db.get('SELECT id FROM users WHERE email = ?')`. */
  function FindByEmail(users: map<Id, User>, email: string): (r: Option<Id>)
    requires UsersUnique(users)
    ensures r.None? <==> forall i | i in users :: users[i].email != email
    ensures r.Some? ==> r.value in users && users[r.value].email == email
    ensures r.Some? ==> forall i | i in users && users[i].email == email :: i == r.value
  {
    if exists i | i in users :: users[i].email == email then
      var i :| i in users && users[i].email == email;
      Some(i)
    else None
  }

  // ---- deletes and their cascades ----

  /** `DELETE FROM users WHERE id = ?`: user_groups rows cascade. */
  function DeleteUser(s: Store, id: Id): (t: Store)
    ensures Consistent(s) ==> Consistent(t)
    ensures forall e :: e in t.userGroups <==> e in s.userGroups && e.0 != id
  {
    s.(users := s.users - {id}, userGroups := (set e | e in s.userGroups && e.0 != id))
  }

  /** `DELETE FROM groups WHERE id = ?`: user_groups and group_roles rows cascade. */
  function DeleteGroup(s: Store, id: Id): (t: Store)
    ensures Consistent(s) ==> Consistent(t)
    ensures forall e :: e in t.userGroups <==> e in s.userGroups && e.1 != id
    ensures forall e :: e in t.groupRoles <==> e in s.groupRoles && e.0 != id
  {
    s.(groups := s.groups - {id},
       userGroups := (set e | e in s.userGroups && e.1 != id),
       groupRoles := (set e | e in s.groupRoles && e.0 != id))
  }

  /** `DELETE FROM roles WHERE id = ?`: group_roles and role_permissions rows cascade. */
  function DeleteRole(s: Store, id: Id): (t: Store)
    ensures Consistent(s) ==> Consistent(t)
    ensures forall e :: e in t.groupRoles <==> e in s.groupRoles && e.1 != id
    ensures forall e :: e in t.rolePermissions <==> e in s.rolePermissions && e.0 != id
  {
    s.(roles := s.roles - {id},
       groupRoles := (set e | e in s.groupRoles && e.1 != id),
       rolePermissions := (set e | e in s.rolePermissions && e.0 != id))
  }

  /** `DELETE FROM permissions WHERE id = ?`: role_permissions rows cascade. */
  function DeletePermission(s: Store, id: Id): (t: Store)
    ensures Consistent(s) ==> Consistent(t)
    ensures forall e :: e in t.rolePermissions <==> e in s.rolePermissions && e.1 != id
  {
    s.(permissions := s.permissions - {id},
       rolePermissions := (set e | e in s.rolePermissions && e.1 != id))
  }

  /** Whether a permission still references the module: `permissions.module_id`
      has no ON DELETE clause, so such a delete is refused. */
  predicate ModuleReferenced(s: Store, id: Id) {
    exists p | p in s.permissions :: s.permissions[p].moduleId == id
  }

  /** `DELETE FROM modules WHERE id = ?`, for a module no permission references. */
  function DeleteModule(s: Store, id: Id): (t: Store)
    requires !ModuleReferenced(s, id)
    ensures Consistent(s) ==> Consistent(t)
  {
    s.(modules := s.modules - {id})
  }

  /** The database connection: one field per table, changed in place by the
      services and seeds. */
  class Database {
    var users: map<Id, User>
    var groups: map<Id, Named>
    var roles: map<Id, Named>
    var modules: map<Id, Named>
    var permissions: map<Id, Permission>
    var userGroups: set<Edge>
    var groupRoles: set<Edge>
    var rolePermissions: set<Edge>
    var next: Counters

    /** The current contents as a value. */
    function State(): Store
      reads this
    {
      Store(users, groups, roles, modules, permissions, userGroups, groupRoles, rolePermissions, next)
    }

    predicate Valid()
      reads this
    {
      Consistent(State())
    }

    /** A fresh in-memory database after `initDatabase`: every table empty. */
    constructor ()
      ensures Valid() && State() == EmptyStore
    {
      users, groups, roles, modules, permissions := map[], map[], map[], map[], map[];
      userGroups, groupRoles, rolePermissions := {}, {}, {};
      next := Counters(1, 1, 1, 1, 1);
    }

    /** Replaces every table at once: how an atomic statement commits. */
    method Commit(s: Store)
      modifies this
      ensures State() == s
    {
      users, groups, roles, modules, permissions := s.users, s.groups, s.roles, s.modules, s.permissions;
      userGroups, groupRoles, rolePermissions := s.userGroups, s.groupRoles, s.rolePermissions;
      next := s.next;
    }
  }
}
