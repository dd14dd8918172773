/** `verifySeeds`: the ordered existence checks on the seeded admin
    scenario, and the coverage check of the admin's role against every
    module crossed with every action. */
module VerifySeed {
  import opened Common
  import opened Schema
  import opened Resolver
  import opened PermissionsSeed
  import RolePermissionsSeed

  const AdminEmail := "admin@admin.com"
  const AdminMissing := "Admin user not found"
  const NoModules := "No modules found"
  const NoPermissions := "No permissions found"
  const NoGroup := "User-group relationship not found"
  const NoRole := "Group-role relationship not found"
  const NoRolePermissions := "Role-permission relationships not found"
  const SomeMissing := "Some permissions are missing"

  /** The four `(name, action)` pairs of one module, in seeding order. */
  function PairsOf(name: string): (ps: seq<Grant>)
    ensures |ps| == |Actions|
    ensures forall m, a :: (m, a) in ps <==> m == name && a in Actions
  {
    [(name, Actions[0]), (name, Actions[1]), (name, Actions[2]), (name, Actions[3])]
  }

  /** `modules.flatMap(module => actions.map(...))`: every module name
      crossed with every action. */
  function Expected(names: seq<string>): (e: seq<Grant>)
    ensures |e| == |Actions| * |names|
    ensures forall m, a :: (m, a) in e <==> m in names && a in Actions
  {
    if names == [] then []
    else
      var rest := Expected(names[1..]);
      assert forall m :: m in names <==> m == names[0] || m in names[1..];
      PairsOf(names[0]) + rest
  }

  /** `expected.filter(e => !actual.some(...))`: the expected pairs no row
      of the role matches, in their original order. */
  function Missing(expected: seq<Grant>, actual: set<Grant>): (miss: seq<Grant>)
    ensures forall g :: g in miss <==> g in expected && g !in actual
    ensures |miss| <= |expected|
  {
    if expected == [] then []
    else
      var rest := Missing(expected[1..], actual);
      assert forall g :: g in expected <==> g == expected[0] || g in expected[1..];
      (if expected[0] in actual then [] else [expected[0]]) + rest
  }

  /** The rows of the role-permission join for role `ro`, as
      `(module name, action)`. */
  function RoleGrants(s: Store, ro: Id): (gs: set<Grant>)
    ensures forall m, a :: (m, a) in gs <==> exists p: Id :: RoleHolds(s, ro, p, m, a)
  {
    var gs := set p | p in s.permissions && (ro, p) in s.rolePermissions && s.permissions[p].moduleId in s.modules
      :: (s.modules[s.permissions[p].moduleId].name, s.permissions[p].action);
    forall m, a ensures (m, a) in gs <==> exists p: Id :: RoleHolds(s, ro, p, m, a) {
      if exists p: Id :: RoleHolds(s, ro, p, m, a) {
        var p :| RoleHolds(s, ro, p, m, a);
        assert (s.modules[s.permissions[p].moduleId].name, s.permissions[p].action) in gs;
      }
      if (m, a) in gs {
        var p :| p in s.permissions && (ro, p) in s.rolePermissions && s.permissions[p].moduleId in s.modules
          && (m, a) == (s.modules[s.permissions[p].moduleId].name, s.permissions[p].action);
        assert RoleHolds(s, ro, p, m, a);
      }
    }
    gs
  }

  /** Role `ro` has an edge to permission `p`, which is action `a` on the
      module named `m`. */
  predicate RoleHolds(s: Store, ro: Id, p: Id, m: string, a: string) {
    && (ro, p) in s.rolePermissions
    && p in s.permissions
    && s.permissions[p].action == a
    && s.permissions[p].moduleId in s.modules
    && s.modules[s.permissions[p].moduleId].name == m
  }

  /** Role `ro` holds every action on every module. */
  predicate Complete(s: Store, ro: Id) {
    forall i, a | i in s.modules && a in Actions :: (s.modules[i].name, a) in RoleGrants(s, ro)
  }

  /** Nothing is missing exactly when the rows hold every expected pair. */
  lemma NothingMissingIff(names: seq<string>, actual: set<Grant>)
    ensures Missing(Expected(names), actual) == [] <==> forall m, a | m in names && a in Actions :: (m, a) in actual
  {
    var miss := Missing(Expected(names), actual);
    if miss != [] {
      var g := miss[0];
      assert g in miss;
      assert (g.0, g.1) in Expected(names) && (g.0, g.1) !in actual;
    }
  }

  predicate AdminGroup(s: Store, u: Id, g: Id) {
    (u, g) in s.userGroups && g in s.groups
  }

  predicate GroupRole(s: Store, g: Id, ro: Id) {
    (g, ro) in s.groupRoles && ro in s.roles
  }

  /** The checks pass as far as the role lookup: the admin exists and both
      the modules and permissions tables have rows. */
  predicate TablesSeeded(s: Store)
    requires UsersUnique(s.users)
  {
    FindByEmail(s.users, AdminEmail).Some? && s.modules != map[] && s.permissions != map[]
  }

  /** The seed check. Each `db.get` returns one row of possibly several: the
      group and the role inspected are an arbitrary one of the admin's, and
      only that one is checked. */
  method VerifySeeds(db: Database) returns (r: Result<(), string>)
    requires db.Valid()
    ensures FindByEmail(db.users, AdminEmail).None? ==> r == Err(AdminMissing)
    ensures FindByEmail(db.users, AdminEmail).Some? && db.modules == map[] ==> r == Err(NoModules)
    ensures FindByEmail(db.users, AdminEmail).Some? && db.modules != map[] && db.permissions == map[] ==> r == Err(NoPermissions)
    ensures TablesSeeded(db.State()) ==>
      var u := FindByEmail(db.users, AdminEmail).value;
      && ((forall g :: !AdminGroup(db.State(), u, g)) ==> r == Err(NoGroup))
      && (r == Err(NoRole) ==> exists g :: AdminGroup(db.State(), u, g) && forall ro :: !GroupRole(db.State(), g, ro))
      && (r == Err(NoRolePermissions) ==>
            exists g, ro :: AdminGroup(db.State(), u, g) && GroupRole(db.State(), g, ro) && RoleGrants(db.State(), ro) == {})
      && (r == Err(SomeMissing) ==>
            exists g, ro :: AdminGroup(db.State(), u, g) && GroupRole(db.State(), g, ro) && !Complete(db.State(), ro))
      && (r.Ok? ==> exists g, ro :: AdminGroup(db.State(), u, g) && GroupRole(db.State(), g, ro) && Complete(db.State(), ro))
      && ((exists g :: AdminGroup(db.State(), u, g))
          && (forall g | AdminGroup(db.State(), u, g) :: exists ro :: GroupRole(db.State(), g, ro))
          && (forall g, ro | AdminGroup(db.State(), u, g) && GroupRole(db.State(), g, ro) :: Complete(db.State(), ro)) ==>
            r.Ok?)
    ensures r.Ok? ==> TablesSeeded(db.State())
    ensures r.Err? ==> r.error in {AdminMissing, NoModules, NoPermissions, NoGroup, NoRole, NoRolePermissions, SomeMissing}
  {
    var admin := FindByEmail(db.users, AdminEmail);
    if admin.None? {
      return Err(AdminMissing);
    }
    var u := admin.value;
    if db.modules == map[] {
      return Err(NoModules);
    }
    if db.permissions == map[] {
      return Err(NoPermissions);
    }
    if !exists g | g in db.groups :: (u, g) in db.userGroups {
      return Err(NoGroup);
    }
    var g :| g in db.groups && (u, g) in db.userGroups;
    if !exists ro | ro in db.roles :: (g, ro) in db.groupRoles {
      assert AdminGroup(db.State(), u, g) && forall ro :: !GroupRole(db.State(), g, ro);
      return Err(NoRole);
    }
    var ro :| ro in db.roles && (g, ro) in db.groupRoles;
    assert AdminGroup(db.State(), u, g) && GroupRole(db.State(), g, ro);
    var actual := RoleGrants(db.State(), ro);
    if actual == {} {
      var i :| i in db.modules;
      assert !Complete(db.State(), ro) by {
        assert Actions[0] in Actions && (db.modules[i].name, Actions[0]) !in actual;
      }
      return Err(NoRolePermissions);
    }
    // `SELECT * FROM modules`: the module names, one per row.
    var names: seq<string> := [];
    var todo := db.modules.Keys;
    while todo != {}
      invariant todo <= db.modules.Keys
      invariant forall i | i in db.modules && i !in todo :: db.modules[i].name in names
      invariant forall k | 0 <= k < |names| :: exists i | i in db.modules :: db.modules[i].name == names[k]
      decreases todo
    {
      var i :| i in todo;
      names := names + [db.modules[i].name];
      todo := todo - {i};
    }
    NothingMissingIff(names, actual);
    var missing := Missing(Expected(names), actual);
    if missing != [] {
      assert !Complete(db.State(), ro);
      return Err(SomeMissing);
    }
    r := Ok(());
  }

  /** After `seedPermissions` and `seedRolePermissions`, the seeded role
      holds every module crossed with every action. */
  lemma {:induction false} SeededRoleComplete(s: Store, ra: Id)
    requires Consistent(s) && Covered(s) && ra in s.roles
    ensures Complete(RolePermissionsSeed.GrantAll(s, ra), ra)
  {
    var t := RolePermissionsSeed.GrantAll(s, ra);
    forall i, a | i in t.modules && a in Actions
      ensures (t.modules[i].name, a) in RoleGrants(t, ra)
    {
      assert PermissionTaken(s.permissions, i, a, None);
      var p :| p in s.permissions && s.permissions[p] == Permission(i, a);
      assert RoleHolds(t, ra, p, t.modules[i].name, a);
    }
  }

  /** A user in a group whose role is complete reaches every action on
      every module through the resolver. */
  lemma {:induction false} CompleteRoleGrantsEverything(s: Store, u: Id, g: Id, ro: Id)
    requires AdminGroup(s, u, g) && GroupRole(s, g, ro) && Complete(s, ro)
    ensures forall i, a | i in s.modules && a in Actions :: Chain(s, u, s.modules[i].name, a)
  {
    forall i, a | i in s.modules && a in Actions
      ensures Chain(s, u, s.modules[i].name, a)
    {
      assert (s.modules[i].name, a) in RoleGrants(s, ro);
      var p: Id :| RoleHolds(s, ro, p, s.modules[i].name, a);
      var e1, e2, e3 := (u, g), (g, ro), (ro, p);
      assert e1 in s.userGroups && e2 in s.groupRoles && e3 in s.rolePermissions;
    }
  }
}
