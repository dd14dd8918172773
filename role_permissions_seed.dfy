/** `seedRolePermissions`: the Super Admin role is granted every permission. */
module RolePermissionsSeed {
  import opened Common
  import opened Schema

  const SuperAdmin := "Super Admin"
  const RoleMissing := "Super Admin role not found"
  const NoPermissions := "No permissions found"

  /** `s` with an edge from role `ra` to every permission, added the way
      `INSERT OR IGNORE` adds it: a pair already present stays once. */
  function GrantAll(s: Store, ra: Id): (t: Store)
    ensures forall e :: e in t.rolePermissions <==> e in s.rolePermissions || (e.0 == ra && e.1 in s.permissions)
    ensures t == s.(rolePermissions := t.rolePermissions)
    ensures Consistent(s) && ra in s.roles ==> Consistent(t)
  {
    s.(rolePermissions := s.rolePermissions + (set p | p in s.permissions :: (ra, p)))
  }

  /** Seeding twice adds nothing the first run did not. */
  lemma GrantAllIdempotent(s: Store, ra: Id)
    ensures GrantAll(GrantAll(s, ra), ra) == GrantAll(s, ra)
  {
  }

  /** The seed: find the role, refuse an empty permissions table, then one
      `INSERT OR IGNORE` per permission. */
  method SeedRolePermissions(db: Database) returns (r: Result<(), string>)
    requires db.Valid()
    modifies db
    ensures db.Valid()
    ensures FindByName(old(db.roles), SuperAdmin).None? ==> r == Err(RoleMissing)
    ensures FindByName(old(db.roles), SuperAdmin).Some? && old(db.permissions) == map[] ==> r == Err(NoPermissions)
    ensures r.Ok? <==> FindByName(old(db.roles), SuperAdmin).Some? && old(db.permissions) != map[]
    ensures r.Err? ==> db.State() == old(db.State())
    ensures r.Ok? ==> db.State() == GrantAll(old(db.State()), FindByName(old(db.roles), SuperAdmin).value)
  {
    var role := FindByName(db.roles, SuperAdmin);
    if role.None? {
      return Err(RoleMissing);
    }
    if db.permissions == map[] {
      return Err(NoPermissions);
    }
    var ra := role.value;
    ghost var s0 := db.State();
    var todo := db.permissions.Keys;
    while todo != {}
      invariant todo <= s0.permissions.Keys
      invariant db.State() == s0.(rolePermissions := s0.rolePermissions + (set p | p in s0.permissions && p !in todo :: (ra, p)))
      decreases todo
    {
      var p :| p in todo;
      db.rolePermissions := db.rolePermissions + {(ra, p)};
      todo := todo - {p};
    }
    assert (set p | p in s0.permissions && p !in todo :: (ra, p)) == (set p | p in s0.permissions :: (ra, p));
    r := Ok(());
  }
}
