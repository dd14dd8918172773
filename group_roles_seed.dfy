/** `seedGroupRoles`: the System Administrators group gets the Super Admin role. */
module GroupRolesSeed {
  import opened Common
  import opened Schema

  const SystemAdministrators := "System Administrators"
  const SuperAdmin := "Super Admin"
  const GroupMissing := "System Administrators group not found"
  const RoleMissing := "Super Admin role not found"

  /** Two lookups by name, then one `INSERT OR IGNORE` into group_roles. */
  method SeedGroupRoles(db: Database) returns (r: Result<(), string>)
    requires db.Valid()
    modifies db
    ensures db.Valid()
    ensures FindByName(old(db.groups), SystemAdministrators).None? ==> r == Err(GroupMissing)
    ensures FindByName(old(db.groups), SystemAdministrators).Some? && FindByName(old(db.roles), SuperAdmin).None? ==>
      r == Err(RoleMissing)
    ensures r.Ok? <==> FindByName(old(db.groups), SystemAdministrators).Some? && FindByName(old(db.roles), SuperAdmin).Some?
    ensures r.Err? ==> db.State() == old(db.State())
    ensures r.Ok? ==>
      var edge := (FindByName(old(db.groups), SystemAdministrators).value, FindByName(old(db.roles), SuperAdmin).value);
      && db.State() == old(db.State()).(groupRoles := old(db.groupRoles) + {edge})
      && (edge in old(db.groupRoles) ==> db.State() == old(db.State()))
  {
    var group := FindByName(db.groups, SystemAdministrators);
    if group.None? {
      return Err(GroupMissing);
    }
    var role := FindByName(db.roles, SuperAdmin);
    if role.None? {
      return Err(RoleMissing);
    }
    db.groupRoles := db.groupRoles + {(group.value, role.value)};
    r := Ok(());
  }
}
