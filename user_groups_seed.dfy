/** `seedUserGroups`: the admin user joins the System Administrators group. */
module UserGroupsSeed {
  import opened Common
  import opened Schema

  const AdminEmail := "admin@admin.com"
  const SystemAdministrators := "System Administrators"
  const AdminMissing := "Admin user not found"
  const GroupMissing := "System Administrators group not found"

  /** The admin is found by email, the group by name, then one
      `INSERT OR IGNORE` into user_groups. */
  method SeedUserGroups(db: Database) returns (r: Result<(), string>)
    requires db.Valid()
    modifies db
    ensures db.Valid()
    ensures FindByEmail(old(db.users), AdminEmail).None? ==> r == Err(AdminMissing)
    ensures FindByEmail(old(db.users), AdminEmail).Some? && FindByName(old(db.groups), SystemAdministrators).None? ==>
      r == Err(GroupMissing)
    ensures r.Ok? <==> FindByEmail(old(db.users), AdminEmail).Some? && FindByName(old(db.groups), SystemAdministrators).Some?
    ensures r.Err? ==> db.State() == old(db.State())
    ensures r.Ok? ==>
      var edge := (FindByEmail(old(db.users), AdminEmail).value, FindByName(old(db.groups), SystemAdministrators).value);
      && db.State() == old(db.State()).(userGroups := old(db.userGroups) + {edge})
      && (edge in old(db.userGroups) ==> db.State() == old(db.State()))
  {
    var user := FindByEmail(db.users, AdminEmail);
    if user.None? {
      return Err(AdminMissing);
    }
    var group := FindByName(db.groups, SystemAdministrators);
    if group.None? {
      return Err(GroupMissing);
    }
    db.userGroups := db.userGroups + {(user.value, group.value)};
    r := Ok(());
  }
}
