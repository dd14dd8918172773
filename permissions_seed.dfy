/** `seedPermissions`: one CRUD permission per module, through
    `INSERT OR IGNORE`. */
module PermissionsSeed {
  import opened Common
  import opened Schema

  /** The four actions every module is seeded with, in seeding order. */
  const Actions: seq<string> := ["create", "read", "update", "delete"]

  /** Every module has a permission for each of the four actions. */
  predicate Covered(s: Store) {
    forall m, a | m in s.modules && a in Actions :: PermissionTaken(s.permissions, m, a, None)
  }

  /** `t` is `s` with permissions added: only the permissions table and its
      counter differ, every old row keeps its id and value, and every new
      row pairs an existing module with one of the four actions. */
  predicate Grows(s: Store, t: Store) {
    && t == s.(permissions := t.permissions, next := s.next.(permissionId := t.next.permissionId))
    && (forall i | i in s.permissions :: i in t.permissions && t.permissions[i] == s.permissions[i])
    && (forall i | i in t.permissions && i !in s.permissions :: t.permissions[i].moduleId in s.modules && t.permissions[i].action in Actions)
  }

  lemma GrowsTransitive(s1: Store, s2: Store, s3: Store)
    requires Grows(s1, s2) && Grows(s2, s3)
    ensures Grows(s1, s3)
  {
  }

  /** A permission present before an addition is still present after it. */
  lemma TakenPersists(s: Store, t: Store, m: Id, a: string)
    requires Grows(s, t)
    requires PermissionTaken(s.permissions, m, a, None)
    ensures PermissionTaken(t.permissions, m, a, None)
  {
    var i :| i in s.permissions && s.permissions[i] == Permission(m, a);
    assert i in t.permissions && t.permissions[i] == Permission(m, a);
  }

  /** One `stmt.run(module.id, action)`: the row is added under the next id
      unless the pair is already there, in which case nothing changes. */
  method InsertOrIgnore(db: Database, m: Id, a: string)
    requires db.Valid() && m in db.modules && a in Actions
    modifies db
    ensures db.Valid()
    ensures PermissionTaken(db.permissions, m, a, None)
    ensures Grows(old(db.State()), db.State())
    ensures PermissionTaken(old(db.permissions), m, a, None) ==> db.State() == old(db.State())
    ensures !PermissionTaken(old(db.permissions), m, a, None) ==>
      db.State() == old(db.State()).(
        permissions := old(db.permissions)[old(db.next.permissionId) := Permission(m, a)],
        next := old(db.next).(permissionId := old(db.next.permissionId) + 1))
  {
    if exists i | i in db.permissions :: db.permissions[i] == Permission(m, a) {
      return;
    }
    var id := db.next.permissionId;
    db.permissions := db.permissions[id := Permission(m, a)];
    db.next := db.next.(permissionId := id + 1);
    assert db.permissions[id] == Permission(m, a);
  }

  /** The seed: every module crossed with every action. Afterwards the
      permissions cover all modules, nothing else changed, and a database
      that was already covered is left exactly as it was. */
  method SeedPermissions(db: Database)
    requires db.Valid()
    modifies db
    ensures db.Valid()
    ensures Covered(db.State())
    ensures Grows(old(db.State()), db.State())
    ensures Covered(old(db.State())) ==> db.State() == old(db.State())
  {
    ghost var s0 := db.State();
    var todo := db.modules.Keys;
    while todo != {}
      invariant db.Valid()
      invariant Grows(s0, db.State())
      invariant todo <= db.modules.Keys
      invariant forall m, a | m in db.modules && m !in todo && a in Actions :: PermissionTaken(db.permissions, m, a, None)
      invariant Covered(s0) ==> db.State() == s0
      decreases todo
    {
      var m :| m in todo;
      for j := 0 to |Actions|
        invariant db.Valid()
        invariant Grows(s0, db.State())
        invariant forall m', a | m' in db.modules && m' !in todo && a in Actions :: PermissionTaken(db.permissions, m', a, None)
        invariant forall k | 0 <= k < j :: PermissionTaken(db.permissions, m, Actions[k], None)
        invariant Covered(s0) ==> db.State() == s0
      {
        ghost var before := db.State();
        InsertOrIgnore(db, m, Actions[j]);
        GrowsTransitive(s0, before, db.State());
        forall m', a | m' in db.modules && m' !in todo && a in Actions
          ensures PermissionTaken(db.permissions, m', a, None)
        {
          TakenPersists(before, db.State(), m', a);
        }
        forall k | 0 <= k < j
          ensures PermissionTaken(db.permissions, m, Actions[k], None)
        {
          TakenPersists(before, db.State(), m, Actions[k]);
        }
      }
      todo := todo - {m};
    }
  }
}
