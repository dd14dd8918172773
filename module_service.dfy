/** `ModuleService`: the module catalogue with its permission-list view,
    create, rename and delete. */
module ModuleService {
  import opened Common
  import opened Schema
  import opened NamedTable

  const NotFound := "Module not found"
  const Duplicate := "Module name already exists"

  /** The actions of the given permission rows, in the same order. */
  function ActionsOf(s: Store, rows: seq<Id>): (actions: seq<string>)
    requires forall i | 0 <= i < |rows| :: rows[i] in s.permissions
    ensures |actions| == |rows|
    ensures forall i | 0 <= i < |rows| :: actions[i] == s.permissions[rows[i]].action
  {
    if rows == [] then [] else [s.permissions[rows[0]].action] + ActionsOf(s, rows[1..])
  }

  /** `rows` lists, once each, the permissions of module `id`: the rows the
      `LEFT JOIN permissions` groups under the module, in the engine's order. */
  predicate PermissionRowsOf(s: Store, id: Id, rows: seq<Id>) {
    && Distinct(rows)
    && (forall i | 0 <= i < |rows| :: rows[i] in s.permissions && s.permissions[rows[i]].moduleId == id)
    && (forall p | p in s.permissions && s.permissions[p].moduleId == id :: p in rows)
  }

  /** The `permissions` field `getAllModules` reports for one module:
      `GROUP_CONCAT(p.action)` split again on commas. */
  function ListedActions(s: Store, id: Id, rows: seq<Id>): (actions: seq<string>)
    requires PermissionRowsOf(s, id, rows)
    ensures rows == [] ==> actions == []
    ensures (forall i | 0 <= i < |rows| :: ',' !in s.permissions[rows[i]].action) && ActionsOf(s, rows) != [""] ==>
      actions == ActionsOf(s, rows)
  {
    var values := ActionsOf(s, rows);
    assert (forall i | 0 <= i < |values| :: ',' !in values[i]) ==>
      ParseList(GroupConcat(values)) == (if values == [""] then [] else values) by {
      if forall i | 0 <= i < |values| :: ',' !in values[i] {
        ParseConcatenated(values);
      }
    }
    ParseList(GroupConcat(values))
  }

  /** `getModuleById(id)`: the row, or nothing. */
  function ModuleById(s: Store, id: int): (m: Option<Named>)
    ensures m.Some? <==> id in s.modules
    ensures m.Some? ==> m.value == s.modules[id]
  {
    if id in s.modules then Some(s.modules[id]) else None
  }

  /** `createModule({name, description})`. */
  method CreateModule(db: Database, name: Option<string>, description: Option<string>) returns (r: Result<Reply, Failure>)
    requires db.Valid()
    modifies db
    ensures db.Valid()
    ensures NameTaken(old(db.modules), name, None) ==> r == Err(Thrown(Duplicate))
    ensures !NameTaken(old(db.modules), name, None) && name.None? ==> r == Err(Engine(NotNullViolated))
    ensures r.Err? ==> db.State() == old(db.State())
    ensures r.Ok? <==> !NameTaken(old(db.modules), name, None) && name.Some?
    ensures r.Ok? ==>
      && r.value == Reply(old(db.next.moduleId), name.value, description)
      && db.State() == old(db.State()).(
           modules := old(db.modules)[r.value.id := Named(name.value, description)],
           next := old(db.next).(moduleId := r.value.id + 1))
  {
    if name.Some? && exists i | i in db.modules :: db.modules[i].name == name.value {
      return Err(Thrown(Duplicate));
    }
    if name.None? {
      return Err(Engine(NotNullViolated));
    }
    var id := db.next.moduleId;
    InsertKeepsUnique(db.modules, id, Named(name.value, description));
    db.modules := db.modules[id := Named(name.value, description)];
    db.next := db.next.(moduleId := id + 1);
    r := Ok(Reply(id, name.value, description));
  }

  /** `updateModule(id, {name, description})`: not-found first, then the
      name conflict against other modules only, then the partial update. */
  method UpdateModule(db: Database, id: int, name: Option<string>, description: Input<Option<string>>)
    returns (r: Result<Reply, Failure>)
    requires db.Valid()
    modifies db
    ensures db.Valid()
    ensures id !in old(db.modules) ==> r == Err(Thrown(NotFound))
    ensures id in old(db.modules) && RenameBlocked(old(db.modules), id, name) ==> r == Err(Thrown(Duplicate))
    ensures id in old(db.modules) && !RenameBlocked(old(db.modules), id, name) && !HasUpdates(name, description) ==>
      r == Err(Engine(SyntaxError))
    ensures r.Err? ==> db.State() == old(db.State())
    ensures r.Ok? <==> id in old(db.modules) && !RenameBlocked(old(db.modules), id, name) && HasUpdates(name, description)
    ensures r.Ok? ==>
      && r.value == UpdateReply(id, old(db.modules)[id], name, description)
      && (!ClearsDescription(old(db.modules)[id], description) ==>
            r.value == EchoedReply(id, old(db.modules)[id], name, description))
      && db.State() == old(db.State()).(modules := old(db.modules)[id := Applied(old(db.modules)[id], name, description)])
  {
    if id !in db.modules {
      return Err(Thrown(NotFound));
    }
    if Truthy(name) && exists i | i in db.modules :: db.modules[i].name == name.value && i != id {
      return Err(Thrown(Duplicate));
    }
    if !HasUpdates(name, description) {
      return Err(Engine(SyntaxError));
    }
    var row := Applied(db.modules[id], name, description);
    UpdateKeepsUnique(db.modules, id, row);
    EchoedReplyFaithfulUnlessCleared(id, db.modules[id], name, description);
    r := Ok(UpdateReply(id, db.modules[id], name, description));
    db.modules := db.modules[id := row];
  }

  /** `deleteModule(id)`: no such row means 'Module not found'; a module
      that permissions still reference is kept, because `module_id` has no
      ON DELETE clause and the foreign key refuses the delete. */
  method DeleteModule(db: Database, id: int) returns (r: Result<(), Failure>)
    requires db.Valid()
    modifies db
    ensures db.Valid()
    ensures id !in old(db.modules) ==> r == Err(Thrown(NotFound))
    ensures id in old(db.modules) && ModuleReferenced(old(db.State()), id) ==> r == Err(Engine(ForeignKeyViolated))
    ensures r.Err? ==> db.State() == old(db.State())
    ensures r.Ok? <==> id in old(db.modules) && !ModuleReferenced(old(db.State()), id)
    ensures r.Ok? ==> db.State() == old(db.State()).(modules := old(db.modules) - {id})
  {
    if id !in db.modules {
      return Err(Thrown(NotFound));
    }
    if exists p | p in db.permissions :: db.permissions[p].moduleId == id {
      return Err(Engine(ForeignKeyViolated));
    }
    db.Commit(Schema.DeleteModule(db.State(), id));
    r := Ok(());
  }

  /** `getModulePermissions(moduleId)`: the permission rows of the module. */
  function ModulePermissions(s: Store, moduleId: int): (rows: map<Id, Permission>)
    ensures forall p :: p in rows <==> p in s.permissions && s.permissions[p].moduleId == moduleId
    ensures forall p | p in rows :: rows[p] == s.permissions[p]
  {
    map p | p in s.permissions && s.permissions[p].moduleId == moduleId :: s.permissions[p]
  }

  /** A module can be deleted exactly when it lists no permissions. */
  lemma DeletableIffNoPermissions(s: Store, id: Id)
    ensures !ModuleReferenced(s, id) <==> ModulePermissions(s, id) == map[]
  {
    if ModuleReferenced(s, id) {
      var p :| p in s.permissions && s.permissions[p].moduleId == id;
      assert p in ModulePermissions(s, id);
    }
  }
}
