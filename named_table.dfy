/** The row-level logic that the group, role and module services share:
    the exact-name lookup, the partial update of a `{name, description}`
    row and the reply an update sends back. */
module NamedTable {
  import opened Common
  import opened Schema

  /** `SELECT * FROM t WHERE name = ? [AND id != ?]`: the rows that block
      `name`. */
  function Blocking(t: map<Id, Named>, name: Option<string>, exclude: Option<Id>): (ids: set<Id>)
    ensures forall i :: i in ids <==> i in t && name == Some(t[i].name) && Some(i) != exclude
    ensures ids != {} <==> NameTaken(t, name, exclude)
    ensures name.None? ==> ids == {}
  {
    set i | i in t && name == Some(t[i].name) && Some(i) != exclude
  }

  /** Under `name UNIQUE`, a row never blocks its own name when it is the
      excluded row: renaming a row to the name it has is allowed. */
  lemma OwnNameNotBlocked(t: map<Id, Named>, id: Id)
    requires NamesUnique(t)
    requires id in t
    ensures Blocking(t, Some(t[id].name), Some(id)) == {}
  {
  }

  /** An update's name check fails: the name is truthy (only then is it
      checked) and another row holds it. */
  predicate RenameBlocked(t: map<Id, Named>, id: Id, name: Option<string>) {
    Truthy(name) && NameTaken(t, name, Some(id))
  }

  /** The row after `UPDATE t SET name = ?, description = ?`, with `name`
      set only when truthy and `description` whenever it is not `undefined`. */
  function Applied(row: Named, name: Option<string>, description: Input<Option<string>>): (r: Named)
    ensures Truthy(name) ==> r.name == name.value
    ensures !Truthy(name) ==> r.name == row.name
    ensures description.Present? ==> r.description == description.value
    ensures description.Absent? ==> r.description == row.description
  {
    Named(if Truthy(name) then name.value else row.name,
          if description.Present? then description.value else row.description)
  }

  /** Whether the `updates` list is non-empty. With an empty list the
      statement reads `UPDATE t SET , updated_at = ...` and SQLite rejects it. */
  predicate HasUpdates(name: Option<string>, description: Input<Option<string>>) {
    Truthy(name) || description.Present?
  }

  /** With nothing to set, the update leaves the row as it was. */
  lemma NoUpdatesNoChange(row: Named, name: Option<string>, description: Input<Option<string>>)
    requires !HasUpdates(name, description)
    ensures Applied(row, name, description) == row
  {
  }

  /** The service's answer to a successful update. */
  datatype Reply = Reply(id: Id, name: string, description: Option<string>)

  /** The reply as the services compute it: `name || row.name` and
      `description || row.description`. */
  function EchoedReply(id: Id, row: Named, name: Option<string>, description: Input<Option<string>>): (r: Reply)
    ensures r.id == id && r.name == Applied(row, name, description).name
    ensures description.Present? && Truthy(description.value) ==> r.description == description.value
    ensures !(description.Present? && Truthy(description.value)) ==> r.description == row.description
  {
    Reply(id, OrElse(name, row.name),
          if description.Present? && Truthy(description.value) then description.value else row.description)
  }

  /** The reply describing the row as stored after the update. */
  function UpdateReply(id: Id, row: Named, name: Option<string>, description: Input<Option<string>>): (r: Reply)
    ensures r.id == id
    ensures Named(r.name, r.description) == Applied(row, name, description)
  {
    var stored := Applied(row, name, description);
    Reply(id, stored.name, stored.description)
  }

  /** The update sets the description to a falsy value (`null` or `""`)
      other than the one stored. */
  predicate ClearsDescription(row: Named, description: Input<Option<string>>) {
    description.Present? && !Truthy(description.value) && description.value != row.description
  }

  /** The echoed reply describes the stored row except when the update
      clears the description. */
  lemma EchoedReplyFaithfulUnlessCleared(id: Id, row: Named, name: Option<string>, description: Input<Option<string>>)
    ensures EchoedReply(id, row, name, description) == UpdateReply(id, row, name, description) <==>
      !ClearsDescription(row, description)
  {
  }

  /** A concrete update that clears the description: the database holds
      `null`, the echoed reply still shows the old text. */
  lemma ClearedDescriptionEchoedStale()
    ensures var row := Named("Editors", Some("can edit"));
      EchoedReply(1, row, None, Present(None)).description == Some("can edit")
      && Applied(row, None, Present(None)).description == None
  {
  }

  /** Inserting a row whose name nobody holds keeps names unique. */
  lemma InsertKeepsUnique(t: map<Id, Named>, id: Id, row: Named)
    requires NamesUnique(t)
    requires id !in t
    requires !NameTaken(t, Some(row.name), None)
    ensures NamesUnique(t[id := row])
  {
  }

  /** Renaming to a name no other row holds keeps names unique. */
  lemma UpdateKeepsUnique(t: map<Id, Named>, id: Id, row: Named)
    requires NamesUnique(t)
    requires id in t
    requires row.name == t[id].name || !NameTaken(t, Some(row.name), Some(id))
    ensures NamesUnique(t[id := row])
  {
  }
}
