/** `GroupController`: the status and body each handler sends for the
    outcome of the matching `GroupService` call. */
module GroupController {
  import opened Common
  import opened Schema
  import opened Http
  import NamedTable
  import opened GroupService

  /** `getGroupById`: 404 when the service finds no row. */
  function GroupByIdResponse(row: Option<Named>): (r: Response<Named>)
    ensures r.status == 404 <==> row.None?
    ensures row.None? ==> r.body == Message("Group not found")
    ensures row.Some? ==> r == Response(200, Entity(row.value))
  {
    if row.None? then Response(404, Message("Group not found")) else Response(200, Entity(row.value))
  }

  /** `createGroup`: 201 with the new row, 400 for a taken name, 500 otherwise. */
  function CreateGroupResponse(outcome: Result<NamedTable.Reply, Failure>): (r: Response<NamedTable.Reply>)
    ensures r.status == 201 <==> outcome.Ok?
    ensures outcome.Ok? ==> r.body == Announce("Group created successfully", outcome.value)
    ensures r.status == 400 <==> outcome == Err(Thrown(Duplicate))
    ensures r.status == 500 <==> outcome.Err? && outcome != Err(Thrown(Duplicate))
    ensures r.status == 500 ==> r.body == Message("Error creating group")
  {
    match outcome
    case Ok(row) => Response(201, Announce("Group created successfully", row))
    case Err(f) => FailureReply(f, {}, {Duplicate}, "Error creating group")
  }

  /** `updateGroup`: 200 with the reply, 404 for a missing group, 400 for a
      taken name, 500 otherwise. */
  function UpdateGroupResponse(outcome: Result<NamedTable.Reply, Failure>): (r: Response<NamedTable.Reply>)
    ensures r.status == 200 <==> outcome.Ok?
    ensures outcome.Ok? ==> r.body == Announce("Group updated successfully", outcome.value)
    ensures r.status == 404 <==> outcome == Err(Thrown(NotFound))
    ensures r.status == 400 <==> outcome == Err(Thrown(Duplicate))
    ensures r.status == 500 <==> outcome.Err? && outcome.error != Thrown(NotFound) && outcome.error != Thrown(Duplicate)
    ensures r.status == 500 ==> r.body == Message("Error updating group")
  {
    match outcome
    case Ok(row) => Response(200, Announce("Group updated successfully", row))
    case Err(f) => FailureReply(f, {NotFound}, {Duplicate}, "Error updating group")
  }

  /** `deleteGroup`: 404 for a missing group, 500 for any other failure. */
  function DeleteGroupResponse(outcome: Result<(), Failure>): (r: Response<()>)
    ensures r.status == 200 <==> outcome.Ok?
    ensures outcome.Ok? ==> r.body == Message("Group deleted successfully")
    ensures r.status == 404 <==> outcome == Err(Thrown(NotFound))
    ensures r.status == 500 <==> outcome.Err? && outcome != Err(Thrown(NotFound))
    ensures r.status == 500 ==> r.body == Message("Error deleting group")
  {
    match outcome
    case Ok(_) => Response(200, Message("Group deleted successfully"))
    case Err(f) => FailureReply(f, {NotFound}, {}, "Error deleting group")
  }

  /** `assignRoles`: the body's `roleIds` go to the service; 404 for a missing
      group, 500 for any other failure, a rolled-back insert included. */
  function AssignRolesResponse(outcome: Result<(), Failure>): (r: Response<()>)
    ensures r.status == 200 <==> outcome.Ok?
    ensures outcome.Ok? ==> r.body == Message("Roles assigned successfully")
    ensures r.status == 404 <==> outcome == Err(Thrown(NotFound))
    ensures r.status == 500 <==> outcome.Err? && outcome != Err(Thrown(NotFound))
    ensures r.status == 500 ==> r.body == Message("Error assigning roles")
  {
    match outcome
    case Ok(_) => Response(200, Message("Roles assigned successfully"))
    case Err(f) => FailureReply(f, {NotFound}, {}, "Error assigning roles")
  }
}
