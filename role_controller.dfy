/** `RoleController`: the status and body each handler sends for the
    outcome of the matching `RoleService` call. */
module RoleController {
  import opened Common
  import opened Schema
  import opened Http
  import NamedTable
  import opened RoleService

  /** `getRoleById`: 404 when the service finds no row. */
  function RoleByIdResponse(row: Option<Named>): (r: Response<Named>)
    ensures r.status == 404 <==> row.None?
    ensures row.None? ==> r.body == Message("Role not found")
    ensures row.Some? ==> r == Response(200, Entity(row.value))
  {
    if row.None? then Response(404, Message("Role not found")) else Response(200, Entity(row.value))
  }

  /** `createRole`: 201 with the new row, 400 for a taken name, 500 otherwise. */
  function CreateRoleResponse(outcome: Result<NamedTable.Reply, Failure>): (r: Response<NamedTable.Reply>)
    ensures r.status == 201 <==> outcome.Ok?
    ensures outcome.Ok? ==> r.body == Announce("Role created successfully", outcome.value)
    ensures r.status == 400 <==> outcome == Err(Thrown(Duplicate))
    ensures r.status == 500 <==> outcome.Err? && outcome != Err(Thrown(Duplicate))
    ensures r.status == 500 ==> r.body == Message("Error creating role")
  {
    match outcome
    case Ok(row) => Response(201, Announce("Role created successfully", row))
    case Err(f) => FailureReply(f, {}, {Duplicate}, "Error creating role")
  }

  /** `updateRole`: 200 with the reply, 404 for a missing role, 400 for a
      taken name, 500 otherwise. */
  function UpdateRoleResponse(outcome: Result<NamedTable.Reply, Failure>): (r: Response<NamedTable.Reply>)
    ensures r.status == 200 <==> outcome.Ok?
    ensures outcome.Ok? ==> r.body == Announce("Role updated successfully", outcome.value)
    ensures r.status == 404 <==> outcome == Err(Thrown(NotFound))
    ensures r.status == 400 <==> outcome == Err(Thrown(Duplicate))
    ensures r.status == 500 <==> outcome.Err? && outcome.error != Thrown(NotFound) && outcome.error != Thrown(Duplicate)
    ensures r.status == 500 ==> r.body == Message("Error updating role")
  {
    match outcome
    case Ok(row) => Response(200, Announce("Role updated successfully", row))
    case Err(f) => FailureReply(f, {NotFound}, {Duplicate}, "Error updating role")
  }

  /** `deleteRole`: 404 for a missing role, 500 for any other failure. */
  function DeleteRoleResponse(outcome: Result<(), Failure>): (r: Response<()>)
    ensures r.status == 200 <==> outcome.Ok?
    ensures outcome.Ok? ==> r.body == Message("Role deleted successfully")
    ensures r.status == 404 <==> outcome == Err(Thrown(NotFound))
    ensures r.status == 500 <==> outcome.Err? && outcome != Err(Thrown(NotFound))
    ensures r.status == 500 ==> r.body == Message("Error deleting role")
  {
    match outcome
    case Ok(_) => Response(200, Message("Role deleted successfully"))
    case Err(f) => FailureReply(f, {NotFound}, {}, "Error deleting role")
  }

  /** `assignPermissions`: the body's `permissionIds` go to the service; 404 for a missing
      role, 500 for any other failure, a rolled-back insert included. */
  function AssignPermissionsResponse(outcome: Result<(), Failure>): (r: Response<()>)
    ensures r.status == 200 <==> outcome.Ok?
    ensures outcome.Ok? ==> r.body == Message("Permissions assigned successfully")
    ensures r.status == 404 <==> outcome == Err(Thrown(NotFound))
    ensures r.status == 500 <==> outcome.Err? && outcome != Err(Thrown(NotFound))
    ensures r.status == 500 ==> r.body == Message("Error assigning permissions")
  {
    match outcome
    case Ok(_) => Response(200, Message("Permissions assigned successfully"))
    case Err(f) => FailureReply(f, {NotFound}, {}, "Error assigning permissions")
  }
}
