/** `PermissionController`: the status and body each handler sends for the
    outcome of the matching `PermissionService` call. */
module PermissionController {
  import opened Common
  import opened Schema
  import opened Http
  import opened PermissionService

  /** `getPermissionById`: 404 when the service finds no row. */
  function PermissionByIdResponse(row: Option<(Permission, string)>): (r: Response<(Permission, string)>)
    ensures r.status == 404 <==> row.None?
    ensures row.None? ==> r.body == Message(NotFound)
    ensures row.Some? ==> r == Response(200, Entity(row.value))
  {
    if row.None? then Response(404, Message(NotFound)) else Response(200, Entity(row.value))
  }

  /** `createPermission`: 404 for a missing module, 400 for a duplicate pair,
      201 with the new row, 500 otherwise. */
  function CreatePermissionResponse(outcome: Result<Reply, Failure>): (r: Response<Reply>)
    ensures r.status == 201 <==> outcome.Ok?
    ensures outcome.Ok? ==> r.body == Announce("Permission created successfully", outcome.value)
    ensures r.status == 404 <==> outcome == Err(Thrown(ModuleNotFound))
    ensures r.status == 400 <==> outcome == Err(Thrown(Duplicate))
    ensures r.status == 500 <==> outcome.Err? && outcome.error != Thrown(ModuleNotFound) && outcome.error != Thrown(Duplicate)
    ensures r.status == 500 ==> r.body == Message("Error creating permission")
  {
    match outcome
    case Ok(p) => Response(201, Announce("Permission created successfully", p))
    case Err(f) => FailureReply(f, {ModuleNotFound}, {Duplicate}, "Error creating permission")
  }

  /** `updatePermission`: 404 for either not-found message, 400 for a
      duplicate pair, 500 otherwise. */
  function UpdatePermissionResponse(outcome: Result<Reply, Failure>): (r: Response<Reply>)
    ensures r.status == 200 <==> outcome.Ok?
    ensures outcome.Ok? ==> r.body == Announce("Permission updated successfully", outcome.value)
    ensures r.status == 404 <==> outcome == Err(Thrown(NotFound)) || outcome == Err(Thrown(ModuleNotFound))
    ensures r.status == 400 <==> outcome == Err(Thrown(Duplicate))
    ensures r.status == 404 || r.status == 400 ==> r.body == Message(outcome.error.message)
    ensures r.status == 500 ==> r.body == Message("Error updating permission")
  {
    match outcome
    case Ok(p) => Response(200, Announce("Permission updated successfully", p))
    case Err(f) => FailureReply(f, {NotFound, ModuleNotFound}, {Duplicate}, "Error updating permission")
  }

  /** `deletePermission`: 404 for a missing permission, 500 otherwise. */
  function DeletePermissionResponse(outcome: Result<(), Failure>): (r: Response<()>)
    ensures r.status == 200 <==> outcome.Ok?
    ensures outcome.Ok? ==> r.body == Message("Permission deleted successfully")
    ensures r.status == 404 <==> outcome == Err(Thrown(NotFound))
    ensures r.status == 500 <==> outcome.Err? && outcome != Err(Thrown(NotFound))
    ensures r.status == 500 ==> r.body == Message("Error deleting permission")
  {
    match outcome
    case Ok(_) => Response(200, Message("Permission deleted successfully"))
    case Err(f) => FailureReply(f, {NotFound}, {}, "Error deleting permission")
  }
}
