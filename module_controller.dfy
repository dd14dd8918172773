/** `ModuleController`: the status and body each handler sends for the
    outcome of the matching `ModuleService` call. */
module ModuleController {
  import opened Common
  import opened Schema
  import opened Http
  import NamedTable
  import opened ModuleService

  /** `getModuleById`: 404 when the service finds no row. */
  function ModuleByIdResponse(row: Option<Named>): (r: Response<Named>)
    ensures r.status == 404 <==> row.None?
    ensures row.None? ==> r.body == Message("Module not found")
    ensures row.Some? ==> r == Response(200, Entity(row.value))
  {
    if row.None? then Response(404, Message("Module not found")) else Response(200, Entity(row.value))
  }

  /** `createModule`: 201 with the new row, 400 for a taken name, 500 otherwise. */
  function CreateModuleResponse(outcome: Result<NamedTable.Reply, Failure>): (r: Response<NamedTable.Reply>)
    ensures r.status == 201 <==> outcome.Ok?
    ensures outcome.Ok? ==> r.body == Announce("Module created successfully", outcome.value)
    ensures r.status == 400 <==> outcome == Err(Thrown(Duplicate))
    ensures r.status == 500 <==> outcome.Err? && outcome != Err(Thrown(Duplicate))
    ensures r.status == 500 ==> r.body == Message("Error creating module")
  {
    match outcome
    case Ok(row) => Response(201, Announce("Module created successfully", row))
    case Err(f) => FailureReply(f, {}, {Duplicate}, "Error creating module")
  }

  /** `updateModule`: 200 with the reply, 404 for a missing module, 400 for a
      taken name, 500 otherwise. */
  function UpdateModuleResponse(outcome: Result<NamedTable.Reply, Failure>): (r: Response<NamedTable.Reply>)
    ensures r.status == 200 <==> outcome.Ok?
    ensures outcome.Ok? ==> r.body == Announce("Module updated successfully", outcome.value)
    ensures r.status == 404 <==> outcome == Err(Thrown(NotFound))
    ensures r.status == 400 <==> outcome == Err(Thrown(Duplicate))
    ensures r.status == 500 <==> outcome.Err? && outcome.error != Thrown(NotFound) && outcome.error != Thrown(Duplicate)
    ensures r.status == 500 ==> r.body == Message("Error updating module")
  {
    match outcome
    case Ok(row) => Response(200, Announce("Module updated successfully", row))
    case Err(f) => FailureReply(f, {NotFound}, {Duplicate}, "Error updating module")
  }

  /** `deleteModule`: 404 for a missing module, 500 for any other failure. */
  function DeleteModuleResponse(outcome: Result<(), Failure>): (r: Response<()>)
    ensures r.status == 200 <==> outcome.Ok?
    ensures outcome.Ok? ==> r.body == Message("Module deleted successfully")
    ensures r.status == 404 <==> outcome == Err(Thrown(NotFound))
    ensures r.status == 500 <==> outcome.Err? && outcome != Err(Thrown(NotFound))
    ensures r.status == 500 ==> r.body == Message("Error deleting module")
  {
    match outcome
    case Ok(_) => Response(200, Message("Module deleted successfully"))
    case Err(f) => FailureReply(f, {NotFound}, {}, "Error deleting module")
  }
}
