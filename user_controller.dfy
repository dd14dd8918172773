/** `UserController`: the status and body each handler sends for the
    outcome of the matching `UserService` call. */
module UserController {
  import opened Common
  import opened Schema
  import opened Http
  import opened UserService

  /** `getUserById`: 404 when the service finds no user. */
  function UserByIdResponse(p: Option<Profile>): (r: Response<Profile>)
    ensures r.status == 404 <==> p.None?
    ensures p.None? ==> r.body == Message("User not found")
    ensures p.Some? ==> r == Response(200, Entity(p.value))
  {
    if p.None? then Response(404, Message("User not found")) else Response(200, Entity(p.value))
  }

  /** `createUser`: 201 with the profile, 400 for a taken username or email,
      500 otherwise (a missing password or field included). */
  function CreateUserResponse(outcome: Result<Profile, Failure>): (r: Response<Profile>)
    ensures r.status == 201 <==> outcome.Ok?
    ensures outcome.Ok? ==> r.body == Announce("User created successfully", outcome.value)
    ensures r.status == 400 <==> outcome == Err(Thrown(Duplicate))
    ensures r.status == 500 <==> outcome.Err? && outcome != Err(Thrown(Duplicate))
    ensures r.status == 500 ==> r.body == Message("Error creating user")
  {
    match outcome
    case Ok(p) => Response(201, Announce("User created successfully", p))
    case Err(f) => FailureReply(f, {}, {Duplicate}, "Error creating user")
  }

  /** `updateUser`: 404 for a missing user, 400 for a taken username or
      email, 500 otherwise. */
  function UpdateUserResponse(outcome: Result<Profile, Failure>): (r: Response<Profile>)
    ensures r.status == 200 <==> outcome.Ok?
    ensures outcome.Ok? ==> r.body == Announce("User updated successfully", outcome.value)
    ensures r.status == 404 <==> outcome == Err(Thrown(NotFound))
    ensures r.status == 400 <==> outcome == Err(Thrown(Duplicate))
    ensures r.status == 500 <==> outcome.Err? && outcome.error != Thrown(NotFound) && outcome.error != Thrown(Duplicate)
    ensures r.status == 500 ==> r.body == Message("Error updating user")
  {
    match outcome
    case Ok(p) => Response(200, Announce("User updated successfully", p))
    case Err(f) => FailureReply(f, {NotFound}, {Duplicate}, "Error updating user")
  }

  /** `deleteUser`: 404 for a missing user, 500 for any other failure. */
  function DeleteUserResponse(outcome: Result<(), Failure>): (r: Response<()>)
    ensures r.status == 200 <==> outcome.Ok?
    ensures outcome.Ok? ==> r.body == Message("User deleted successfully")
    ensures r.status == 404 <==> outcome == Err(Thrown(NotFound))
    ensures r.status == 500 <==> outcome.Err? && outcome != Err(Thrown(NotFound))
    ensures r.status == 500 ==> r.body == Message("Error deleting user")
  {
    match outcome
    case Ok(_) => Response(200, Message("User deleted successfully"))
    case Err(f) => FailureReply(f, {NotFound}, {}, "Error deleting user")
  }

  /** `assignGroups`: the body's single `groupId` goes to the service; 404 for
      a missing user, 500 for any other failure. */
  function AssignGroupsResponse(outcome: Result<(), Failure>): (r: Response<()>)
    ensures r.status == 200 <==> outcome.Ok?
    ensures outcome.Ok? ==> r.body == Message("Groups assigned successfully")
    ensures r.status == 404 <==> outcome == Err(Thrown(NotFound))
    ensures r.status == 500 <==> outcome.Err? && outcome != Err(Thrown(NotFound))
    ensures r.status == 500 ==> r.body == Message("Error assigning groups")
  {
    match outcome
    case Ok(_) => Response(200, Message("Groups assigned successfully"))
    case Err(f) => FailureReply(f, {NotFound}, {}, "Error assigning groups")
  }
}
