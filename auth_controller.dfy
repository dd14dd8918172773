/** `AuthController`: replies for registration, login, the current user,
    the permission map and the simulated action. */
module AuthController {
  import opened Common
  import opened Schema
  import opened Http
  import opened Resolver
  import opened AuthService

  /** `register`: 201 with the token and user spread into the body, 400 for a
      taken username or email, 500 otherwise. */
  function RegisterResponse(outcome: Result<Session, Failure>): (r: Response<Session>)
    ensures r.status == 201 <==> outcome.Ok?
    ensures outcome.Ok? ==> r.body == Announce("User created successfully", outcome.value)
    ensures r.status == 400 <==> outcome == Err(Thrown(Duplicate))
    ensures r.status == 500 <==> outcome.Err? && outcome != Err(Thrown(Duplicate))
    ensures r.status == 500 ==> r.body == Message("Error registering user")
  {
    match outcome
    case Ok(session) => Response(201, Announce("User created successfully", session))
    case Err(f) => FailureReply(f, {}, {Duplicate}, "Error registering user")
  }

  /** `login`: 200 with the token and user, 401 only for 'Invalid
      credentials'; the two "required" messages fall through to 500. */
  function LoginResponse(outcome: Result<Session, Failure>): (r: Response<Session>)
    ensures r.status == 200 <==> outcome.Ok?
    ensures outcome.Ok? ==> r.body == Announce("Login successful", outcome.value)
    ensures r.status == 401 <==> outcome == Err(Thrown(InvalidCredentials))
    ensures r.status == 401 ==> r.body == Message(InvalidCredentials)
    ensures r.status == 500 <==> outcome.Err? && outcome != Err(Thrown(InvalidCredentials))
    ensures r.status == 500 ==> r.body == Message("Error logging in")
  {
    match outcome
    case Ok(session) => Response(200, Announce("Login successful", session))
    case Err(f) =>
      if f == Thrown(InvalidCredentials) then Response(401, Message(InvalidCredentials))
      else Response(500, Message("Error logging in"))
  }

  /** A login without a password is answered as a server error, not as a
      client error. */
  lemma MissingPasswordIsServerError()
    ensures LoginResponse(Err(Thrown(PasswordRequired))) == Response(500, Message("Error logging in"))
    ensures LoginResponse(Err(Thrown(IdentifierRequired))).status == 500
  {
  }

  /** `getCurrentUser`: the profile itself, or 404 'User not found'. */
  function CurrentUserResponse(s: Store, userId: int): (r: Response<Profile>)
    ensures r.status == 200 <==> userId in s.users
    ensures r.status == 200 ==> r.body.Entity? && r.body.value.id == userId
    ensures r.status == 200 ==> r.body.value.username == s.users[userId].username && r.body.value.email == s.users[userId].email
    ensures r.status != 200 ==> r == Response(404, Message(NotFound))
  {
    match CurrentUser(s, userId)
    case Ok(p) => Response(200, Entity(p))
    case Err(f) => FailureReply(f, {NotFound}, {}, "Error fetching current user")
  }

  /** `getUserPermissions`: the resolver's map. The service resolves with
      the envelope `{ permissions: map }`, which the controller sends
      unchanged; the body here is the map inside that envelope. */
  function UserPermissionsResponse(s: Store, u: Id, rows: seq<Grant>): (r: Response<map<string, seq<string>>>)
    requires Enumerates(rows, Grants(s, u))
    ensures r.status == 200 && r.body.Entity?
    ensures forall m, a :: (m in r.body.value && a in r.body.value[m]) <==> Chain(s, u, m, a)
  {
    Response(200, Entity(UserPermissions(s, u, rows)))
  }

  /** The body of `simulateAction`. */
  datatype Simulation = Simulation(success: bool, hasPermission: Option<bool>, message: string)

  /** The sentence `simulateAction` answers with. */
  function Verdict(hasPermission: bool, moduleName: string, action: string): string {
    if hasPermission then "You have permission to " + action + " on " + moduleName
    else "You do not have permission to " + action + " on " + moduleName
  }

  /** `simulateAction`: a falsy module or action is refused with 400 before
      any lookup; otherwise the permission check runs on the caller's id. */
  function SimulateAction(s: Store, userId: int, moduleName: Option<string>, action: Option<string>): (r: Response<Simulation>)
    ensures r.status == 400 <==> !Truthy(moduleName) || !Truthy(action)
    ensures r.status == 400 ==> r.body == Entity(Simulation(false, None, "Module and action are required"))
    ensures r.status != 400 ==> r.status == 200 && r.body.Entity?
    ensures r.status == 200 ==>
      var has := userId >= 1 && CheckPermission(s, userId, moduleName.value, action.value);
      r.body.value == Simulation(true, Some(has), Verdict(has, moduleName.value, action.value))
  {
    if !Truthy(moduleName) || !Truthy(action) then
      Response(400, Entity(Simulation(false, None, "Module and action are required")))
    else
      var has := userId >= 1 && CheckPermission(s, userId, moduleName.value, action.value);
      Response(200, Entity(Simulation(true, Some(has), Verdict(has, moduleName.value, action.value))))
  }

  /** On a consistent database the simulated answer is what the resolver
      lists for the user. */
  lemma SimulationAgreesWithResolver(s: Store, u: Id, rows: seq<Grant>, moduleName: string, action: string)
    requires Consistent(s)
    requires Enumerates(rows, Grants(s, u))
    requires moduleName != "" && action != ""
    ensures var perms := UserPermissions(s, u, rows);
      SimulateAction(s, u, Some(moduleName), Some(action)).body.value.hasPermission
        == Some(moduleName in perms && action in perms[moduleName])
  {
    CheckAgreesWithResolver(s, u, rows, moduleName, action);
  }

  /** The two verdict sentences differ, so the message alone tells the
      answer. */
  lemma VerdictTellsAnswer(moduleName: string, action: string)
    ensures Verdict(true, moduleName, action) != Verdict(false, moduleName, action)
  {
    var yes, no := Verdict(true, moduleName, action), Verdict(false, moduleName, action);
    assert yes[4] == 'h' && no[4] == 'd';
  }
}
