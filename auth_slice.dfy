/** The client's `auth` slice: the session token, the signed-in user, the
    permission map, and the request status. */
module AuthSlice {
  import opened Common
  import opened Schema
  import UseAuth

  const LoginFailed := "Login failed"
  const RegistrationFailed := "Registration failed"
  const PermissionsFailed := "Failed to fetch permissions"
  const NoToken := "No token available"

  /** The body of a successful login: `{ token, user }`. */
  datatype LoginPayload = LoginPayload(token: string, user: Profile)

  /** The `fetchPermissions` thunk's guard: without a token it rejects with
      'No token available' before any request; `None` means the request is
      made. */
  function FetchPermissionsGuard(token: Option<string>): (rejected: Option<string>)
    ensures rejected.Some? <==> !UseAuth.IsAuthenticated(token)
    ensures rejected.Some? ==> rejected.value == NoToken
  {
    if Truthy(token) then None else Some(NoToken)
  }

  class AuthState {
    var token: Option<string>
    var user: Option<Profile>
    var permissions: map<string, seq<string>>
    var loading: bool
    var error: Option<string>

    /** `initialState`, with `stored` the token kept in local storage. */
    constructor (stored: Option<string>)
      ensures token == stored && user == None && permissions == map[] && !loading && error == None
    {
      token, user, permissions, loading, error := stored, None, map[], false, None;
    }

    /** `logout`: the session is forgotten and every permission check fails. */
    method Logout()
      modifies this
      ensures token == None && user == None && permissions == map[]
      ensures loading == old(loading) && error == old(error)
      ensures !UseAuth.IsAuthenticated(token)
      ensures forall m, a :: !UseAuth.CheckPermission(Some(permissions), m, a)
    {
      token, user, permissions := None, None, map[];
    }

    /** `clearError`. */
    method ClearError()
      modifies this
      ensures error == None
      ensures token == old(token) && user == old(user) && permissions == old(permissions) && loading == old(loading)
    {
      error := None;
    }

    /** `login.pending` and `register.pending`: both clear the error. */
    method RequestPending()
      modifies this
      ensures loading && error == None
      ensures token == old(token) && user == old(user) && permissions == old(permissions)
    {
      loading, error := true, None;
    }

    /** `fetchPermissions.pending`: unlike the other two, it keeps the error. */
    method FetchPermissionsPending()
      modifies this
      ensures loading && error == old(error)
      ensures token == old(token) && user == old(user) && permissions == old(permissions)
    {
      loading := true;
    }

    /** `login.fulfilled`: token and user from the payload; the permission
      map is left for `fetchPermissions`. */
    method LoginFulfilled(payload: LoginPayload)
      modifies this
      ensures !loading && token == Some(payload.token) && user == Some(payload.user)
      ensures permissions == old(permissions) && error == old(error)
    {
      loading, token, user := false, Some(payload.token), Some(payload.user);
    }

    /** `register.fulfilled`: only the loading flag; registering does not sign in. */
    method RegisterFulfilled()
      modifies this
      ensures !loading
      ensures token == old(token) && user == old(user) && permissions == old(permissions) && error == old(error)
    {
      loading := false;
    }

    /** `fetchPermissions.fulfilled`: the map is replaced wholesale. */
    method FetchPermissionsFulfilled(payload: map<string, seq<string>>)
      modifies this
      ensures !loading && permissions == payload
      ensures token == old(token) && user == old(user) && error == old(error)
      ensures forall m, a :: UseAuth.CheckPermission(Some(permissions), m, a) <==> m in payload && a in payload[m]
    {
      loading, permissions := false, payload;
    }

    /** A rejected case: the payload's message, or the case's own default
      (`LoginFailed`, `RegistrationFailed` or `PermissionsFailed`). */
    method Rejected(message: Option<string>, fallback: string)
      modifies this
      ensures !loading && error == Some(OrElse(message, fallback))
      ensures Truthy(message) ==> error == message
      ensures token == old(token) && user == old(user) && permissions == old(permissions)
    {
      loading, error := false, Some(OrElse(message, fallback));
    }
  }
}
