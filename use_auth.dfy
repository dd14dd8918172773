/** The permission predicates of the client's `useAuth` hook, over the
    `{ module: [actions] }` map the server's resolver sends. */
module UseAuth {
  import opened Common
  import opened Schema
  import opened Resolver

  /** The stored permission map; `None` stands for a falsy value (null or
      undefined). An empty object is truthy and is `Some(map[])`. */
  type Permissions = Option<map<string, seq<string>>>

  /** `permissions[module]`, when both are truthy (an array, even an empty
      one, is truthy). */
  function Entry(permissions: Permissions, moduleName: string): (e: Option<seq<string>>)
    ensures e.Some? <==> permissions.Some? && moduleName in permissions.value
    ensures e.Some? ==> e.value == permissions.value[moduleName]
  {
    if permissions.Some? && moduleName in permissions.value then Some(permissions.value[moduleName]) else None
  }

  /** `checkPermission(module, action)`. */
  function CheckPermission(permissions: Permissions, moduleName: string, action: string): (b: bool)
    ensures b <==> Entry(permissions, moduleName).Some? && action in Entry(permissions, moduleName).value
  {
    match Entry(permissions, moduleName)
    case None => false
    case Some(list) => action in list
  }

  /** `actions.some(a => list.includes(a))`. */
  function SomeIncluded(actions: seq<string>, list: seq<string>): (b: bool)
    ensures b <==> exists i | 0 <= i < |actions| :: actions[i] in list
  {
    if actions == [] then false
    else
      var rest := SomeIncluded(actions[1..], list);
      assert forall i | 1 <= i < |actions| :: actions[i] == actions[1..][i - 1];
      actions[0] in list || rest
  }

  /** `actions.every(a => list.includes(a))`. */
  function EveryIncluded(actions: seq<string>, list: seq<string>): (b: bool)
    ensures b <==> forall i | 0 <= i < |actions| :: actions[i] in list
  {
    if actions == [] then true
    else
      var rest := EveryIncluded(actions[1..], list);
      assert forall i | 1 <= i < |actions| :: actions[i] == actions[1..][i - 1];
      actions[0] in list && rest
  }

  /** `hasAnyPermission(module, actions)`. */
  function HasAnyPermission(permissions: Permissions, moduleName: string, actions: seq<string>): (b: bool)
    ensures b <==> exists i | 0 <= i < |actions| :: CheckPermission(permissions, moduleName, actions[i])
    ensures actions == [] ==> !b
  {
    match Entry(permissions, moduleName)
    case None => false
    case Some(list) => SomeIncluded(actions, list)
  }

  /** `hasAllPermissions(module, actions)`: with an empty list it still
      demands an entry for the module. */
  function HasAllPermissions(permissions: Permissions, moduleName: string, actions: seq<string>): (b: bool)
    ensures b <==> Entry(permissions, moduleName).Some? && forall i | 0 <= i < |actions| :: CheckPermission(permissions, moduleName, actions[i])
    ensures actions == [] ==> (b <==> Entry(permissions, moduleName).Some?)
  {
    match Entry(permissions, moduleName)
    case None => false
    case Some(list) => EveryIncluded(actions, list)
  }

  /** `isAuthenticated: !!token`. */
  function IsAuthenticated(token: Option<string>): (b: bool)
    ensures b <==> token.Some? && token.value != ""
  {
    Truthy(token)
  }

  /** For one action the three predicates agree. */
  lemma SingleActionCoincides(permissions: Permissions, moduleName: string, action: string)
    ensures HasAnyPermission(permissions, moduleName, [action]) == CheckPermission(permissions, moduleName, action)
    ensures HasAllPermissions(permissions, moduleName, [action]) == CheckPermission(permissions, moduleName, action)
  {
    assert [action][0] == action;
  }

  /** Holding every action implies holding any of them, for a non-empty list. */
  lemma AllImpliesAny(permissions: Permissions, moduleName: string, actions: seq<string>)
    requires actions != []
    ensures HasAllPermissions(permissions, moduleName, actions) ==> HasAnyPermission(permissions, moduleName, actions)
  {
    if HasAllPermissions(permissions, moduleName, actions) {
      assert CheckPermission(permissions, moduleName, actions[0]);
    }
  }

  /** On a present map the check is plain membership. */
  lemma CheckOnMap(perms: map<string, seq<string>>, moduleName: string, action: string)
    ensures CheckPermission(Some(perms), moduleName, action) <==> moduleName in perms && action in perms[moduleName]
  {
  }

  /** With the map the server resolved for user `u`, the client's check
      holds exactly when a chain of edges grants the action. */
  lemma ClientMatchesChain(s: Store, u: Id, rows: seq<Grant>, moduleName: string, action: string)
    requires Enumerates(rows, Grants(s, u))
    ensures CheckPermission(Some(UserPermissions(s, u, rows)), moduleName, action) <==> Chain(s, u, moduleName, action)
  {
    CheckOnMap(UserPermissions(s, u, rows), moduleName, action);
  }

  /** On a consistent database it also answers what the server's
      single-pair check answers. */
  lemma ClientAgreesWithServer(s: Store, u: Id, rows: seq<Grant>, moduleName: string, action: string)
    requires Consistent(s)
    requires Enumerates(rows, Grants(s, u))
    ensures CheckPermission(Some(UserPermissions(s, u, rows)), moduleName, action) == Resolver.CheckPermission(s, u, moduleName, action)
  {
    CheckOnMap(UserPermissions(s, u, rows), moduleName, action);
    CheckAgreesWithResolver(s, u, rows, moduleName, action);
  }

  /** An empty map, as after `logout`, grants nothing. */
  lemma EmptyMapDeniesAll(moduleName: string, actions: seq<string>)
    ensures !CheckPermission(Some(map[]), moduleName, if actions == [] then "" else actions[0])
    ensures !HasAnyPermission(Some(map[]), moduleName, actions)
    ensures !HasAllPermissions(Some(map[]), moduleName, actions)
  {
  }
}
