/** The client's `roles` slice: the roles list, the role open in a
    detail view, and the request status. */
module RolesSlice {
  import opened Common
  import opened ListOps

  // the default messages of the rejected cases
  const FetchRolesFailed := "Failed to fetch roles"
  const FetchRoleFailed := "Failed to fetch role"
  const CreateRoleFailed := "Failed to create role"
  const UpdateRoleFailed := "Failed to update role"
  const DeleteRoleFailed := "Failed to delete role"
  const AssignPermissionFailed := "Failed to assign permission to role"
  const RemovePermissionFailed := "Failed to remove permission from role"

  class RolesState {
    var roles: seq<Record>
    var selectedRole: Option<Record>
    var loading: bool
    var error: Option<string>

    /** `initialState`. */
    constructor ()
      ensures roles == [] && selectedRole == None && !loading && error == None
    {
      roles, selectedRole, loading, error := [], None, false, None;
    }

    /** `clearSelectedRole`: one field only. */
    method ClearSelectedRole()
      modifies this
      ensures selectedRole == None
      ensures roles == old(roles) && loading == old(loading) && error == old(error)
    {
      selectedRole := None;
    }

    /** `clearError`: one field only. */
    method ClearError()
      modifies this
      ensures error == None
      ensures roles == old(roles) && selectedRole == old(selectedRole) && loading == old(loading)
    {
      error := None;
    }

    /** Every `.pending` case. */
    method Pending()
      modifies this
      ensures loading && error == None
      ensures roles == old(roles) && selectedRole == old(selectedRole)
    {
      loading, error := true, None;
    }

    /** Every `.rejected` case, with that case's default message. */
    method Rejected(message: Option<string>, fallback: string)
      modifies this
      ensures !loading && error == Some(OrElse(message, fallback))
      ensures Truthy(message) ==> error == message
      ensures roles == old(roles) && selectedRole == old(selectedRole)
    {
      loading, error := false, Some(OrElse(message, fallback));
    }

    /** `fetchRoles.fulfilled`: the list is replaced. */
    method FetchRolesFulfilled(payload: seq<Record>)
      modifies this
      ensures !loading && roles == payload
      ensures selectedRole == old(selectedRole) && error == old(error)
    {
      loading, roles := false, payload;
    }

    /** `fetchRoleById.fulfilled`: the detail view shows the payload. */
    method FetchRoleByIdFulfilled(payload: Record)
      modifies this
      ensures !loading && selectedRole == Some(payload)
      ensures roles == old(roles) && error == old(error)
    {
      loading, selectedRole := false, Some(payload);
    }

    /** `createRole.fulfilled`: the payload is appended; earlier entries stay. */
    method CreateRoleFulfilled(payload: Record)
      modifies this
      ensures !loading && roles == old(roles) + [payload]
      ensures roles[..|old(roles)|] == old(roles) && roles[|old(roles)|] == payload
      ensures selectedRole == old(selectedRole) && error == old(error)
    {
      loading := false;
      roles := roles + [payload];
    }

    /** `updateRole.fulfilled`: the first entry with the payload's id is
        replaced (none: no change), and so is a matching selection. The server replies
        `{ message, role }`, without an `id`: that changes no listed role and
        replaces a null selection. */
    method UpdateRoleFulfilled(payload: Record)
      modifies this
      ensures !loading && roles == ReplaceFirst(old(roles), payload)
      ensures selectedRole == if Selects(old(selectedRole), payload.id) then Some(payload) else old(selectedRole)
      ensures error == old(error)
      ensures payload.id.None? && AllHaveIds(old(roles)) ==> roles == old(roles)
      ensures payload.id.None? && old(selectedRole).None? ==> selectedRole == Some(payload)
    {
      loading := false;
      var index := FindIndex(roles, payload.id);
      if index != -1 {
        roles := roles[index := payload];
      }
      if Selects(selectedRole, payload.id) {
        selectedRole := Some(payload);
      }
    }

    /** `deleteRole.fulfilled`: every entry with that id goes, the others
        keep their order, and a matching selection is cleared. */
    method DeleteRoleFulfilled(id: int)
      modifies this
      ensures !loading && roles == WithoutId(old(roles), Some(id))
      ensures forall k | 0 <= k < |roles| :: roles[k].id != Some(id)
      ensures selectedRole == if Selects(old(selectedRole), Some(id)) then None else old(selectedRole)
      ensures error == old(error)
    {
      loading := false;
      roles := WithoutId(roles, Some(id));
      assert forall k | 0 <= k < |roles| :: roles[k] in roles;
      if Selects(selectedRole, Some(id)) {
        selectedRole := None;
      }
    }

    /** `assignPermissionToRole.fulfilled`: only the selection changes, and
        only when the payload is the selected role. The server replies `{ message }`,
        without an `id`: that replaces a null selection. */
    method AssignPermissionToRoleFulfilled(payload: Record)
      modifies this
      ensures !loading
      ensures selectedRole == if Selects(old(selectedRole), payload.id) then Some(payload) else old(selectedRole)
      ensures roles == old(roles) && error == old(error)
      ensures payload.id.None? && old(selectedRole).None? ==> selectedRole == Some(payload)
    {
      loading := false;
      if Selects(selectedRole, payload.id) {
        selectedRole := Some(payload);
      }
    }

    /** `removePermissionFromRole.fulfilled`: the selected role's
        permissions lose that id when it is the role named; the list is untouched. */
    method RemovePermissionFromRoleFulfilled(roleId: int, permissionId: int)
      modifies this
      ensures !loading
      ensures Selects(old(selectedRole), Some(roleId)) ==>
        selectedRole == Some(old(selectedRole).value.(members := WithoutId(old(selectedRole).value.members, Some(permissionId))))
      ensures !Selects(old(selectedRole), Some(roleId)) ==> selectedRole == old(selectedRole)
      ensures roles == old(roles) && error == old(error)
    {
      loading := false;
      if Selects(selectedRole, Some(roleId)) {
        var current := selectedRole.value;
        selectedRole := Some(current.(members := WithoutId(current.members, Some(permissionId))));
      }
    }
  }
}
