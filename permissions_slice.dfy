/** The client's `permissions` slice: every permission, the permissions of
    the module being viewed, the permission open in a detail view, and the
    request status. */
module PermissionsSlice {
  import opened Common
  import opened ListOps

  // the default messages of the rejected cases
  const FetchPermissionsFailed := "Failed to fetch permissions"
  const FetchPermissionFailed := "Failed to fetch permission"
  const FetchModulePermissionsFailed := "Failed to fetch module permissions"
  const CreatePermissionFailed := "Failed to create permission"
  const UpdatePermissionFailed := "Failed to update permission"
  const DeletePermissionFailed := "Failed to delete permission"

  class PermissionsState {
    var permissions: seq<Record>
    var selectedPermission: Option<Record>
    var modulePermissions: seq<Record>
    var loading: bool
    var error: Option<string>

    /** `initialState`. */
    constructor ()
      ensures permissions == [] && selectedPermission == None && modulePermissions == []
      ensures !loading && error == None
    {
      permissions, selectedPermission, modulePermissions := [], None, [];
      loading, error := false, None;
    }

    /** `clearSelectedPermission`: one field only. */
    method ClearSelectedPermission()
      modifies this
      ensures selectedPermission == None
      ensures permissions == old(permissions) && modulePermissions == old(modulePermissions)
      ensures loading == old(loading) && error == old(error)
    {
      selectedPermission := None;
    }

    /** `clearModulePermissions`: one field only. */
    method ClearModulePermissions()
      modifies this
      ensures modulePermissions == []
      ensures permissions == old(permissions) && selectedPermission == old(selectedPermission)
      ensures loading == old(loading) && error == old(error)
    {
      modulePermissions := [];
    }

    /** `clearError`: one field only. */
    method ClearError()
      modifies this
      ensures error == None
      ensures permissions == old(permissions) && selectedPermission == old(selectedPermission)
      ensures modulePermissions == old(modulePermissions) && loading == old(loading)
    {
      error := None;
    }

    /** Every `.pending` case. */
    method Pending()
      modifies this
      ensures loading && error == None
      ensures permissions == old(permissions) && selectedPermission == old(selectedPermission)
      ensures modulePermissions == old(modulePermissions)
    {
      loading, error := true, None;
    }

    /** Every `.rejected` case, with that case's default message. */
    method Rejected(message: Option<string>, fallback: string)
      modifies this
      ensures !loading && error == Some(OrElse(message, fallback))
      ensures Truthy(message) ==> error == message
      ensures permissions == old(permissions) && selectedPermission == old(selectedPermission)
      ensures modulePermissions == old(modulePermissions)
    {
      loading, error := false, Some(OrElse(message, fallback));
    }

    /** `fetchPermissions.fulfilled`: the full list is replaced. */
    method FetchPermissionsFulfilled(payload: seq<Record>)
      modifies this
      ensures !loading && permissions == payload
      ensures selectedPermission == old(selectedPermission) && modulePermissions == old(modulePermissions)
      ensures error == old(error)
    {
      loading, permissions := false, payload;
    }

    /** `fetchPermissionById.fulfilled`. */
    method FetchPermissionByIdFulfilled(payload: Record)
      modifies this
      ensures !loading && selectedPermission == Some(payload)
      ensures permissions == old(permissions) && modulePermissions == old(modulePermissions)
      ensures error == old(error)
    {
      loading, selectedPermission := false, Some(payload);
    }

    /** `fetchPermissionsByModule.fulfilled`: only the module's list is replaced. */
    method FetchPermissionsByModuleFulfilled(payload: seq<Record>)
      modifies this
      ensures !loading && modulePermissions == payload
      ensures permissions == old(permissions) && selectedPermission == old(selectedPermission)
      ensures error == old(error)
    {
      loading, modulePermissions := false, payload;
    }

    /** `createPermission.fulfilled`: appended to the full list, and to the
        module's list only when that list is non-empty (whatever the new
        permission's module). */
    method CreatePermissionFulfilled(payload: Record)
      modifies this
      ensures !loading && permissions == old(permissions) + [payload]
      ensures |old(modulePermissions)| > 0 ==> modulePermissions == old(modulePermissions) + [payload]
      ensures |old(modulePermissions)| == 0 ==> modulePermissions == []
      ensures selectedPermission == old(selectedPermission) && error == old(error)
    {
      loading := false;
      permissions := permissions + [payload];
      if |modulePermissions| > 0 {
        modulePermissions := modulePermissions + [payload];
      }
    }

    /** `updatePermission.fulfilled`: the first match in the full list, every
        match in the module's list, and a matching selection. The server replies
        `{ message, permission }`, without an `id`: that changes no listed permission and
        replaces a null selection. */
    method UpdatePermissionFulfilled(payload: Record)
      modifies this
      ensures !loading
      ensures permissions == ReplaceFirst(old(permissions), payload)
      ensures modulePermissions == ReplaceAll(old(modulePermissions), payload)
      ensures selectedPermission == if Selects(old(selectedPermission), payload.id) then Some(payload) else old(selectedPermission)
      ensures error == old(error)
      ensures payload.id.None? && AllHaveIds(old(permissions)) ==> permissions == old(permissions)
      ensures payload.id.None? && AllHaveIds(old(modulePermissions)) ==> modulePermissions == old(modulePermissions)
      ensures payload.id.None? && old(selectedPermission).None? ==> selectedPermission == Some(payload)
    {
      loading := false;
      var index := FindIndex(permissions, payload.id);
      if index != -1 {
        permissions := permissions[index := payload];
      }
      if Selects(selectedPermission, payload.id) {
        selectedPermission := Some(payload);
      }
      modulePermissions := ReplaceAll(modulePermissions, payload);
    }

    /** `deletePermission.fulfilled`: the id leaves both lists and a
        matching selection is cleared. */
    method DeletePermissionFulfilled(id: int)
      modifies this
      ensures !loading
      ensures permissions == WithoutId(old(permissions), Some(id))
      ensures modulePermissions == WithoutId(old(modulePermissions), Some(id))
      ensures forall p | p in permissions + modulePermissions :: p.id != Some(id)
      ensures selectedPermission == if Selects(old(selectedPermission), Some(id)) then None else old(selectedPermission)
      ensures error == old(error)
    {
      loading := false;
      permissions := WithoutId(permissions, Some(id));
      modulePermissions := WithoutId(modulePermissions, Some(id));
      if Selects(selectedPermission, Some(id)) {
        selectedPermission := None;
      }
    }
  }
}
