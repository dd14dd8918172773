/** The client's `groups` slice: the groups list, the group open in a
    detail view, and the request status. */
module GroupsSlice {
  import opened Common
  import opened ListOps

  // the default messages of the rejected cases
  const FetchGroupsFailed := "Failed to fetch groups"
  const FetchGroupFailed := "Failed to fetch group"
  const CreateGroupFailed := "Failed to create group"
  const UpdateGroupFailed := "Failed to update group"
  const DeleteGroupFailed := "Failed to delete group"
  const AssignRoleFailed := "Failed to assign role to group"
  const RemoveRoleFailed := "Failed to remove role from group"

  class GroupsState {
    var groups: seq<Record>
    var selectedGroup: Option<Record>
    var loading: bool
    var error: Option<string>

    /** `initialState`. */
    constructor ()
      ensures groups == [] && selectedGroup == None && !loading && error == None
    {
      groups, selectedGroup, loading, error := [], None, false, None;
    }

    /** `clearSelectedGroup`: one field only. */
    method ClearSelectedGroup()
      modifies this
      ensures selectedGroup == None
      ensures groups == old(groups) && loading == old(loading) && error == old(error)
    {
      selectedGroup := None;
    }

    /** `clearError`: one field only. */
    method ClearError()
      modifies this
      ensures error == None
      ensures groups == old(groups) && selectedGroup == old(selectedGroup) && loading == old(loading)
    {
      error := None;
    }

    /** Every `.pending` case. */
    method Pending()
      modifies this
      ensures loading && error == None
      ensures groups == old(groups) && selectedGroup == old(selectedGroup)
    {
      loading, error := true, None;
    }

    /** Every `.rejected` case, with that case's default message. */
    method Rejected(message: Option<string>, fallback: string)
      modifies this
      ensures !loading && error == Some(OrElse(message, fallback))
      ensures Truthy(message) ==> error == message
      ensures groups == old(groups) && selectedGroup == old(selectedGroup)
    {
      loading, error := false, Some(OrElse(message, fallback));
    }

    /** `fetchGroups.fulfilled`: the list is replaced. */
    method FetchGroupsFulfilled(payload: seq<Record>)
      modifies this
      ensures !loading && groups == payload
      ensures selectedGroup == old(selectedGroup) && error == old(error)
    {
      loading, groups := false, payload;
    }

    /** `fetchGroupById.fulfilled`: the detail view shows the payload. */
    method FetchGroupByIdFulfilled(payload: Record)
      modifies this
      ensures !loading && selectedGroup == Some(payload)
      ensures groups == old(groups) && error == old(error)
    {
      loading, selectedGroup := false, Some(payload);
    }

    /** `createGroup.fulfilled`: the payload is appended; earlier entries stay. */
    method CreateGroupFulfilled(payload: Record)
      modifies this
      ensures !loading && groups == old(groups) + [payload]
      ensures groups[..|old(groups)|] == old(groups) && groups[|old(groups)|] == payload
      ensures selectedGroup == old(selectedGroup) && error == old(error)
    {
      loading := false;
      groups := groups + [payload];
    }

    /** `updateGroup.fulfilled`: the first entry with the payload's id is
        replaced (none: no change), and so is a matching selection. The server replies
        `{ message, group }`, without an `id`: that changes no listed group and
        replaces a null selection. */
    method UpdateGroupFulfilled(payload: Record)
      modifies this
      ensures !loading && groups == ReplaceFirst(old(groups), payload)
      ensures selectedGroup == if Selects(old(selectedGroup), payload.id) then Some(payload) else old(selectedGroup)
      ensures error == old(error)
      ensures payload.id.None? && AllHaveIds(old(groups)) ==> groups == old(groups)
      ensures payload.id.None? && old(selectedGroup).None? ==> selectedGroup == Some(payload)
    {
      loading := false;
      var index := FindIndex(groups, payload.id);
      if index != -1 {
        groups := groups[index := payload];
      }
      if Selects(selectedGroup, payload.id) {
        selectedGroup := Some(payload);
      }
    }

    /** `deleteGroup.fulfilled`: every entry with that id goes, the others
        keep their order, and a matching selection is cleared. */
    method DeleteGroupFulfilled(id: int)
      modifies this
      ensures !loading && groups == WithoutId(old(groups), Some(id))
      ensures forall k | 0 <= k < |groups| :: groups[k].id != Some(id)
      ensures selectedGroup == if Selects(old(selectedGroup), Some(id)) then None else old(selectedGroup)
      ensures error == old(error)
    {
      loading := false;
      groups := WithoutId(groups, Some(id));
      assert forall k | 0 <= k < |groups| :: groups[k] in groups;
      if Selects(selectedGroup, Some(id)) {
        selectedGroup := None;
      }
    }

    /** `assignRoleToGroup.fulfilled`: only the selection changes, and
        only when the payload is the selected group. The server replies `{ message }`,
        without an `id`: that replaces a null selection. */
    method AssignRoleToGroupFulfilled(payload: Record)
      modifies this
      ensures !loading
      ensures selectedGroup == if Selects(old(selectedGroup), payload.id) then Some(payload) else old(selectedGroup)
      ensures groups == old(groups) && error == old(error)
      ensures payload.id.None? && old(selectedGroup).None? ==> selectedGroup == Some(payload)
    {
      loading := false;
      if Selects(selectedGroup, payload.id) {
        selectedGroup := Some(payload);
      }
    }

    /** `removeRoleFromGroup.fulfilled`: the selected group's
        roles lose that id when it is the group named; the list is untouched. */
    method RemoveRoleFromGroupFulfilled(groupId: int, roleId: int)
      modifies this
      ensures !loading
      ensures Selects(old(selectedGroup), Some(groupId)) ==>
        selectedGroup == Some(old(selectedGroup).value.(members := WithoutId(old(selectedGroup).value.members, Some(roleId))))
      ensures !Selects(old(selectedGroup), Some(groupId)) ==> selectedGroup == old(selectedGroup)
      ensures groups == old(groups) && error == old(error)
    {
      loading := false;
      if Selects(selectedGroup, Some(groupId)) {
        var current := selectedGroup.value;
        selectedGroup := Some(current.(members := WithoutId(current.members, Some(roleId))));
      }
    }
  }
}
