/** The client's `users` slice: the users list, the user open in a
    detail view, and the request status. */
module UsersSlice {
  import opened Common
  import opened ListOps

  // the default messages of the rejected cases
  const FetchUsersFailed := "Failed to fetch users"
  const FetchUserFailed := "Failed to fetch user"
  const CreateUserFailed := "Failed to create user"
  const UpdateUserFailed := "Failed to update user"
  const DeleteUserFailed := "Failed to delete user"

  class UsersState {
    var users: seq<Record>
    var selectedUser: Option<Record>
    var loading: bool
    var error: Option<string>

    /** `initialState`. */
    constructor ()
      ensures users == [] && selectedUser == None && !loading && error == None
    {
      users, selectedUser, loading, error := [], None, false, None;
    }

    /** `clearSelectedUser`: one field only. */
    method ClearSelectedUser()
      modifies this
      ensures selectedUser == None
      ensures users == old(users) && loading == old(loading) && error == old(error)
    {
      selectedUser := None;
    }

    /** `clearError`: one field only. */
    method ClearError()
      modifies this
      ensures error == None
      ensures users == old(users) && selectedUser == old(selectedUser) && loading == old(loading)
    {
      error := None;
    }

    /** Every `.pending` case. */
    method Pending()
      modifies this
      ensures loading && error == None
      ensures users == old(users) && selectedUser == old(selectedUser)
    {
      loading, error := true, None;
    }

    /** Every `.rejected` case, with that case's default message. */
    method Rejected(message: Option<string>, fallback: string)
      modifies this
      ensures !loading && error == Some(OrElse(message, fallback))
      ensures Truthy(message) ==> error == message
      ensures users == old(users) && selectedUser == old(selectedUser)
    {
      loading, error := false, Some(OrElse(message, fallback));
    }

    /** `fetchUsers.fulfilled`: the list is replaced. */
    method FetchUsersFulfilled(payload: seq<Record>)
      modifies this
      ensures !loading && users == payload
      ensures selectedUser == old(selectedUser) && error == old(error)
    {
      loading, users := false, payload;
    }

    /** `fetchUserById.fulfilled`: the detail view shows the payload. */
    method FetchUserByIdFulfilled(payload: Record)
      modifies this
      ensures !loading && selectedUser == Some(payload)
      ensures users == old(users) && error == old(error)
    {
      loading, selectedUser := false, Some(payload);
    }

    /** `createUser.fulfilled`: the payload is appended; earlier entries stay. */
    method CreateUserFulfilled(payload: Record)
      modifies this
      ensures !loading && users == old(users) + [payload]
      ensures users[..|old(users)|] == old(users) && users[|old(users)|] == payload
      ensures selectedUser == old(selectedUser) && error == old(error)
    {
      loading := false;
      users := users + [payload];
    }

    /** `updateUser.fulfilled`: the first entry with the payload's id is
        replaced (none: no change), and so is a matching selection. The server replies
        `{ message, user }`, without an `id`: that changes no listed user and
        replaces a null selection. */
    method UpdateUserFulfilled(payload: Record)
      modifies this
      ensures !loading && users == ReplaceFirst(old(users), payload)
      ensures selectedUser == if Selects(old(selectedUser), payload.id) then Some(payload) else old(selectedUser)
      ensures error == old(error)
      ensures payload.id.None? && AllHaveIds(old(users)) ==> users == old(users)
      ensures payload.id.None? && old(selectedUser).None? ==> selectedUser == Some(payload)
    {
      loading := false;
      var index := FindIndex(users, payload.id);
      if index != -1 {
        users := users[index := payload];
      }
      if Selects(selectedUser, payload.id) {
        selectedUser := Some(payload);
      }
    }

    /** `deleteUser.fulfilled`: every entry with that id goes, the others
        keep their order, and a matching selection is cleared. */
    method DeleteUserFulfilled(id: int)
      modifies this
      ensures !loading && users == WithoutId(old(users), Some(id))
      ensures forall k | 0 <= k < |users| :: users[k].id != Some(id)
      ensures selectedUser == if Selects(old(selectedUser), Some(id)) then None else old(selectedUser)
      ensures error == old(error)
    {
      loading := false;
      users := WithoutId(users, Some(id));
      assert forall k | 0 <= k < |users| :: users[k] in users;
      if Selects(selectedUser, Some(id)) {
        selectedUser := None;
      }
    }
  }
}
