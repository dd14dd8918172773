/** The client's `modules` slice: the modules list, the module open in a
    detail view, and the request status. */
module ModulesSlice {
  import opened Common
  import opened ListOps

  // the default messages of the rejected cases
  const FetchModulesFailed := "Failed to fetch modules"
  const FetchModuleFailed := "Failed to fetch module"
  const CreateModuleFailed := "Failed to create module"
  const UpdateModuleFailed := "Failed to update module"
  const DeleteModuleFailed := "Failed to delete module"

  class ModulesState {
    var modules: seq<Record>
    var selectedModule: Option<Record>
    var loading: bool
    var error: Option<string>

    /** `initialState`. */
    constructor ()
      ensures modules == [] && selectedModule == None && !loading && error == None
    {
      modules, selectedModule, loading, error := [], None, false, None;
    }

    /** `clearSelectedModule`: one field only. */
    method ClearSelectedModule()
      modifies this
      ensures selectedModule == None
      ensures modules == old(modules) && loading == old(loading) && error == old(error)
    {
      selectedModule := None;
    }

    /** `clearError`: one field only. */
    method ClearError()
      modifies this
      ensures error == None
      ensures modules == old(modules) && selectedModule == old(selectedModule) && loading == old(loading)
    {
      error := None;
    }

    /** Every `.pending` case. */
    method Pending()
      modifies this
      ensures loading && error == None
      ensures modules == old(modules) && selectedModule == old(selectedModule)
    {
      loading, error := true, None;
    }

    /** Every `.rejected` case, with that case's default message. */
    method Rejected(message: Option<string>, fallback: string)
      modifies this
      ensures !loading && error == Some(OrElse(message, fallback))
      ensures Truthy(message) ==> error == message
      ensures modules == old(modules) && selectedModule == old(selectedModule)
    {
      loading, error := false, Some(OrElse(message, fallback));
    }

    /** `fetchModules.fulfilled`: the list is replaced. */
    method FetchModulesFulfilled(payload: seq<Record>)
      modifies this
      ensures !loading && modules == payload
      ensures selectedModule == old(selectedModule) && error == old(error)
    {
      loading, modules := false, payload;
    }

    /** `fetchModuleById.fulfilled`: the detail view shows the payload. */
    method FetchModuleByIdFulfilled(payload: Record)
      modifies this
      ensures !loading && selectedModule == Some(payload)
      ensures modules == old(modules) && error == old(error)
    {
      loading, selectedModule := false, Some(payload);
    }

    /** `createModule.fulfilled`: the payload is appended; earlier entries stay. */
    method CreateModuleFulfilled(payload: Record)
      modifies this
      ensures !loading && modules == old(modules) + [payload]
      ensures modules[..|old(modules)|] == old(modules) && modules[|old(modules)|] == payload
      ensures selectedModule == old(selectedModule) && error == old(error)
    {
      loading := false;
      modules := modules + [payload];
    }

    /** `updateModule.fulfilled`: the first entry with the payload's id is
        replaced (none: no change), and so is a matching selection. The server replies
        `{ message, module }`, without an `id`: that changes no listed module and
        replaces a null selection. */
    method UpdateModuleFulfilled(payload: Record)
      modifies this
      ensures !loading && modules == ReplaceFirst(old(modules), payload)
      ensures selectedModule == if Selects(old(selectedModule), payload.id) then Some(payload) else old(selectedModule)
      ensures error == old(error)
      ensures payload.id.None? && AllHaveIds(old(modules)) ==> modules == old(modules)
      ensures payload.id.None? && old(selectedModule).None? ==> selectedModule == Some(payload)
    {
      loading := false;
      var index := FindIndex(modules, payload.id);
      if index != -1 {
        modules := modules[index := payload];
      }
      if Selects(selectedModule, payload.id) {
        selectedModule := Some(payload);
      }
    }

    /** `deleteModule.fulfilled`: every entry with that id goes, the others
        keep their order, and a matching selection is cleared. */
    method DeleteModuleFulfilled(id: int)
      modifies this
      ensures !loading && modules == WithoutId(old(modules), Some(id))
      ensures forall k | 0 <= k < |modules| :: modules[k].id != Some(id)
      ensures selectedModule == if Selects(old(selectedModule), Some(id)) then None else old(selectedModule)
      ensures error == old(error)
    {
      loading := false;
      modules := WithoutId(modules, Some(id));
      assert forall k | 0 <= k < |modules| :: modules[k] in modules;
      if Selects(selectedModule, Some(id)) {
        selectedModule := None;
      }
    }
  }
}
