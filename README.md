# IAM role-based access control, modelled in Dafny

The system is an identity and access management service. Users belong to
groups, groups carry roles, roles hold permissions, and a permission is one
action (`create`, `read`, `update`, `delete`) on one module. The server keeps
this graph in an SQLite database, resolves a user's effective permissions
through the chain user → group → role → permission → module, gates every
route with a `checkPermission(module, action)` middleware, and seeds an
administrator scenario at start-up. The browser client keeps the session
and the permission map in Redux slices and asks the `useAuth` hook whether
to show an action.

The model has four layers:

- **The database** (`Schema`). It has five entity tables, three edge tables and the
  constraints the schema declares. The constraints are unique names, unique e-mails and
  usernames, unique `(module_id, action)` pairs, foreign keys, and cascading
  deletes. `Schema.Database` is a class whose fields are the tables. The
  services and seeds change it in place. `Consistent` is the invariant that every
  state-changing method keeps.
- **The server logic.** This layer covers the resolver (`Resolver`), the two
  middlewares (`TokenGate`, `AccessGate`), the error handler (`ErrorMiddleware`) and the six
  services. Each service is written as methods on the database. Each method states its
  error cases in the source's order and its exact new state. The controllers are
  pure functions from a service outcome to an HTTP status and body (`Http`,
  `*Controller`).
- **The seeds.** These are the start-up scripts that fill in CRUD permissions,
  grant everything to the Super Admin role, link the admin scenario and verify
  it. They are loops over the table rows (`*Seed`).
- **The client.** This layer covers the permission predicates of `useAuth` (`UseAuth`) and the
  Redux slices, each a class whose fields are the slice state (`*Slice`).
  Their list updates are specified by `ListOps`.

The results proved about the model fall into six groups:
- **Resolver.** The map the resolver builds holds an action exactly when a chain of edges grants it. The server's single-pair check and the client's check both agree with it.
- **Schema and services.** Every service and seed keeps the schema constraints. Deletes cascade as declared.
- **Edge tables.** An `assign*` call replaces exactly the owner's edges. Reading them back gives the list.
- **Seeds.** The seeds give the admin role every module × action. The verify seed reports exactly the failing stage.
- **Client lists.** The client's reducers update, replace and filter by `id` with JavaScript's `===`, where a missing `id` is `undefined`. The server's create, update and assign replies wrap the entity as `{ message, <entity> }` or carry only `{ message }`. So an update changes no listed record and replaces a null selection, and a created entry can never be deleted by id.
- **String round trips.** `split`/`join` and `GROUP_CONCAT` round-trip for names without the separator.

## Model

| member | source | states |
|---|---|---|
| Common.OrElse | client/src/store/slices/authSlice.js:88 | `x \|\| fallback`: the value when it is a non-empty string, otherwise the fallback |
| Common.JoinSplit | server/src/middleware/auth.middleware.js:12 | joining the fields of a split with the separator gives the original string back |
| Common.SplitWithoutSeparator | server/src/middleware/auth.middleware.js:12 | a string without the separator splits into itself alone |
| Common.SplitAtSeparator | server/src/middleware/auth.middleware.js:12 | the first field of a split ends at the first separator |
| Common.SplitJoin | server/src/services/user.service.js:29-32 | joining separator-free parts and splitting again gives the parts back |
| Common.GroupConcat | server/src/services/user.service.js:15 | `GROUP_CONCAT` is NULL exactly for no rows; otherwise it splits back into the rows' values when none contains a comma |
| Common.ParseList | server/src/services/user.service.js:29-32 | `value ? value.split(',') : []`: a falsy column gives `[]`; otherwise the parts join back to the column |
| Common.ParseConcatenated | server/src/services/module.service.js:28-31 | a concatenated list of comma-free values parses back to the values, except that a lone empty value parses to `[]` |
| Schema.IdsNamed | server/src/config/db.js:31-55 | the ids whose row carries the name, both directions |
| Schema.NamedAtMostOne | server/src/config/db.js:33 | under `name UNIQUE` at most one row has a given name |
| Schema.FindByName | server/src/seed/role_permissions.seed.js:9 | the lookup by name finds nothing exactly when no row has the name, and otherwise the one row that has it |
| Schema.FindByEmail | server/src/seed/user_groups.seed.js:9 | the lookup by e-mail finds nothing exactly when no user has it, and otherwise the unique user that has it |
| Schema.DeleteUser | server/src/config/db.js:69-76 | deleting a user keeps the schema consistent, and its memberships (and only those) cascade away |
| Schema.DeleteGroup | server/src/config/db.js:69-86 | deleting a group keeps the schema consistent; its memberships and role grants cascade away |
| Schema.DeleteRole | server/src/config/db.js:79-96 | deleting a role keeps the schema consistent; its group grants and permission grants cascade away |
| Schema.DeletePermission | server/src/config/db.js:89-96 | deleting a permission keeps the schema consistent; the roles' grants of it cascade away |
| Schema.DeleteModule | server/src/config/db.js:58-66 | deleting a module that no permission references keeps the schema consistent |
| Schema.Database.constructor | server/src/config/db.js:14-28 | a fresh database is empty, consistent, and every counter starts at 1 |
| Schema.Database.Commit | server/src/config/db.js:14-96 | the database afterwards holds exactly the given snapshot |
| Resolver.UserRoles | server/src/services/auth.service.js:98-110 | a role is reached exactly when it exists and one of the user's groups grants it |
| Resolver.UserPermissionIds | server/src/services/auth.service.js:98-110 | a permission is reached exactly when it exists and one of the user's roles holds it |
| Resolver.Grants | server/src/services/auth.service.js:98-110 | the join's `(module, action)` rows are exactly the pairs some chain of edges grants |
| Resolver.ChainIsGranted | server/src/services/auth.service.js:98-110 | every chain of edges yields a row of the join |
| Resolver.GrantedIsChain | server/src/services/auth.service.js:98-110 | every row of the join comes from a chain of edges |
| Resolver.CheckPermission | server/src/services/auth.service.js:140-160 | on a consistent database the single-pair query holds exactly when the pair is among the resolver's rows, although it skips the `roles` join |
| Resolver.GroupByModule | server/src/services/auth.service.js:126-132 | the folded map has a key exactly for the modules of the rows, lists an action exactly when its row occurs, and has no empty list |
| Resolver.GroupByModuleDistinct | server/src/services/auth.service.js:126-132 | distinct rows fold into lists without repeated actions |
| Resolver.GroupByModuleAsWritten | server/src/services/auth.service.js:126-132 | the fold over a `{}` accumulator throws exactly when some row's module name is a member every object inherits |
| Resolver.AsWrittenAgreesWhenNoThrow | server/src/services/auth.service.js:126-132 | when the fold as written does not throw, it builds the intended grouping |
| Resolver.InheritedModuleNameThrows | server/src/services/auth.service.js:126-132 | a grant on a module named `constructor` makes the fold as written throw, while the intended grouping lists it |
| Resolver.UserPermissions | server/src/services/auth.service.js:95-138 | the permission map lists `a` under `m` exactly when a chain grants it, without repeats; with no grant it is `{}` |
| Resolver.CheckAgreesWithResolver | server/src/services/auth.service.js:95-160 | the single-pair check agrees with the map on a consistent database |
| Resolver.CheckMonotone | server/src/services/auth.service.js:140-160 | adding edges never withdraws a permission |
| Resolver.NoGroupsNoPermissions | server/src/services/auth.service.js:120-122 | a user in no group gets the empty map |
| TokenGate.Request.constructor | server/src/middleware/auth.middleware.js:5 | a request starts with its header and no user |
| TokenGate.BearerToken | server/src/middleware/auth.middleware.js:12 | a token is found exactly when the header's second space-separated field is non-empty; it contains no space |
| TokenGate.SplitFieldsHaveNoSeparator | server/src/middleware/auth.middleware.js:12 | no field of a split contains the separator |
| TokenGate.BearerTokenRoundTrip | server/src/middleware/auth.middleware.js:12 | the header `Bearer <token>` gives the token back, and any first word is accepted |
| TokenGate.VerifyToken | server/src/middleware/auth.middleware.js:5-31 | 401 'No token provided' without a token, 401 'Invalid token' when verification fails, otherwise the payload is attached and the chain continues |
| AccessGate.ValidateInput | server/src/middleware/checkPermission.middleware.js:22-31 | passes exactly for the five modules and four actions, naming the module first, then the action |
| AccessGate.Authorize | server/src/middleware/checkPermission.middleware.js:35-153 | 500 for an invalid route pair, 401 without a user id, 400 for an unknown module, 403 with the pair exactly when the module exists and no chain grants the pair; lets the request through exactly when a chain grants the pair |
| AccessGate.AllowedImpliesServiceCheck | server/src/middleware/checkPermission.middleware.js:98-117 | a request the gate admits also passes the service's single-pair check |
| ErrorMiddleware.HandleError | server/src/middleware/error.middleware.js:3-20 | 400 with the message for a validation error, 401 'Invalid token' for an unauthorized error, 500 'Internal server error' otherwise |
| ErrorMiddleware.StatusDependsOnlyOnName | server/src/middleware/error.middleware.js:6-19 | the status depends on the error's name alone |
| EdgeTable.Targets | server/src/services/group.service.js:158-175 | the targets of an owner are exactly the edges from it |
| EdgeTable.IdSet | server/src/services/group.service.js:130-142 | the row ids of a request list, both directions |
| EdgeTable.Replace | server/src/services/group.service.js:123-142 | after the replacement the owner's targets are exactly the list, and every other owner's edges are as before |
| EdgeTable.InsertFault | server/src/services/group.service.js:130-150 | the inserts succeed exactly when every target exists and none repeats; otherwise a foreign-key or primary-key fault |
| EdgeTable.CommittedAsWritten | server/src/services/group.service.js:122-153 | as written the transaction always commits: the owner is linked to exactly the listed targets that exist, other owners are untouched, and without a fault this is the intended replacement |
| EdgeTable.FailedInsertStillCommits | server/src/services/group.service.js:133-153 | assigning only an unknown role is a foreign-key fault, yet as written the group is left with no role |
| EdgeTable.ReplaceWithin | server/src/config/db.js:79-86 | a replacement whose targets exist keeps the edge table's foreign keys |
| EdgeTable.ReplaceIdempotent | server/src/services/group.service.js:114-156 | assigning the same list twice is assigning it once |
| NamedTable.Blocking | server/src/services/group.service.js:177-192 | the rows that block a name: another row with that name; none for a missing name |
| NamedTable.OwnNameNotBlocked | server/src/services/group.service.js:62-68 | a row never blocks the name it already has |
| NamedTable.Applied | server/src/services/group.service.js:70-80 | a truthy name replaces the old one; a supplied description (even null) replaces the old one |
| NamedTable.NoUpdatesNoChange | server/src/services/group.service.js:70-86 | with nothing to set the row is unchanged |
| NamedTable.EchoedReply | server/src/services/group.service.js:93 | the reply as written: `description \|\| old description` |
| NamedTable.UpdateReply | server/src/services/group.service.js:93 | the reply that describes the row as stored after the update |
| NamedTable.EchoedReplyFaithfulUnlessCleared | server/src/services/group.service.js:77-93 | the echoed reply differs from the stored row exactly when the description is cleared to a falsy value different from the old one |
| NamedTable.ClearedDescriptionEchoedStale | server/src/services/role.service.js:93 | clearing a description to null stores null but echoes the old text |
| NamedTable.InsertKeepsUnique | server/src/config/db.js:31-55 | inserting a row under a free name keeps names unique |
| NamedTable.UpdateKeepsUnique | server/src/config/db.js:31-55 | renaming to a name no other row holds keeps names unique |
| GroupService.GroupById | server/src/services/group.service.js:17-27 | the group row exactly when the id exists |
| GroupService.CreateGroup | server/src/services/group.service.js:29-51 | 'Group name already exists' for a taken name, a NOT NULL fault for no name, otherwise the row is inserted under the next id; consistency is kept, and a failure changes nothing |
| GroupService.UpdateGroup | server/src/services/group.service.js:53-97 | 'Group not found', then a name taken by another group, then the empty-SET syntax error; otherwise the row is partially updated; consistency is kept; the reply equals the source's `description || old description` echo unless the description is cleared |
| GroupService.DeleteGroup | server/src/services/group.service.js:99-112 | 'Group not found' exactly when absent; otherwise the cascading delete |
| GroupService.AssignRoles | server/src/services/group.service.js:114-156 | 'Group not found', or the first insert fault with nothing changed; otherwise the group's roles become exactly the listed ones |
| GroupService.GroupRoles | server/src/services/group.service.js:158-175 | the role rows the group grants, both directions |
| GroupService.AssignThenRead | server/src/services/group.service.js:114-175 | reading the roles back after an assignment gives exactly the listed roles |
| RoleService.RoleById | server/src/services/role.service.js:17-27 | the role row exactly when the id exists |
| RoleService.CreateRole | server/src/services/role.service.js:29-51 | 'Role name already exists', a NOT NULL fault for no name, otherwise the insert; consistency kept |
| RoleService.UpdateRole | server/src/services/role.service.js:53-97 | 'Role not found', then a taken name, then the empty-SET syntax error; otherwise the partial update; the reply equals the source's `description || old description` echo unless the description is cleared |
| RoleService.DeleteRole | server/src/services/role.service.js:99-112 | 'Role not found' exactly when absent; otherwise the cascading delete |
| RoleService.AssignPermissions | server/src/services/role.service.js:114-156 | 'Role not found', or the first insert fault with nothing changed; otherwise the role's permissions become exactly the listed ones |
| RoleService.RolePermissions | server/src/services/role.service.js:158-176 | the permissions the role holds whose module exists, each with its module's name |
| RoleService.AssignThenRead | server/src/services/role.service.js:114-176 | on a consistent database reading back after an assignment gives exactly the listed permissions |
| ModuleService.ActionsOf | server/src/services/module.service.js:15 | the actions of the rows, in order |
| ModuleService.ListedActions | server/src/services/module.service.js:5-35 | a module's `permissions` field: `[]` without permissions, and its actions when they contain no comma |
| ModuleService.ModuleById | server/src/services/module.service.js:37-47 | the module row exactly when the id exists |
| ModuleService.CreateModule | server/src/services/module.service.js:49-71 | 'Module name already exists', a NOT NULL fault for no name, otherwise the insert; consistency kept |
| ModuleService.UpdateModule | server/src/services/module.service.js:73-121 | 'Module not found', a taken name, the empty-SET syntax error, otherwise the partial update; the reply equals the source's `description || old description` echo unless the description is cleared |
| ModuleService.DeleteModule | server/src/services/module.service.js:123-136 | 'Module not found'; a foreign-key fault while permissions reference it; otherwise only the module row goes |
| ModuleService.ModulePermissions | server/src/services/module.service.js:138-154 | the permission rows of the module, both directions |
| ModuleService.DeletableIffNoPermissions | server/src/services/module.service.js:123-154 | a module can be deleted exactly when it lists no permissions |
| PermissionService.PermissionById | server/src/services/permission.service.js:23-40 | the row with its module's name, exactly when both rows exist |
| PermissionService.CreatePermission | server/src/services/permission.service.js:42-70 | 'Module not found', then 'Permission already exists...', then a NOT NULL fault, otherwise the insert; consistency kept |
| PermissionService.Merged | server/src/services/permission.service.js:88-94 | the pair an update stores: truthy fields over the old ones |
| PermissionService.UpdatePermission | server/src/services/permission.service.js:72-130 | 'Permission not found', 'Module not found', a duplicate pair, the empty-SET syntax error, otherwise the merged row is stored |
| PermissionService.DeletePermission | server/src/services/permission.service.js:132-145 | 'Permission not found' exactly when absent; otherwise the cascading delete |
| UserService.NamesOf | server/src/services/user.service.js:15 | the names of the group rows, in order |
| UserService.ListedGroups | server/src/services/user.service.js:6-36 | a user's `groups` field: `[]` without groups, and the group names when they contain no comma |
| UserService.ListedGroupsAreMemberships | server/src/services/user.service.js:6-36 | on a consistent database the listed groups are exactly the user's memberships |
| UserService.UserById | server/src/services/user.service.js:38-48 | the profile without the password, exactly when the id exists |
| UserService.CreateUser | server/src/services/user.service.js:50-75 | 'Username or email already exists', the hashing fault for no password, a NOT NULL fault, otherwise the user is inserted with the hashed password |
| UserService.UpdatedUser | server/src/services/user.service.js:101-112 | truthy fields replace the old ones, and a new password is stored hashed |
| UserService.UpdateUser | server/src/services/user.service.js:77-131 | 'User not found', a clash with another user on the new-or-old pair, the empty-SET syntax error, otherwise the updated row |
| UserService.DeleteUser | server/src/services/user.service.js:133-146 | 'User not found' exactly when absent; otherwise the cascading delete |
| UserService.MembershipFault | server/src/services/user.service.js:165-175 | the single insert fails with NOT NULL for no group and with the foreign key for an unknown one |
| UserService.AssignGroup | server/src/services/user.service.js:148-188 | 'User not found', or the insert's fault with nothing changed; otherwise the user belongs to exactly that group |
| UserService.AssignGroupExclusive | server/src/services/user.service.js:148-188 | after an assignment the user is in exactly one group and everyone else is untouched |
| AuthService.UsersMatching | server/src/services/auth.service.js:174-184 | the users whose username or e-mail is the identifier; at most two under the schema |
| AuthService.WithUsername | server/src/services/auth.service.js:174-184 | the users whose username is the identifier |
| AuthService.WithEmail | server/src/services/auth.service.js:174-184 | the users whose e-mail is the identifier |
| AuthService.OneUserPerIdentifier | server/src/config/db.js:23-24 | under `username UNIQUE` and `email UNIQUE`, at most one user has a given username and at most one a given e-mail |
| AuthService.Register | server/src/services/auth.service.js:7-40 | a taken username or e-mail, the hashing fault, the NOT NULL fault for a missing username or e-mail, otherwise the insert and a token for `{ id, username }` |
| AuthService.Login | server/src/services/auth.service.js:42-78 | 'Password is required', 'Username or email is required', then 'Invalid credentials' unless a matching user's password matches; the session signs the found user |
| AuthService.UsernameNamesOneCandidate | server/src/services/auth.service.js:53 | when no e-mail equals the identifier, the username names exactly one user |
| AuthService.CurrentUser | server/src/services/auth.service.js:80-93 | the profile exactly when the user exists, otherwise 'User not found' |
| Http.FailureReply | server/src/controllers/group.controller.js:56-63 | a thrown not-found message is 404, a thrown conflict message 400 (both with the message), anything else 500 with the handler's text |
| GroupController.GroupByIdResponse | server/src/controllers/group.controller.js:15-29 | 404 'Group not found' exactly for no row, otherwise 200 with the row |
| GroupController.CreateGroupResponse | server/src/controllers/group.controller.js:31-45 | 201 exactly on success, 400 exactly for a taken name, 500 otherwise |
| GroupController.UpdateGroupResponse | server/src/controllers/group.controller.js:47-65 | 200 on success, 404 for a missing group, 400 for a taken name, 500 otherwise |
| GroupController.DeleteGroupResponse | server/src/controllers/group.controller.js:67-79 | 200 on success, 404 for a missing group, 500 otherwise |
| GroupController.AssignRolesResponse | server/src/controllers/group.controller.js:81-94 | 200 on success, 404 for a missing group, 500 for every other failure |
| RoleController.RoleByIdResponse | server/src/controllers/role.controller.js:15-29 | 404 'Role not found' exactly for no row, otherwise 200 with the row |
| RoleController.CreateRoleResponse | server/src/controllers/role.controller.js:31-45 | 201 on success, 400 for a taken name, 500 otherwise |
| RoleController.UpdateRoleResponse | server/src/controllers/role.controller.js:47-65 | 200, 404 for a missing role, 400 for a taken name, 500 otherwise |
| RoleController.DeleteRoleResponse | server/src/controllers/role.controller.js:67-79 | 200, 404 for a missing role, 500 otherwise |
| RoleController.AssignPermissionsResponse | server/src/controllers/role.controller.js:81-94 | 200, 404 for a missing role, 500 for every other failure |
| ModuleController.ModuleByIdResponse | server/src/controllers/module.controller.js:15-29 | 404 'Module not found' exactly for no row, otherwise 200 with the row |
| ModuleController.CreateModuleResponse | server/src/controllers/module.controller.js:31-45 | 201 on success, 400 for a taken name, 500 otherwise |
| ModuleController.UpdateModuleResponse | server/src/controllers/module.controller.js:47-65 | 200, 404 for a missing module, 400 for a taken name, 500 otherwise |
| ModuleController.DeleteModuleResponse | server/src/controllers/module.controller.js:67-79 | 200, 404 for a missing module, 500 otherwise (a referenced module included) |
| UserController.UserByIdResponse | server/src/controllers/user.controller.js:17-31 | 404 'User not found' exactly for no row, otherwise 200 with the profile |
| UserController.CreateUserResponse | server/src/controllers/user.controller.js:33-47 | 201 on success, 400 for a taken username or e-mail, 500 otherwise |
| UserController.UpdateUserResponse | server/src/controllers/user.controller.js:49-67 | 200, 404 for a missing user, 400 for a clash, 500 otherwise |
| UserController.DeleteUserResponse | server/src/controllers/user.controller.js:69-81 | 200, 404 for a missing user, 500 otherwise |
| UserController.AssignGroupsResponse | server/src/controllers/user.controller.js:83-96 | 200, 404 for a missing user, 500 for every other failure |
| PermissionController.PermissionByIdResponse | server/src/controllers/permission.controller.js:15-29 | 404 'Permission not found' exactly for no row, otherwise 200 with the row |
| PermissionController.CreatePermissionResponse | server/src/controllers/permission.controller.js:31-48 | 201 on success, 404 exactly for a missing module, 400 for a duplicate pair, 500 otherwise |
| PermissionController.UpdatePermissionResponse | server/src/controllers/permission.controller.js:50-68 | 200, 404 for a missing permission or module, 400 for a duplicate pair, 500 otherwise |
| PermissionController.DeletePermissionResponse | server/src/controllers/permission.controller.js:70-82 | 200, 404 for a missing permission, 500 otherwise |
| AuthController.RegisterResponse | server/src/controllers/auth.controller.js:5-19 | 201 with the session on success, 400 for a taken username or e-mail, 500 otherwise |
| AuthController.LoginResponse | server/src/controllers/auth.controller.js:21-36 | 200 with the session, 401 exactly for 'Invalid credentials', 500 otherwise |
| AuthController.MissingPasswordIsServerError | server/src/controllers/auth.controller.js:29-35 | a login without password or identifier is answered 500, not 4xx |
| AuthController.CurrentUserResponse | server/src/controllers/auth.controller.js:38-49 | 200 with the profile exactly when the user exists, otherwise 404 'User not found' |
| AuthController.UserPermissionsResponse | server/src/controllers/auth.controller.js:51-62 | 200 with the map inside the `{ permissions }` envelope, listing exactly the pairs a chain grants |
| AuthController.SimulateAction | server/src/controllers/auth.controller.js:64-91 | 400 exactly when module or action is falsy; otherwise 200 with the permission check's answer and its sentence |
| AuthController.SimulationAgreesWithResolver | server/src/controllers/auth.controller.js:64-91 | the simulated answer is what the resolver's map lists for the user |
| AuthController.VerdictTellsAnswer | server/src/controllers/auth.controller.js:78-80 | the two verdict sentences differ |
| PermissionsSeed.GrowsTransitive | server/src/seed/permissions.seed.js:17-30 | growing by seeded rows twice is growing once |
| PermissionsSeed.TakenPersists | server/src/seed/permissions.seed.js:17-30 | a pair present before a growth step is still present after it |
| PermissionsSeed.InsertOrIgnore | server/src/seed/permissions.seed.js:22 | `INSERT OR IGNORE` adds the pair under the next id unless present; consistency kept |
| PermissionsSeed.SeedPermissions | server/src/seed/permissions.seed.js:6-44 | afterwards every module holds all four CRUD actions, only new seeded rows are added, and a covered database is unchanged |
| RolePermissionsSeed.GrantAll | server/src/seed/role_permissions.seed.js:37-53 | the role gains an edge to every permission and nothing else changes; consistency kept |
| RolePermissionsSeed.GrantAllIdempotent | server/src/seed/role_permissions.seed.js:37 | seeding twice adds nothing |
| RolePermissionsSeed.SeedRolePermissions | server/src/seed/role_permissions.seed.js:4-59 | 'Super Admin role not found', then 'No permissions found', otherwise the role is granted every permission |
| GroupRolesSeed.SeedGroupRoles | server/src/seed/group_roles.seed.js:4-51 | 'System Administrators group not found', then 'Super Admin role not found', otherwise exactly that edge is added |
| UserGroupsSeed.SeedUserGroups | server/src/seed/user_groups.seed.js:4-51 | 'Admin user not found', then the missing group, otherwise exactly that membership is added |
| VerifySeed.PairsOf | server/src/seed/verify.seed.js:131-136 | one module's four `(name, action)` pairs |
| VerifySeed.Expected | server/src/seed/verify.seed.js:131-136 | every module name crossed with every action, four per module |
| VerifySeed.Missing | server/src/seed/verify.seed.js:138-143 | the expected pairs the role's rows lack, both directions |
| VerifySeed.RoleGrants | server/src/seed/verify.seed.js:86-96 | the role's `(module name, action)` rows are exactly the pairs of its permission edges |
| VerifySeed.NothingMissingIff | server/src/seed/verify.seed.js:138-147 | nothing is missing exactly when the rows hold every module × action |
| VerifySeed.VerifySeeds | server/src/seed/verify.seed.js:4-163 | each stage's message exactly when its check fails, in order; success exactly when the admin's group has a role holding every module × action |
| VerifySeed.SeededRoleComplete | server/src/seed/role_permissions.seed.js:37-53 | after the permission and role-permission seeds the Super Admin role is complete |
| VerifySeed.CompleteRoleGrantsEverything | server/src/seed/verify.seed.js:131-151 | a user whose group carries a complete role is granted every module × action by the resolver |
| UseAuth.Entry | client/src/hooks/useAuth.js:41 | the module's list exactly when map and entry are present |
| UseAuth.CheckPermission | client/src/hooks/useAuth.js:40-45 | true exactly when the module's list contains the action |
| UseAuth.SomeIncluded | client/src/hooks/useAuth.js:51 | `some`: one of the actions is in the list |
| UseAuth.EveryIncluded | client/src/hooks/useAuth.js:58 | `every`: all of the actions are in the list |
| UseAuth.HasAnyPermission | client/src/hooks/useAuth.js:47-52 | true exactly when one of the actions passes the check; false for no actions |
| UseAuth.HasAllPermissions | client/src/hooks/useAuth.js:54-59 | true exactly when the module has an entry and every action passes; for no actions, exactly when the entry exists |
| UseAuth.IsAuthenticated | client/src/hooks/useAuth.js:73 | `!!token`: a non-empty token |
| UseAuth.SingleActionCoincides | client/src/hooks/useAuth.js:40-59 | for one action the three checks agree |
| UseAuth.AllImpliesAny | client/src/hooks/useAuth.js:47-59 | holding all of a non-empty list implies holding any |
| UseAuth.CheckOnMap | client/src/hooks/useAuth.js:40-45 | on a present map the check is membership |
| UseAuth.ClientMatchesChain | client/src/hooks/useAuth.js:40-45 | with the server's map the client's check holds exactly when a chain grants the pair |
| UseAuth.ClientAgreesWithServer | client/src/hooks/useAuth.js:40-45 | the client's check equals the server's single-pair check on a consistent database |
| UseAuth.EmptyMapDeniesAll | client/src/store/slices/authSlice.js:64-69 | an empty map grants nothing |
| AuthSlice.FetchPermissionsGuard | client/src/store/slices/authSlice.js:38-41 | rejects with 'No token available' exactly when not authenticated |
| AuthSlice.AuthState.constructor | client/src/store/slices/authSlice.js:52-58 | the stored token, no user, an empty map, not loading, no error |
| AuthSlice.AuthState.Logout | client/src/store/slices/authSlice.js:64-69 | the session is forgotten and every check fails |
| AuthSlice.AuthState.ClearError | client/src/store/slices/authSlice.js:70-72 | only the error is cleared |
| AuthSlice.AuthState.RequestPending | client/src/store/slices/authSlice.js:77-94 | loading with the error cleared, nothing else changes |
| AuthSlice.AuthState.FetchPermissionsPending | client/src/store/slices/authSlice.js:103-105 | loading, the error kept |
| AuthSlice.AuthState.LoginFulfilled | client/src/store/slices/authSlice.js:81-85 | token and user from the payload, the map untouched |
| AuthSlice.AuthState.RegisterFulfilled | client/src/store/slices/authSlice.js:95-97 | only loading ends; registering does not sign in |
| AuthSlice.AuthState.FetchPermissionsFulfilled | client/src/store/slices/authSlice.js:106-109 | the map is replaced, and the check then holds exactly for its pairs |
| AuthSlice.AuthState.Rejected | client/src/store/slices/authSlice.js:86-113 | the payload's message or the case's default, loading ends |
| ListOps.FindIndex | client/src/store/slices/rolesSlice.js:181 | the first index with the id, or -1 exactly when none has it |
| ListOps.ReplaceFirst | client/src/store/slices/rolesSlice.js:181-184 | the first record with the id becomes the payload; without one the list is unchanged |
| ListOps.ReplaceAll | client/src/store/slices/permissionsSlice.js:195-197 | every record with the id becomes the payload, the others stay |
| ListOps.WithoutId | client/src/store/slices/rolesSlice.js:203 | the records kept are exactly those with another id |
| ListOps.WithoutIdAppend | client/src/store/slices/rolesSlice.js:203 | filtering keeps the survivors' order |
| ListOps.WithoutIdIdempotent | client/src/store/slices/rolesSlice.js:203 | filtering twice is filtering once |
| ListOps.ReplaceFirstIsReplaceAll | client/src/store/slices/permissionsSlice.js:188-203 | without repeated ids the two update styles agree |
| ListOps.DeleteAfterReplace | client/src/store/slices/permissionsSlice.js:188-224 | deleting after an update removes what deleting alone removes |
| ListOps.SelectedId | client/src/store/slices/rolesSlice.js:188 | `selected?.id`: `undefined` for a null selection, otherwise the record's id |
| ListOps.IdlessReplyMatchesOnlyNull | client/src/store/slices/rolesSlice.js:181-190 | a reply without an `id` matches no record of a list whose records have ids, so both update styles leave it unchanged, and it matches exactly a null or id-less selection |
| ListOps.IdlessEntrySurvivesDelete | client/src/store/slices/rolesSlice.js:167-203 | a record appended without an `id` is kept by every delete by id |
| RolesSlice.RolesState.constructor | client/src/store/slices/rolesSlice.js:116-123 | no roles, no selection, not loading, no error |
| RolesSlice.RolesState.ClearSelectedRole | client/src/store/slices/rolesSlice.js:127-129 | only the selection is cleared |
| RolesSlice.RolesState.ClearError | client/src/store/slices/rolesSlice.js:130-132 | only the error is cleared |
| RolesSlice.RolesState.Pending | client/src/store/slices/rolesSlice.js:137-140 | loading with no error, the data untouched |
| RolesSlice.RolesState.Rejected | client/src/store/slices/rolesSlice.js:145-148 | the payload's message or the default, loading ends |
| RolesSlice.RolesState.FetchRolesFulfilled | client/src/store/slices/rolesSlice.js:141-144 | the list is replaced |
| RolesSlice.RolesState.FetchRoleByIdFulfilled | client/src/store/slices/rolesSlice.js:154-157 | the selection is the payload |
| RolesSlice.RolesState.CreateRoleFulfilled | client/src/store/slices/rolesSlice.js:167-170 | the payload is appended |
| RolesSlice.RolesState.UpdateRoleFulfilled | client/src/store/slices/rolesSlice.js:180-191 | the first record whose `id` equals the payload's is replaced, and so is a selection whose `id` equals it (`undefined === undefined` included). The server's id-less reply `{ message, role }` changes no listed role and replaces a null selection |
| RolesSlice.RolesState.DeleteRoleFulfilled | client/src/store/slices/rolesSlice.js:201-207 | no role with the id remains, and a matching selection is cleared |
| RolesSlice.RolesState.AssignPermissionToRoleFulfilled | client/src/store/slices/rolesSlice.js:217-222 | a selection whose `id` equals the payload's becomes the payload; the server's id-less `{ message }` reply replaces a null selection |
| RolesSlice.RolesState.RemovePermissionFromRoleFulfilled | client/src/store/slices/rolesSlice.js:233-241 | a matching selection loses the permission, nothing else changes |
| GroupsSlice.GroupsState.constructor | client/src/store/slices/groupsSlice.js:119-126 | no groups, no selection, not loading, no error |
| GroupsSlice.GroupsState.ClearSelectedGroup | client/src/store/slices/groupsSlice.js:130-132 | only the selection is cleared |
| GroupsSlice.GroupsState.ClearError | client/src/store/slices/groupsSlice.js:133-135 | only the error is cleared |
| GroupsSlice.GroupsState.Pending | client/src/store/slices/groupsSlice.js:140-143 | loading with no error |
| GroupsSlice.GroupsState.Rejected | client/src/store/slices/groupsSlice.js:148-151 | the payload's message or the default |
| GroupsSlice.GroupsState.FetchGroupsFulfilled | client/src/store/slices/groupsSlice.js:144-147 | the list is replaced |
| GroupsSlice.GroupsState.FetchGroupByIdFulfilled | client/src/store/slices/groupsSlice.js:157-160 | the selection is the payload |
| GroupsSlice.GroupsState.CreateGroupFulfilled | client/src/store/slices/groupsSlice.js:170-173 | the payload is appended |
| GroupsSlice.GroupsState.UpdateGroupFulfilled | client/src/store/slices/groupsSlice.js:183-194 | the first match and a matching selection are replaced (`undefined === undefined` included). The server's id-less reply `{ message, group }` changes no listed group and replaces a null selection |
| GroupsSlice.GroupsState.DeleteGroupFulfilled | client/src/store/slices/groupsSlice.js:204-212 | no group with the id remains, a matching selection is cleared |
| GroupsSlice.GroupsState.AssignRoleToGroupFulfilled | client/src/store/slices/groupsSlice.js:222-227 | a selection whose `id` equals the payload's becomes the payload; the server's id-less `{ message }` reply replaces a null selection |
| GroupsSlice.GroupsState.RemoveRoleFromGroupFulfilled | client/src/store/slices/groupsSlice.js:238-245 | a matching selection loses the role |
| ModulesSlice.ModulesState.constructor | client/src/store/slices/modulesSlice.js:88-95 | no modules, no selection, not loading, no error |
| ModulesSlice.ModulesState.ClearSelectedModule | client/src/store/slices/modulesSlice.js:99-101 | only the selection is cleared |
| ModulesSlice.ModulesState.ClearError | client/src/store/slices/modulesSlice.js:102-104 | only the error is cleared |
| ModulesSlice.ModulesState.Pending | client/src/store/slices/modulesSlice.js:109-112 | loading with no error |
| ModulesSlice.ModulesState.Rejected | client/src/store/slices/modulesSlice.js:117-120 | the payload's message or the default |
| ModulesSlice.ModulesState.FetchModulesFulfilled | client/src/store/slices/modulesSlice.js:113-116 | the list is replaced |
| ModulesSlice.ModulesState.FetchModuleByIdFulfilled | client/src/store/slices/modulesSlice.js:126-129 | the selection is the payload |
| ModulesSlice.ModulesState.CreateModuleFulfilled | client/src/store/slices/modulesSlice.js:139-142 | the payload is appended |
| ModulesSlice.ModulesState.UpdateModuleFulfilled | client/src/store/slices/modulesSlice.js:152-163 | the first match and a matching selection are replaced (`undefined === undefined` included). The server's id-less reply `{ message, module }` changes no listed module and replaces a null selection |
| ModulesSlice.ModulesState.DeleteModuleFulfilled | client/src/store/slices/modulesSlice.js:173-181 | no module with the id remains, a matching selection is cleared |
| UsersSlice.UsersState.constructor | client/src/store/slices/usersSlice.js:85-92 | no users, no selection, not loading, no error |
| UsersSlice.UsersState.ClearSelectedUser | client/src/store/slices/usersSlice.js:96-98 | only the selection is cleared |
| UsersSlice.UsersState.ClearError | client/src/store/slices/usersSlice.js:99-101 | only the error is cleared |
| UsersSlice.UsersState.Pending | client/src/store/slices/usersSlice.js:106-109 | loading with no error |
| UsersSlice.UsersState.Rejected | client/src/store/slices/usersSlice.js:114-117 | the payload's message or the default |
| UsersSlice.UsersState.FetchUsersFulfilled | client/src/store/slices/usersSlice.js:110-113 | the list is replaced |
| UsersSlice.UsersState.FetchUserByIdFulfilled | client/src/store/slices/usersSlice.js:123-126 | the selection is the payload |
| UsersSlice.UsersState.CreateUserFulfilled | client/src/store/slices/usersSlice.js:136-139 | the payload is appended |
| UsersSlice.UsersState.UpdateUserFulfilled | client/src/store/slices/usersSlice.js:149-160 | the first match and a matching selection are replaced (`undefined === undefined` included). The server's id-less reply `{ message, user }` changes no listed user and replaces a null selection |
| UsersSlice.UsersState.DeleteUserFulfilled | client/src/store/slices/usersSlice.js:170-176 | no user with the id remains, a matching selection is cleared |
| PermissionsSlice.PermissionsState.constructor | client/src/store/slices/permissionsSlice.js:103-111 | empty lists, no selection, not loading, no error |
| PermissionsSlice.PermissionsState.ClearSelectedPermission | client/src/store/slices/permissionsSlice.js:115-117 | only the selection is cleared |
| PermissionsSlice.PermissionsState.ClearModulePermissions | client/src/store/slices/permissionsSlice.js:118-120 | only the module's list is cleared |
| PermissionsSlice.PermissionsState.ClearError | client/src/store/slices/permissionsSlice.js:121-123 | only the error is cleared |
| PermissionsSlice.PermissionsState.Pending | client/src/store/slices/permissionsSlice.js:128-131 | loading with no error |
| PermissionsSlice.PermissionsState.Rejected | client/src/store/slices/permissionsSlice.js:136-139 | the payload's message or the default |
| PermissionsSlice.PermissionsState.FetchPermissionsFulfilled | client/src/store/slices/permissionsSlice.js:132-135 | the full list is replaced |
| PermissionsSlice.PermissionsState.FetchPermissionByIdFulfilled | client/src/store/slices/permissionsSlice.js:145-148 | the selection is the payload |
| PermissionsSlice.PermissionsState.FetchPermissionsByModuleFulfilled | client/src/store/slices/permissionsSlice.js:158-161 | only the module's list is replaced |
| PermissionsSlice.PermissionsState.CreatePermissionFulfilled | client/src/store/slices/permissionsSlice.js:172-178 | appended to the full list, and to the module's list only when it is non-empty |
| PermissionsSlice.PermissionsState.UpdatePermissionFulfilled | client/src/store/slices/permissionsSlice.js:188-203 | the first match in the full list, every match in the module's list, and a matching selection become the payload (`undefined === undefined` included). The id-less reply `{ message, permission }` changes neither list and replaces a null selection |
| PermissionsSlice.PermissionsState.DeletePermissionFulfilled | client/src/store/slices/permissionsSlice.js:213-224 | the id leaves both lists and a matching selection is cleared |

## Left out

- The SQL engine itself: queries are modelled by their results over the
  table snapshot. The row order the engine picks is a parameter (`rows` in
  `Resolver.UserPermissions`, the `:|` choices in the methods), and engine
  errors other than the constraint faults of `Common.EngineFault` (I/O, a
  locked database) are not modelled.
- Hashing, password comparison and token signing and verification
  (bcrypt, jsonwebtoken) are function parameters; token expiry and the
  secret are not modelled.
- The asynchronous callbacks of the services and seeds: each operation is
  one atomic step. The real callbacks can interleave with other requests.
- GroupService.AssignRoles, RoleService.AssignPermissions, UserService.AssignGroup:
  these model the intended atomic replace-or-roll-back. As written, `if (error)`
  is tested before any insert callback has run, so the transaction always
  commits the DELETE and the inserts that succeeded, and the reply is 200
  (see Findings, `EdgeTable.CommittedAsWritten`).
- GroupService.AssignRoles, RoleService.AssignPermissions: a body without the
  id list makes `forEach` throw inside the DELETE callback. That exception is
  uncaught, so the process exits with the transaction open. The client's
  `assignRoleToGroup` sends `{ roleId }` rather than `roleIds`
  (client/src/store/slices/groupsSlice.js:92-95), so it takes this path.
- `created_at`/`updated_at` timestamps and the triggers that set them.
- Request-body validation (Joi schemas), the Express routing and the
  `getAll*` list handlers, which pass the query result through unchanged.
  Only the `groups` and `permissions` columns of the user and module lists
  are modelled (`UserService.ListedGroups`, `ModuleService.ListedActions`).
- Logging, and the test-case queries `verifySeeds` logs without acting on
  them.
- AccessGate.Authorize: the primary query names a `user_roles` table the
  schema does not declare, so it always fails with "no such table"; only
  the fallback query is modelled.
- VerifySeed.VerifySeeds: the module names are read in an arbitrary order,
  and the group and role inspected are an arbitrary one of the admin's.
- SeedPermissions and SeedRolePermissions: the per-insert error callbacks
  are left out. Under the schema an `INSERT OR IGNORE` of an existing
  module or permission cannot fail.
- The `simulateAction` and `getUserPermissions` catch blocks (500): the
  modelled service calls cannot fail.
- Client thunks: the HTTP calls and `localStorage` are left out. Only the
  reducers and the token guard of `fetchPermissions` are modelled. Ids are
  integers, which leaves out string-versus-number comparisons of ids taken
  from URLs. A non-array fulfilled payload is also left out.
- The schema the services run against. `server/src/config/db.config.js`
  only opens the database at `DB_PATH`, or in memory. It declares no tables
  and does not turn on `PRAGMA foreign_keys`. The schema is taken from
  `initDatabase` in `server/src/config/db.js`. The `schema.sql` and
  `seed.sql` files that `server/src/seed/seed.js:9-17` executes are not part
  of this model. Every foreign-key and cascade contract assumes that foreign
  keys are on for the services' connection. These contracts are
  `Schema.Consistent`, the cascades of the `Delete*` methods, and
  `ForeignKeyViolated` in `EdgeTable.InsertFault`, `UserService.AssignGroup` and `ModuleService.DeleteModule`.
- GroupService.UpdateGroup, RoleService.UpdateRole, ModuleService.UpdateModule:
  these reply with the corrected `NamedTable.UpdateReply`. The source's echo
  `description || old description` differs from it exactly when
  `NamedTable.ClearsDescription` holds (see Findings). Each method also
  ensures that in every other case its reply is the source's echo.
- Resolver.GroupByModule / Resolver.UserPermissions: these model the intended
  grouping. As written, the `{}` accumulator throws a TypeError for a module
  named after an `Object.prototype` member such as `constructor`. The throw
  happens inside a database callback, so it is uncaught and the process exits
  (see Findings). The `useAuth` lookups `permissions[module]`
  (client/src/hooks/useAuth.js:40-58) likewise return true for such a name,
  and then call `.includes` on a function.
- ListOps.Record: `members` (a role's permissions, a group's roles) is assumed
  to be present on the selected record. The remove reducers
  (client/src/store/slices/rolesSlice.js:236-238,
  client/src/store/slices/groupsSlice.js:241) throw when the selection came
  from `GET /roles/:id` or `GET /groups/:id`, whose replies carry no such
  array.
- ListOps.Record: the entity nested inside a `{ message, <entity> }` reply is
  not modelled as a field. The reducers read only the reply's `id`, and that
  reply has none.

## Findings

| source | as written | input that shows it | evidently intended | confidence | as-written member | corrected member |
|---|---|---|---|---|---|---|
| server/src/services/group.service.js:93 (also role.service.js:93, module.service.js:113-117) | the update reply echoes `description \|\| old description`, so a description cleared to `null` or `""` is reported with its old text while the row stores the cleared value | update a group whose description is "can edit" with `{ description: null }` | the reply describes the row as stored | not executed | NamedTable.EchoedReply (NamedTable.ClearedDescriptionEchoedStale) | NamedTable.UpdateReply |
| server/src/services/auth.service.js:126-132 | the grouping `reduce` starts from `{}`, so `acc[module]` is already truthy for a name such as `constructor`, no list is created and `.push` throws | a user granted `read` on a module named `constructor` asks for `GET /auth/me/permissions` | a map keyed by every granted module name | not executed | Resolver.GroupByModuleAsWritten (Resolver.InheritedModuleNameThrows) | Resolver.GroupByModule |
| server/src/services/group.service.js:133-153 (also role.service.js:133-153, user.service.js:166-186) | `if (error)` runs before any `stmt.run` callback, so a failed insert never rolls back: the DELETE and the successful inserts are committed and the reply is success | assign only the unknown role id 99 to group 1, which holds role 2 | roll back and report the failure | not executed | EdgeTable.CommittedAsWritten (EdgeTable.FailedInsertStillCommits) | EdgeTable.Replace |
