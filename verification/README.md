# Verified model of the accounts server

A Dafny model of the parts of the accounts server that carry real invariants, with proofs. It covers
the deferred results and the null propagation of the GraphQL executor, the authority of a user over
workspaces, the administrators of the admin application, the requests that need no authentication,
the migrations, workspace membership, login records and pagination.

`dafny verify dfyconfig.toml` checks the whole project.

| files | what they model |
|---|---|
| `deferred_results.dfy`, `deferred_fields.dfy` | the goroutines, counters and channel behind deferred fields, one atomic operation per step |
| `deferred_trees.dfy` | both together: which objects of a response tree register their groups, and what becomes of them in the output |
| `null_propagation.dfy` | evaluation of a response tree by concurrent goroutines, against section 6.4.4 of the GraphQL specification (October 2021) |
| `go_slices.dfy`, `operator.dfy`, `user_auths.dfy` | slices as a backing array, a length and a capacity; the lists that share arrays, and those that must not |
| `roles.dfy`, `workspace_access.dfy`, `workspace_filter.dfy` | the role order, the operator built from exact roles, and the repository filter |
| `admin_users.dfy`, `admin_store.dfy`, `admin_races.dfy` | the approval status of administrators, their store, and use cases that interleave |
| `graphql_syntax.dfy`, `graphql_roundtrip.dfy`, `bypass.dfy` | a tokenizer and parser of executable documents, the bypass decision, and the request body it reads and hands on |
| `role_migration.dfy`, `permittables.dfy`, `next_migrations.dfy`, `config_lock.dfy` | the role migration with failing repositories, numbered migrations, and the lock of the in-memory configuration |
| `members.dfy`, `pagination.dfy` | workspace members and ownership; page numbers on 64-bit integers |
| `ids.dfy`, `wrappers.dfy` | identifiers, options and results |

Conventions: an identifier is a ULID read as a number, zero being the empty one. A time is a number,
zero being the unset time, and is a parameter. Map iteration and chunk sizes are arbitrary choices, so
what is proved holds for every order and every chunking. A method body that runs under a lock is one
atomic step.

Where the code does not do what its own comments or names promise, the model follows the code and
states exactly when the promise holds:

- The handler of a mutation never reads the channel of deferred results, so a deferred group of a
  mutation is lost (`AllDeliveredIff`, `MutationLosesDeferredGroup`).
- An object whose parent turns null still registers its deferred groups, which are then delivered
  without a place in the output (`DeliveredWithoutPlaceIff`, `OrphansExist`).
- The guarded save stops two racing demotions (`RacingDemotions`), but the guard is computed from a
  copy, and a stale copy can still remove the last system administrator, and so can a rejection, which
  is never guarded (`CoveredIff`, `StaleRoleChangeRemovesLast`).
- Two mutual rejections can leave no approved user, as the code's own note says
  (`MutualRejectionsLeaveNobody`). So can a stale role change, and so can a stale sign-in that only
  refreshes a name or a picture, which the note does not mention (`StaleRoleChangeLeavesNobody`,
  `StaleSignInLeavesNobody`). `ApprovedUserStaysIff` says in exactly which interleavings of the five use
  cases that write the store, first sign-ins included, an approved user is left;
  `CurrentRunsKeepAnApprovedUser` and `UndisturbedRejectionLeavesSomebody` say what suffices, and
  `BootstrapRestoresAccess` how access comes back.
- The filter of an operator without writable workspaces does not restrict writing (`FilterAgreesIff`),
  and two merges on one list can overwrite each other (`MergeTwice`).
- The late clear of the configuration lock keeps exclusion but can swallow the next unlock
  (`FlagAtTestIff`, `SwallowedUnlockIsForever`).
- A loaded configuration is the stored one, so changing it without saving shows in the next load
  (`UnsavedEditIsSeen`), and SaveAuth, which takes no lock, can be lost to a client that saves
  (`SaveAuthCanBeLost`, `NoLostUpdatesIff`).
- A transfer of ownership to oneself can leave a workspace without owner (`TransferKeepsOwnerIff`).
- Removing members checks only the operator's own leave, so others can remove the last owners
  (`RemovalKeepsOwnerIff`, `LastOwnerCanBeRemovedIff`).
- The removal on the plain list of login records takes out the match only in first place
  (`ListRemoveIff`).
- Page numbers whose offset exceeds 64 bits wrap around (`OffsetIsExactIff`).
- A request body whose reading fails early is not restored (`IsBypassed`).

## Model

| member | source | states |
|---|---|---|
| DeferredResults.RunInv | server/internal/adapter/gql/generated.go:1297-1376 | in every interleaving of goroutines and response handler the counters, the channel log, the responses and the groups still to come fit together |
| DeferredResults.DeliveredAtMostOnce | server/internal/adapter/gql/generated.go:1309-1315 | every answer after the first is the result of one registered group, which is received at no other turn |
| DeferredResults.NilMeansAllDelivered | server/internal/adapter/gql/generated.go:1309-1319 | the handler returns nil only when, as multisets, the delivered groups are all groups the operation registers at any depth |
| DeferredResults.NoResultAfterLast | server/internal/adapter/gql/generated.go:1323-1326 | a response with HasNext false, or without HasNext, is never followed by a result |
| DeferredResults.ResultAfterHasNext | server/internal/adapter/gql/generated.go:1323-1326 | a response with HasNext true is never followed by nil |
| DeferredResults.HasNextIsHonoured | server/internal/adapter/gql/generated.go:1297-1328 | after HasNext true the next call, whenever it returns, returns exactly one further result |
| DeferredResults.NoDeadlock | server/internal/adapter/gql/generated.go:1309-1315 | in every reachable state in which a call has not returned, some step other than a new call is possible |
| DeferredResults.CallsReturn | server/internal/adapter/gql/generated.go:1359-1376 | between two calls only boundedly many steps are possible, whatever the schedule |
| DeferredResults.CallAnswersOnce | server/internal/adapter/gql/generated.go:1297-1328 | a handler call adds exactly one response, when it returns |
| DeferredResults.MutationDeliversNothing | server/internal/adapter/gql/generated.go:1330-1343 | a mutation answers once and then nil, and never reads the channel |
| DeferredResults.AllDeliveredIff | server/internal/adapter/gql/generated.go:1296-1343 | once nil was returned everything is delivered exactly for queries and for operations without deferred groups |
| DeferredResults.MutationLosesDeferredGroup | server/internal/adapter/gql/generated.go:1330-1343 | a concrete mutation that ends with its deferred group blocked on the channel |
| DeferredFields.SplitFields | server/internal/adapter/gql/generated.go:9936-9957 | the loop over collected fields, field by field: a plain field and one without defer directive are written at their place, every other one leaves a null and has its cell in the group of its label, in order; and a group holds nothing else |
| DeferredFields.DeferredFieldsHaveTheirPlace | server/internal/adapter/gql/generated.go:9936-9957 | every deferred field has a cell of its own in the field set of its group |
| DeferredFields.WrittenAtOnceIff | server/internal/adapter/gql/generated.go:9872-9957 | a field is written at its own place exactly when it is plain or has no defer directive |
| DeferredTrees.GroupsAreSplit | server/internal/adapter/gql/generated.go:9936-9957 | the groups of a response tree have the fields and labels that the loop over the collected fields makes |
| DeferredTrees.RegistersIff | server/internal/adapter/gql/generated.go:9959-9974 | an object gets to register its groups exactly when no error of the response tree reaches it through Non-Null positions that are not deferred |
| DeferredTrees.RegisteredIff | server/internal/adapter/gql/generated.go:9959-9974 | the groups registered in one evaluation are those of its objects that no error reaches, each under the path of its object |
| DeferredTrees.BagIff | server/internal/adapter/gql/generated.go:1359-1376 | at any depth, the groups registered are those of the objects that are evaluated at some time and that no error reaches |
| DeferredTrees.GroupIsNullIff | server/internal/adapter/gql/generated.go:1370-1373 | a group comes back as null exactly when an error reaches one of its Non-Null fields |
| DeferredTrees.AnswersFollowRule | server/internal/adapter/gql/generated.go:1309-1320 | in every run each later answer is the result of one label of the object at the answer's path, at any depth, and is null exactly when an error reaches a Non-Null field of that label |
| DeferredTrees.DeliveredIff | server/internal/adapter/gql/generated.go:1309-1320 | when the handler has returned nil, exactly these groups have been delivered, each once |
| DeferredTrees.FirstResponseShowsTree | server/internal/adapter/gql/generated.go:9936-9977 | in every schedule the first response shows nothing below a null, null where an error reaches, and else the tree's values with a null for each deferred field |
| DeferredTrees.GroupShowsFields | server/internal/adapter/gql/generated.go:1359-1376 | in every schedule a group that is not null shows each of its fields at its place with the value of its node |
| DeferredTrees.PlaceOfGroup | server/internal/adapter/gql/generated.go:9959-9974 | a registered group has its object in the output of every schedule, unless the object is below a nulled position |
| DeferredTrees.DeliveredWithoutPlaceIff | server/internal/adapter/gql/generated.go:1297-1376 | when the handler has returned nil, a group of the first response was delivered without a place in it exactly when some object with groups is reached by no error but below a null |
| DeferredTrees.OrphansExist | server/internal/adapter/gql/generated.go:9959-9974 | a response tree with such an object |
| NullPropagation.StepKeepsValue | server/internal/adapter/gql/generated.go:11248-11309 | every step of every goroutine, counter updates included, keeps the value the tree evaluates to |
| NullPropagation.NotDoneMoves | server/internal/adapter/gql/generated.go:11306-11309 | a position that is not done has a goroutine that can move |
| NullPropagation.ClosedInvalids | server/internal/adapter/gql/generated.go:12245-12252 | when all goroutines are done the counter of an object and the scan of a list both find a null exactly when a Non-Null child is null |
| NullPropagation.ValueFollowsRule | server/internal/adapter/gql/generated.go:12213-12255 | a position is absent exactly below a nulled one, and otherwise null exactly when an error reaches it through Non-Null positions only |
| NullPropagation.OutputFollowsRule | server/internal/adapter/gql/generated.go:11248-11323 | the output of every completed schedule has the null positions of section 6.4.4, and elsewhere the values and keys of the tree |
| NullPropagation.SchedulesAgree | server/internal/adapter/gql/generated.go:11301-11309 | two schedules of one response tree end with the same output, within a bound on their length |
| GoSlices.Append | server/pkg/workspace/operator.go:37-51 | append on a backing array: in place when the capacity suffices, else in a new array, with the frame of both |
| GoSlices.RemoveAt | server/pkg/user/user.go:137-143 | the shift that removes an element in place |
| Operators.Operator.AllMaintainingWorkspaces | server/pkg/workspace/operator.go:45-47 | the maintainable and owned workspaces, with no earlier list changed |
| Operators.Operator.AllWritableWorkspaces | server/pkg/workspace/operator.go:41-43 | the writable, maintainable and owned workspaces, with no earlier list changed |
| Operators.Operator.AllReadableWorkspaces | server/pkg/workspace/operator.go:37-39 | all workspaces of the operator, with no earlier list changed |
| Operators.Operator.IsReadableWorkspace | server/pkg/workspace/operator.go:53-55 | whether one of the given workspaces is among the readable ones |
| Operators.Operator.ListsAreJoined | server/pkg/workspace/operator.go:37-51 | the lists of the four roles, each followed by those of the stronger roles |
| Operators.Operator.AddNewWorkspace | server/pkg/workspace/operator.go:69-71 | the owned list grows at its end, and every list handed out still shows what it showed |
| Operators.RunCalls | server/pkg/workspace/operator.go:37-71 | no sequence of calls changes the visible contents of the operator's lists, but for added owners, or of any list returned before |
| Roles.IncludesIsOrder | server/pkg/role/enum.go:50-65 | Includes is the order by strength on valid roles, and false elsewhere |
| WorkspaceAccess.FilterByUserRole | server/pkg/workspace/workspace_list.go:26-38 | exactly the workspaces in which the user has the role, each at its turn; nil for nil input, empty user or empty role |
| WorkspaceAccess.FilterByUserRoleIncluding | server/pkg/workspace/workspace_list.go:54-66 | exactly the workspaces in which the user's role is at least as strong as the given one, each at its turn |
| WorkspaceAccess.IDs | server/pkg/workspace/workspace_list.go:82-92 | the identifiers of a list, nil for nil |
| WorkspaceAccess.GenerateUserOperator | server/internal/app/auth.go:342-367 | no operator for nobody, the error of a failing lookup, else an operator each of whose lists holds exactly the workspaces in which the user's role is at least that of the list |
| WorkspaceAccess.OperatorFollowsRoleOrder | server/internal/app/auth.go:354-366 | the exact-role lists joined by appends hold the workspaces of FilterByUserRoleIncluding, in both directions |
| WorkspaceFilters.MergeLaws | server/pkg/workspace/filter.go:27-47 | Merge is associative, commutative and idempotent, with the empty filter as identity, and what a filter lets write it lets read |
| WorkspaceFilters.MergeShowsBoth | server/pkg/workspace/filter.go:27-47 | a merged list is nil only when both are, and else shows the first and then the second |
| WorkspaceFilters.SameAdmitsSame | server/pkg/workspace/filter.go:49-55 | reading and writing depend only on nil-ness and members of the lists |
| WorkspaceFilters.MergeIsUnionIff | server/pkg/workspace/filter.go:27-55 | a merged filter lets write what one of the two does, exactly when both or neither restrict writing |
| WorkspaceFilters.MergeReadsUnionIff | server/pkg/workspace/filter.go:27-55 | a merged filter lets read what one of the two does, exactly when it restricts reading just in case both do |
| WorkspaceFilters.FilterShowsOperator | server/pkg/workspace/filter.go:13-18 | the filter lists what the operator lists, the stronger roles last |
| WorkspaceFilters.FilterAgreesIff | server/pkg/workspace/filter.go:13-18 | the filter of an operator agrees with the operator exactly when some workspace is writable |
| WorkspaceFilters.MergeTwice | server/pkg/workspace/filter.go:33-40 | the first of two merges on one list keeps its contents exactly when one did not fit or both agree |
| AdminUsers.AdminUser.Approve | server/pkg/adminuser/adminuser.go:127-136 | the new state, nothing when already approved |
| AdminUsers.AdminUser.SetRole | server/pkg/adminuser/adminuser.go:152-162 | the new state and the error for a role that is not known |
| AdminUsers.AdminUser.Reject | server/pkg/adminuser/adminuser.go:138-147 | the new state, with the approval data kept |
| AdminUsers.AdminUser.UpdateProfile | server/pkg/adminuser/adminuser.go:164-177 | the new name and picture, or the error for an empty name |
| AdminUsers.Builder.Build | server/pkg/adminuser/builder.go:13-61 | when the builder's own user is built and what it is then, with the normalised address, the defaults and consistent approval data; else the error of the first failing check |
| AdminUsers.RunStaysGood | server/pkg/adminuser/adminuser.go:127-177 | approved users have an approval time, pending ones no approval data and roles are empty or valid, after any operations |
| AdminUsers.PendingIsNotReentered | server/pkg/adminuser/adminuser.go:127-147 | nobody becomes pending again |
| AdminUsers.FirstApproverIsKept | server/pkg/adminuser/adminuser.go:123-136 | while a user stays approved the first approver and time are kept |
| AdminUsers.ApprovalDataIsReplacedOnlyByApproval | server/pkg/adminuser/adminuser.go:138-147 | approval data is replaced by a later approval only, and never erased |
| AdminUsers.LastDecisionCounts | server/pkg/adminuser/adminuser.go:123-147 | the status is that of the last approval or rejection |
| AdminUsers.BuildTwice | server/pkg/adminuser/builder.go:20-58 | a second Build changes nothing when normalising an address twice does not |
| AdminStore.Store.ExistsApprovedSystemAdminExcept | server/internal/infrastructure/memory/adminuser.go:118-131 | whether another approved system administrator is stored |
| AdminStore.Store.Save | server/internal/infrastructure/memory/adminuser.go:133-156 | stores the record unless another one has its address |
| AdminStore.Store.SaveGuardingLastSystemAdmin | server/pkg/adminuser/repo.go:36-43 | check and save in one step, refused when no other system administrator is stored |
| AdminStore.SaveRemovesLastIff | server/pkg/adminuser/repo.go:32-43 | exactly which save leaves no approved system administrator |
| AdminStore.CoveredRunsKeepAnAdmin | server/pkg/adminuser/repo.go:36-43 | over every interleaving of role changes, approvals, rejections, sign-ins and first sign-ins in which each save that takes a stored administrator out is guarded, one is always left |
| AdminStore.CoveredSavesKeepAnAdmin | server/pkg/adminuser/repo.go:32-43 | the same for saves of any records, however changed and however old |
| AdminStore.CoveredIff | server/internal/admin/usecase/adminuseruc/set_role.go:39-49 | a save is covered exactly when its target is no stored system administrator, or the use case is a role change of one or to one, an approval or sign-in of one, as it was read, or a bootstrap sign-in; the save of a rejection in no other case |
| AdminStore.CopyOfUseCase | server/internal/admin/usecase/authuc/signin.go:81-117 | field by field what each use case saves |
| AdminStore.NothingToSaveIff | server/internal/admin/usecase/authuc/signin.go:81-124 | exactly when a use case does not save |
| AdminStore.SaveIsRefusedIff | server/internal/admin/usecase/adminuseruc/set_role.go:43-54 | the guard refuses exactly a role change that takes the last system administrator, as read, out of that state |
| AdminStore.RejectionIsRefusedIff | server/internal/admin/usecase/adminuseruc/reject.go:44-65 | the count refuses exactly the rejection of an approved user, as read, when at most one is stored |
| AdminStore.RunsStaySound | server/internal/infrastructure/memory/adminuser.go:133-156 | over every interleaving every stored record stays in order, nobody is approved by themselves, and no two records have one address |
| AdminStore.BootstrapRestoresAccess | server/internal/admin/usecase/authuc/signin.go:104-121 | the save of a bootstrap sign-in, first or later, always leaves a system administrator, unless the address is taken |
| AdminStore.NewRecordIsGood | server/internal/admin/usecase/authuc/signin.go:126-138 | the record of a first sign-in is always built: approved and system administrator for a bootstrap address and else pending without a role, named as given or by the part of the address before the at sign |
| AdminStore.SaveRemovesLastApprovedIff | server/pkg/adminuser/repo.go:32-43 | exactly which save leaves no approved user |
| AdminStore.ApprovedUserStaysIff | server/internal/admin/usecase/adminuseruc/reject.go:34-70 | in every interleaving an approved user is always left exactly when no save unapproves the only one: a rejection, or a role change or sign-in without bootstrap whose target was read as not approved |
| AdminStore.CurrentRunsKeepAnApprovedUser | server/internal/admin/usecase/adminuseruc/reject.go:34-43 | an approved user is always left when at each save the operator of a rejection is still approved and no role change or sign-in without bootstrap is older than the approval of its target |
| AdminStore.UndisturbedRejectionLeavesSomebody | server/internal/admin/usecase/adminuseruc/reject.go:44-70 | the count before a rejection suffices when the store is unchanged until the save |
| AdminRaces.RacingDemotions | server/internal/admin/usecase/adminuseruc/set_role.go:39-55 | of two interleaved demotions of the last two exactly one succeeds |
| AdminRaces.StaleRoleChangeRemovesLast | server/internal/admin/usecase/adminuseruc/set_role.go:34-49 | three interleaved role changes that leave no system administrator |
| AdminRaces.CheckThenSaveRemovesLast | server/pkg/adminuser/repo.go:36-42 | with separate check and save both demotions can pass |
| AdminRaces.MutualRejectionsLeaveNobody | server/internal/admin/usecase/adminuseruc/reject.go:34-70 | two approved users who reject each other can both succeed |
| AdminRaces.StaleRoleChangeLeavesNobody | server/internal/admin/usecase/adminuseruc/set_role.go:34-49 | a role change that read its target before the approval, and a rejection by that target, leave no approved user |
| AdminRaces.StaleSignInLeavesNobody | server/internal/admin/usecase/authuc/signin.go:81-124 | a sign-in that read its target before the approval and brings a new name does the same |
| GraphqlSyntax.FieldNamesOccur | server/internal/app/auth.go:103-121 | the name of every top-level field of a parsed query occurs in its text |
| GraphqlRoundTrip.PrintedDocumentsParseBack | server/internal/app/auth.go:118-121 | every document of the grammar, with arguments, directives, variables, shorthand queries and fragments, is accepted when written as text, and its operations and fragments are read |
| GraphqlRoundTrip.TextRoundTrip | server/internal/app/auth.go:118-121 | tokens written one after the other with spaces are read back, numbers and strings included |
| Bypass.PrefilterIsImplied | server/internal/app/auth.go:103-116 | a query with only allowed fields passes the substring prefilter |
| Bypass.Prefilter | server/internal/app/auth.go:106-116 | the loop over the allowlist finds a candidate exactly when one occurs, in any order of the names |
| Bypass.SelectOperation | server/internal/app/auth.go:123-142 | the only operation for an empty name, none when there are none or several; else the first one of the name, none when there is none |
| Bypass.CheckFields | server/internal/app/auth.go:144-159 | whether the root selection is not empty and has plain allowlisted fields only |
| Bypass.IsBypassed | server/internal/app/auth.go:70-160 | the decision as documented: exactly the requests whose chosen operation, the only one for an empty name, selects allowed fields only; and the whole stream still readable, a later failure included, except after an early read failure; also when an earlier call has put the body together |
| Bypass.ReadAllLimited | server/internal/app/auth.go:77-82 | reads the first bytes up to the limit in any chunking, and fails exactly when the limit is beyond what is safe, whether a failure comes with the last bytes or after them |
| Bypass.Drain | server/internal/app/auth.go:83-88 | downstream reads exactly the bytes that were not read yet, buffered ones first, up to the end or the failure |
| RoleMigration.Repos.EnsureMaintainerRole | server/internal/app/migration.go:111-143 | what one member's turn does to the store, with any call failing before or after its write |
| RoleMigration.Repos.ProcessWorkspaceMembers | server/internal/app/migration.go:86-109 | the same for all users and integrations of a workspace |
| RoleMigration.Repos.ProcessUsers | server/internal/app/migration.go:59-80 | skipping processed workspaces gives the store computed without skipping, and without failures every integration ID visited can be read |
| RoleMigration.Repos.RunMigration | server/internal/app/migration.go:17-84 | the result of a whole run: the first role named maintainer, made exactly when there was none, and the store after all visits |
| RoleMigration.Repos.AllVisitsIff | server/internal/app/migration.go:61-78 | the visited members are the users and integrations of every workspace that some user belongs to |
| RoleMigration.MigrationLosesNothing | server/internal/app/migration.go:111-143 | whatever fails, no role goes, workspace roles stay, the role is added once at most and no second permittable appears |
| RoleMigration.MigrationGrantsOnlyToMembers | server/internal/app/migration.go:61-143 | whatever fails, only users and integrations of a workspace of some user get a permittable or the role |
| RoleMigration.MigrationReachesEverybody | server/internal/app/migration.go:53-109 | without failures every user and every integration of every workspace of a user holds the first role named maintainer, and each of these integration IDs can be read as a user ID |
| RoleMigration.RunTwice | server/internal/app/migration.go:17-84 | a run after one without failures saves nothing, whatever fails in it |
| Permittables.Permittable.UpdateWorkspaceRole | server/pkg/permittable/permittable.go:99-114 | exactly the first role listed for one workspace changes, or is added |
| Permittables.Permittable.RemoveWorkspaceRole | server/pkg/permittable/permittable.go:78-90 | the first role listed for one workspace goes and no other, so the workspace has none left exactly when it was listed once at most |
| NextMigration.Config.NextMigrations | server/pkg/config/config.go:20-34 | the entries above the current one in ascending order, nil when there is none, the argument unchanged |
| NextMigration.NextIsUnique | server/pkg/config/config.go:20-34 | the result is determined by what it is |
| NextMigration.NextIff | server/pkg/config/config.go:20-34 | what that means entry by entry: nil when nothing is above, else ascending with each number above as often as it was listed |
| NextMigration.ResumesAfterIff | server/pkg/config/config.go:28-31 | recording the k-th result leaves the rest of the list exactly when the number is not listed again |
| ConfigLock.MutualExclusion | server/internal/infrastructure/memory/config.go:20-55 | at most one client is between taking and releasing the mutex |
| ConfigLock.LoadsSeeTheLastWrite | server/internal/infrastructure/memory/config.go:20-46 | the configuration is what the last change left, by a save, in place or by SaveAuth; a client inside holds it, and has seen all but later SaveAuths |
| ConfigLock.OnlyHolderAndAuthChange | server/internal/infrastructure/memory/config.go:20-46 | only the holder of the mutex and SaveAuth change the configuration, each to what it was given |
| ConfigLock.NoLostUpdatesIff | server/internal/infrastructure/memory/config.go:20-46 | a client's change starts from what the change before left exactly when no SaveAuth came in between or the last one set what the client had seen; the migration number is never stale |
| ConfigLock.UnsavedEditIsSeen | server/internal/infrastructure/memory/config.go:20-24 | what a client changes in the loaded configuration is loaded by the next one, saved or not |
| ConfigLock.SaveAuthCanBeLost | server/internal/infrastructure/memory/config.go:33-41 | a client that saves a new configuration made from what it loaded undoes a SaveAuth in between |
| ConfigLock.FlagAtTestIff | server/internal/infrastructure/memory/config.go:48-54 | the flag is still set at the test exactly when no late clear came in between |
| ConfigLock.SwallowedUnlockIsForever | server/internal/infrastructure/memory/config.go:48-54 | after an unlock that found the flag cleared nobody enters again |
| ConfigLock.LateClearSwallowsUnlock | server/internal/infrastructure/memory/config.go:48-54 | two clients can reach that state |
| Members.Members.Join | server/pkg/workspace/member.go:235-258 | the new member with the role given, or reader, or the reason of the refusal; nothing else changes |
| Members.Members.Leave | server/pkg/workspace/member.go:281-294 | exactly this user goes, or the reason of the refusal |
| Members.Members.UpdateUserRole | server/pkg/workspace/member.go:200-217 | exactly the role of this user changes, to a role that there is |
| Members.Members.AddIntegration | server/pkg/workspace/member.go:260-279 | the new integration with the role given, or reader, unless it is there |
| Members.Members.UpdateIntegrationRole | server/pkg/workspace/member.go:219-233 | exactly the role of this integration changes, to a role that there is |
| Members.Members.DeleteIntegrations | server/pkg/workspace/member.go:308-331 | all or nothing, also with repeated identifiers |
| Members.Members.UsersByRole | server/pkg/workspace/member.go:333-349 | the users with a role in descending order, whatever the order of the map |
| Members.DescendingIsUnique | server/pkg/workspace/member.go:344-346 | the returned order is determined by the elements |
| Members.Members.IsOnlyOwner | server/pkg/workspace/member.go:186-191 | the user is an owner and nobody else is |
| Members.BuildMembers | server/pkg/workspace/workspace_builder.go:37-45 | the members of a built workspace and its fixed flag |
| Members.PersonalUsersNeverChange | server/pkg/workspace/member.go:200-294 | no sequence of operations changes the users of a personal workspace |
| Members.PersonalWorkspaceStays | server/pkg/workspace/initializer.go:62-76 | from the first sign-up on the creator stays the only user and the only owner |
| Members.UndoneOperations | server/pkg/workspace/member.go:235-306 | leaving undoes joining, and deleting an integration undoes adding it |
| Members.BulkIsOneByOne | server/pkg/workspace/member.go:308-331 | a bulk deletion is the deletions one by one |
| Members.TransferKeepsOwnerIff | server/internal/usecase/interactor/workspace.go:726-768 | the owners after a transfer, and exactly when one is left |
| Members.TransferIff | server/internal/usecase/interactor/workspace.go:726-768 | when a transfer goes through and what it leaves of every member, else the error |
| Members.RemoveMultipleUserMembers | server/internal/usecase/interactor/workspace.go:397-433 | the members left and the first error, as removing one by one gives them |
| Members.RemovalIff | server/internal/usecase/interactor/workspace.go:422-433 | a removal goes through exactly when nobody is listed twice, everybody is a member and the operator is not the only owner when it is their turn; then exactly those listed are gone |
| Members.RemovalStopsAtFirst | server/internal/usecase/interactor/workspace.go:422-433 | a removal that does not go through stops at the first that cannot be removed, with the error that fits |
| Members.RemovalKeepsOwnerIff | server/internal/usecase/interactor/workspace.go:422-433 | after an accepted removal an owner is left exactly when some owner is not listed |
| Members.LastOwnerCanBeRemovedIff | server/internal/usecase/interactor/workspace.go:422-433 | when all owners are listed the removal is refused exactly when the operator is the last owner in the list |
| Members.UpdateViaServiceKeepsOwner | server/internal/usecase/interactor/workspace.go:557-585 | a role change through the service keeps an owner |
| Members.UpdateViaServiceIff | server/internal/usecase/interactor/workspace.go:557-585 | when the change goes through and what it leaves, else the error |
| UserAuths.User.AddAuth | server/pkg/user/user.go:121-131 | a record is appended unless its provider has one |
| UserAuths.User.RemoveAuth | server/pkg/user/user.go:133-145 | the record is shifted out in place, never an auth0 one, and no list handed out changes |
| UserAuths.User.RemoveAuthByProvider | server/pkg/user/user.go:159-171 | the same by provider |
| UserAuths.BuildUser | server/pkg/user/user_builder.go:113-118 | the first record of each provider in the builder's list, in order |
| UserAuths.RunOps | server/pkg/user/user.go:90-176 | lists handed out keep what they showed through any operations |
| UserAuths.RunKeepsOnePerProvider | server/pkg/user/user.go:121-176 | providers stay pairwise distinct |
| UserAuths.Auth0StaysUntilCleared | server/pkg/user/user.go:133-176 | the auth0 record goes only when all records are cleared |
| UserAuths.RemovalIsFilter | server/pkg/user/user.go:159-171 | a removal takes out the records of the provider and no other |
| UserAuths.AddThenRemove | server/pkg/user/user.go:121-145 | removing an added record restores the list |
| UserAuths.ListRemoveIff | server/pkg/user/auth.go:100-106 | the removal on a plain list works exactly when the match comes first |
| Paginations.OffsetIsExactIff | server/pkg/pagination/pagination.go:8-29 | the limit is from 1 to 100, and the offset exact exactly when it fits into 64 bits |
| Paginations.WhatIsAskedFor | server/pkg/pagination/pagination.go:8-29 | the limit is what was asked for from 1 to 100, at most 100 and 50 by default, and the offset is right but for a multiple of 2 to the 64 |
| Paginations.HugePageOverflows | server/pkg/pagination/pagination.go:25-29 | the largest page number gives a negative offset |
| Paginations.PagesCutTheList | server/internal/infrastructure/memory/workspace.go:78-87 | consecutive pages are consecutive pieces of the list |
| Paginations.AllPagesMakeTheList | server/pkg/pagination/pagination.go:8-29 | the pages up to the last make up the whole list |

## Left out

- The runtime of the GraphQL library (field collection, dispatch, resolver calls, error lists, transports) is not part of this model; a response tree or a tree of deferred groups stands for what it does, and the handler is called by one caller at a time.
- The deferred counters are unbounded integers; more than 2^31 outstanding groups are not modelled.
- Panics in resolvers and deferred fields are not part of the null propagation model.
- The GraphQL parser library is not part of this model; the parser here follows sections 2.1 to 2.12 of the specification, and rejects an empty document, which the decision rejects in any case.
- JSON decoding, e-mail parsing, lower-casing of single characters and the reading of an integration ID as a user ID are arbitrary functions; BuildTwice assumes that normalising is idempotent, and the address of a sign-in is taken as normalised; new identifiers are unique.
- The nil operator and the nil receiver of the methods of administrators, permittables and login records are not modelled.
- The nil-ness of an operator's lists is modelled with the filter, on values; the class with shared arrays does not distinguish a nil slice from an empty one.
- Members, permittables and the stored records of the migration are values in their maps, so sharing of a record between the repository and its readers is not modelled.
- The verification of the identity token and the domain check of a sign-in are left out, as is the migration that gives roles to old administrators; whether an address is a bootstrap address is arbitrary.
- SaveAuth is one atomic step; its data races with a holder of the lock are not modelled.
- RemoveMultipleUserMembers: the permission check and the removal of permittables are left out.
- Members: the lock of the members is not modelled; each method body is one atomic section.
- FilterByID and the filters by integration role repeat the loops that are modelled.
- The update times of permittables in the migration are arbitrary, and those of workspaces are left out.
- The rest of the use cases, permission checks, HTTP and GraphQL adapters, storage backends other than the in-memory ones, and password handling are left out.
- The standard library's sorts are modelled by insertion; only their result matters.
