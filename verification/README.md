# Policy and administrator engine of the enterprise device manager: a verified model

This project models the engine of the enterprise device manager (EDM) service and proves properties of it: the
policy store and its caches, the pipeline that runs plugins over it, the concurrency of both, and the life cycle of
the administrators that own the policies. Two list serializers and the address recognisers the engine relies on are
modelled with it.

How it is built. What the service updates in place is a class here (`DevicePoliciesStorageRdb`, `UserPolicyManager`,
`PolicyManager`, `PluginManager`, `PluginTable`, `ConflictGroupRegistry`, `AdminContainer`, `AdminPoliciesStorageRdb`,
`AdminManager`, `EnterpriseDeviceMgrAbility`), and every method states its whole new state as a function of the old
one. The laws are lemmas about those functions, over every input, run or interleaving. How a storage call ends
(no storage, failed, done), what other services answer, and the order in which an unordered map is walked are inputs
or left arbitrary. The two concurrent parts are transition systems whose steps are the lock operations, reads,
plugin code and writes of one thread.

| file | what it holds |
|---|---|
| `PolicyModel`, `StoreLaws`, `PolicyStore` | tables as rows without uniqueness, one user's three maps, their operations, and the laws under failing storage |
| `ManagerModel`, `PolicyManager` | managers created lazily per user, refining one map |
| `PipelineModel`, `Pipeline`, `PipelineLaws`, `NotificationPlugin` | read, merge, execute, save; events; removal; what each leaves of a policy; the combined-value invariant, one kind of plugin that keeps it and one that does not |
| `ConflictGroups`, `PolicyCells`, `Serialisability`, `StripeOrder` | stripe locks, what one save touches, and serialisability of concurrent updates in the order of their saves and of their stripes |
| `PluginLibrary`, `PluginRegistry`, `RegistryLinks` | unloading of plugin libraries against running calls; registration, and extension links over all runs |
| `AdminModel`, `AdminStore`, `AdminLaws`, `RosterSync` | the roster, its table, who is found and what is saved, and when a restart loads what is in memory |
| `LifecycleModel`, `LifecycleLaws`, `LifecycleSafety` | enabling, authorising, delegating, replacing, disabling: when each succeeds, who is found then, and roster safety over all runs |
| `ReplacementLaws`, `Rollback`, `KeepPolicy` | who is the super administrator after a replacement, what a restart loads then, and what a rollback restores |
| `CascadeModel`, `CascadeLaws`, `Ability` | removal of an administrator with its children and policies, who goes along, and the life-cycle methods of the service |
| `Decimal`, `Sorting`, `ManageApps`, `NotificationMerge` | merge and list operations of two policy serializers |
| `Regex`, `IpAddress` | a language semantics of regular expressions and exactly which addresses are accepted |

Findings, each with its exact condition, a concrete input or both; the runs start from an empty store, roster or
registry:

- A failed write of an administrator's policy leaves its value in the policy-to-administrator index
  (`FailedWriteKeepsIndexIff`), and such an entry outlives a completed delete when the administrator owns nothing
  (`DeleteClearsIndexIff`). With it, concurrent saves of unrelated policies may show in which order they came
  (`SavesCommuteIff`, `CrossingShowsIff`, `StaleEntryShowsOrder`).
- Replacing an administrator by one that owns policies already breaks maps and rows apart (`ReplaceMirrorsIff`,
  `ReplaceRevivesValue`).
- An event handler that leaves its arguments alone, as those of the auto-start and keep-alive lists do when a bundle
  that is not in the administrator's list is removed from the device, makes the combined value forget the
  administrator's own value (`IdleEventKeepsMergedIff`, `ForeignRemovalLosesValue`).
- A removal of an administrator under a user whose manager fails its first load reports success and leaves the rows,
  which the next start brings back (`RemovalFindsIff`, `MissedComesBack`).
- A replacement that keeps the policies rewrites the first occurrence of the old name in the uninstall list, which is
  in another application's identifier when that begins with the name and comes first (`RewritesPlaceIff`,
  `ReplacementRewritesAnother`).
- Setting allowed notification bundles leaves out of the combined value what the administrator had allowed before
  (`SetKeepsOwnBundlesIff`, `OwnBundlesLost`).
- The limit of 200 bundles is checked on the wrong list when nobody else has named the user (`SetSucceedsIff`,
  `LimitIsMissed`).
- Closing one extra library unregisters the plugins of the others while these stay open, so that calls do not find
  their plugins until their own library is closed too and loaded again (`FoundIff`, `ExtraLibraryLosesItsPlugins`).
- A base plugin that is reloaded loses its extension, and keeps its strategy in a built-in library only
  (`ReloadedBaseLosesLink`, `ReloadedBaseIsAlone`).
- Updates do not store an emptied enterprise name, description or class name, the default running mode or a
  non-virtual administrator's policies (`StepSyncIff`, `SavedAgainKeepsName`).
- The delegation without a parent administrator mixes debug and official administrators (`DelegateDirectSafeIff`,
  `DelegationMixesModes`).
- After a replacement that keeps the policies the roster keeps the old administrator's permissions until a restart
  loads the new ones (`ReplacementSyncIff`, `ReplacementKeepsPermissions`).
- A replacement that fails half-way leaves the children it got to under the new name in the table, where a restart
  finds them (`FailedReplacementSyncIff`).
- Rolling back a replacement takes over children that named the new administrator before (`RollbackRestoresIff`,
  `RollbackTakesChild`).
- Saving an administrator under another user by a name that the default user has for all accounts answers success and
  does not show, so that policies delegated again for another user are lost (`SavedIsFound`,
  `DelegatedAgainElsewhere`).
- What a super administrator delegated policies to for another user outlives its removal
  (`DelegatedElsewhereStays`).
- The union of managed applications takes different applications for one (`UnionKeepsAllIff`, `UnionKeysCollide`).
- The IPv6 prefixes 109 and 119 are refused (`PrefixIs`).

Where code and comments differ, the code is followed: the comment above the row update in
`services/edm/src/device_policies_storage_rdb.cpp:132` speaks of the policy value where the administrator name is
written.

## Model

| member | source | states |
|---|---|---|
| `StoreLaws.RunRefinesTables` | services/edm/src/user_policy_manager.cpp:109-229 | After any sequence of `SetPolicy` calls, any storage call failing or unavailable, the two value maps hold exactly the user's rows (one row per entry, no empty inner map), and a manager started afresh on the tables loads exactly those two maps. |
| `StoreLaws.InitRebuilds` | services/edm/src/user_policy_manager.cpp:323-333 | The two cursor loops rebuild the maps of a mirrored cache and build the exact transpose as the index. |
| `StoreLaws.InitMirrors` | services/edm/src/device_policies_storage_rdb.cpp:158-215 | Rows without duplicates are all a load needs to give a mirror whose index is exact. |
| `StoreLaws.LoadedEntries` | services/edm/src/device_policies_storage_rdb.cpp:191-215 | From distinct rows the inserts put an entry in the map exactly when its row exists, and the index agrees entry by entry. |
| `StoreLaws.FirstRowCounts` | services/edm/src/device_policies_storage_rdb.cpp:191-215 | When a pair of administrator and policy has several rows, as after a replacement by an owner of policies, the first row counts, in the map and in the index; without a row there is no entry. |
| `StoreLaws.FirstCombinedCounts` | services/edm/src/device_policies_storage_rdb.cpp:268-295 | The same for combined rows. |
| `StoreLaws.RunIndex` | services/edm/src/user_policy_manager.cpp:88-211 | From an exact start, in every run, failures included, the index agrees with the value map except at entries a failed write of an administrator's policy left behind, and always has every key of the transpose. |
| `StoreLaws.RunIndexExact` | services/edm/src/user_policy_manager.cpp:88-143 | Without a failed write of an administrator's value the index is exactly the transpose after every run; failed deletes do no harm. |
| `StoreLaws.FailedWriteKeepsIndexIff` | services/edm/src/user_policy_manager.cpp:109-143 | A failed write leaves the index exact if and only if the value was stored already: the index is written before the row. |
| `StoreLaws.DeleteClearsIndexIff` | services/edm/src/user_policy_manager.cpp:185-211 | A completed delete leaves no index entry if and only if the administrator still owned some policy or there was none: stale index entries of an administrator without policies survive. |
| `StoreLaws.ReplaceAnswers` | services/edm/src/user_policy_manager.cpp:231-260 | The reply to a replacement: the code of its one row call, and nothing changed when that is not done. |
| `StoreLaws.SetPolicyAnswers` | services/edm/src/user_policy_manager.cpp:291-321 | The reply to a save: a missing policy name is refused with nothing changed; with an administrator the code is that of its own write or delete, without one that of the combined value's. |
| `StoreLaws.SetPolicyOtherUser` | services/edm/src/user_policy_manager.cpp:291-321 | A `SetPolicy` of one user changes nothing that another user has or would load. |
| `StoreLaws.ReplaceMirrorsIff` | services/edm/src/user_policy_manager.cpp:231-260 | A completed replacement keeps maps and rows in step if and only if the names are equal or at least one of them owns nothing. |
| `StoreLaws.ReplaceRevivesValue` | services/edm/src/user_policy_manager.cpp:231-260 | Such a case from an empty store: two administrators set one policy, the second takes over the name of the first, and a restart brings back the other value. |
| `StoreLaws.ReplaceKeepsMirror` | services/edm/src/user_policy_manager.cpp:231-260 | In those cases the replacement is a renaming: the new name has the old one's entries, the old name none, every other entry is as it was. |
| `StoreLaws.ReplaceKeepsTranspose` | services/edm/src/user_policy_manager.cpp:244-258 | The two separate renaming loops keep the index the exact transpose of the value map. |
| `StoreLaws.ReplaceBackIsIdentity` | services/edm/src/user_policy_manager.cpp:231-260 | Renaming to a name that owns nothing and back restores maps, index and rows. |
| `StoreLaws.UpdateAdminRowsMember` | services/edm/src/device_policies_storage_rdb.cpp:104-121 | Which rows there are after an update: every matching row with the new value, when there was one, and every other row as it was. |
| `StoreLaws.DeleteAdminRowsMember` | services/edm/src/device_policies_storage_rdb.cpp:141-156 | Which rows there are after a delete: exactly those that do not match. |
| `StoreLaws.RenameRowsMember` | services/edm/src/device_policies_storage_rdb.cpp:123-139 | Which rows there are after a renaming: those of the old name under the new one, and all others of any user as they were. |
| `StoreLaws.UpdateCombinedRowsMember` | services/edm/src/device_policies_storage_rdb.cpp:235-251 | The same for an update of combined rows. |
| `StoreLaws.DeleteCombinedRowsMember` | services/edm/src/device_policies_storage_rdb.cpp:253-266 | The same for a delete of combined rows. |
| `PolicyStore.DevicePoliciesStorageRdb.QueryAdminPolicy` | services/edm/src/device_policies_storage_rdb.cpp:158-215 | The cursor loop computes the two folds of `LoadedEntries` over the user's rows in table order. |
| `PolicyStore.DevicePoliciesStorageRdb.QueryCombinedPolicy` | services/edm/src/device_policies_storage_rdb.cpp:268-295 | The cursor loop keeps the first row of each policy. |
| `PolicyStore.DevicePoliciesStorageRdb.QueryAllUserId` | services/edm/src/device_policies_storage_rdb.cpp:297-323 | The users that own an administrator-policy row, each once. |
| `PolicyStore.UserPolicyManager.Init` | services/edm/src/user_policy_manager.cpp:323-333 | The cache and nothing else changes, to what the two queries give; the second is not tried after a failed first. |
| `PolicyStore.UserPolicyManager.GetAdminByPolicyName` | services/edm/src/user_policy_manager.cpp:33-41 | The index entry, or the not-found code with nothing. |
| `PolicyStore.UserPolicyManager.GetAllPolicyByAdmin` | services/edm/src/user_policy_manager.cpp:43-51 | All values of one administrator, or the not-found code with nothing. |
| `PolicyStore.UserPolicyManager.GetPolicy` | services/edm/src/user_policy_manager.cpp:53-86 | The combined value for an empty administrator name, the administrator's own otherwise. |
| `PolicyStore.UserPolicyManager.SetAdminList` | services/edm/src/user_policy_manager.cpp:88-107 | Exactly one index entry is written. |
| `PolicyStore.UserPolicyManager.SetAdminPolicy` | services/edm/src/user_policy_manager.cpp:109-143 | New maps, rows and code; a failed row call leaves the index written and the rest as it was. |
| `PolicyStore.UserPolicyManager.SetCombinedPolicy` | services/edm/src/user_policy_manager.cpp:145-164 | Row first, map after: a failed row call changes nothing. |
| `PolicyStore.UserPolicyManager.DeleteAdminPolicy` | services/edm/src/user_policy_manager.cpp:185-211 | New maps, rows and code; the index is only looked at while the administrator has policies. |
| `PolicyStore.UserPolicyManager.DeleteCombinedPolicy` | services/edm/src/user_policy_manager.cpp:213-229 | Row first, map after. |
| `PolicyStore.UserPolicyManager.SetPolicy` | services/edm/src/user_policy_manager.cpp:291-321 | Combined value first, then the administrator's; the code of the first is lost when a name is given. |
| `PolicyStore.UserPolicyManager.ReplacePolicyByAdminName` | services/edm/src/user_policy_manager.cpp:231-260 | New maps, rows and code of a replacement, the index walked in any order. |
| `PolicyStore.UserPolicyManager.RenameInAdminLists` | services/edm/src/user_policy_manager.cpp:250-258 | Walking and rewriting the index in place gives the renamed index whatever the order. |
| `ManagerModel.SetPolicyRefinesMap` | services/edm/src/policy_manager.cpp:67-74 | With any outcome of the row calls, one `SetPolicy` moves at most the named entry of the one map from user, administrator and policy to value, over all users loaded or not, and every user's maps keep mirroring the rows. |
| `ManagerModel.ReplaceRefinesMap` | services/edm/src/policy_manager.cpp:84-89 | The same for a replacement: entries move from the old to the new name for the given user only. |
| `ManagerModel.LazyLoadingUnobservable` | services/edm/src/policy_manager.cpp:91-111 | After any run of reads, writes and replacements, any call gives the same answer and the same tables whether the users' managers were loaded at the start or at first use, when each user's load ends the same way, complete, in part or not at all. |
| `ManagerModel.StartUpCoversIff` | services/edm/src/enterprise_device_mgr_ability.cpp:615-633 | After start-up the managed users and the default user cover every owner of a row if and only if the user-id query succeeded or only the default user owns rows. |
| `ManagerModel.StartUpBuilds` | services/edm/src/policy_manager.cpp:50-65 | Start-up leaves the rows alone, keeps the managers other users have, gives a new user the manager of its first load, and builds the default user's anew. |
| `ManagerModel.RunKeepsCoverage` | services/edm/src/policy_manager.cpp:113-119 | That coverage holds after every run. |
| `ManagerModel.ConsistentIsAllMirror` | services/edm/src/policy_manager.cpp:91-111 | Loaded caches mirroring their rows and duplicate-free rows of the others is the same as every user's present or future cache mirroring. |
| `PolicyManagers.PolicyManager.GetUserPolicyMgr` | services/edm/src/policy_manager.cpp:91-111 | Creates and loads the user's manager at first use, and no other manager changes. |
| `PolicyManagers.PolicyManager.Init` | services/edm/src/policy_manager.cpp:50-65 | Rebuilds the default user's manager and keeps existing managers of other users. |
| `PolicyManagers.PolicyManager.SetPolicy` | services/edm/src/policy_manager.cpp:67-74 | The whole new state of tables and all caches, and the code. |
| `PolicyManagers.PolicyManager.ReplaceAllPolicy` | services/edm/src/policy_manager.cpp:84-89 | The whole new state of a replacement, and the code. |
| `PolicyManagers.PolicyManager.GetPolicy` | services/edm/src/policy_manager.cpp:42-48 | The value in the user's present or just loaded cache. |
| `PolicyManagers.PolicyManager.GetAdminByPolicyName` | services/edm/src/policy_manager.cpp:34-40 | The holders in the user's present or just loaded cache. |
| `PolicyManagers.PolicyManager.GetAllPolicyByAdmin` | services/edm/src/policy_manager.cpp:76-82 | The values in the user's present or just loaded cache. |
| `PolicyManagers.PolicyManager.GetPolicyUserIds` | services/edm/src/policy_manager.cpp:113-119 | The managed users other than the default one, each once. |
| `PolicyManagers.InitAllPolices` | services/edm/src/enterprise_device_mgr_ability.cpp:615-633 | Start-up gives a manager indistinguishable from a lazily loaded one, however the loads end, and coverage exactly in the cases of `StartUpCoversIff`. |
| `PipelineModel.RunKeepsMergedValues` | services/edm/src/plugin_manager.cpp:662-690 | Along every run of updates, event dispatches, administrator removals and fresh-name replacements over all users and all plugins, the combined value of every policy whose plugin merges is the merge over all administrators holding it, and is absent exactly when that merge is empty; what plugins that do not merge save for their own policies does not matter. |
| `PipelineModel.UpdateKeepsAll` | services/edm/src/plugin_manager.cpp:662-690 | One update of any plugin keeps this for the policy written, when its plugin merges, and for all others. |
| `PipelineModel.EventRoundsKeepAll` | services/edm/src/plugin_manager.cpp:799-821 | A dispatch over any order of the holders read before the loop keeps it. |
| `PipelineModel.RemoveKeepsAll` | services/edm/src/plugin_manager.cpp:724-748 | A removal keeps it, in the branch that clears only the combined value as well. |
| `PipelineModel.ReplaceKeepsAll` | services/edm/src/user_policy_manager.cpp:231-260 | A replacement under a name that owns nothing keeps it. |
| `PipelineModel.IdleEventKeepsMergedIff` | services/edm/src/plugin_manager.cpp:799-821 | A round of dispatch in which the event handler leaves its arguments alone saves the merge of the others as the combined value and keeps the holders, so the combined value stays right if and only if the administrator's own value does not matter to the merge. |
| `PipelineModel.ForeignRemovalLosesValue` | services/edm_plugin/src/application_manager/manage_auto_start_apps_plugin.cpp:484-496 | Such a case from an empty store: one administrator has an auto-start list saved, some bundle that is not in it is removed from the device, the handler returns at once, and the combined value is gone while the administrator still holds the list. |
| `PipelineModel.BasicBoolIsMerging` | interfaces/inner_api/plugin_kits/src/basic_bool_plugin.cpp:28-112 | The switch plugins of the service meet the contract assumed of plugins, whatever the device answers. |
| `PipelineModel.ValuesRename` | services/edm/src/user_policy_manager.cpp:250-258 | Renaming an owner to a free name keeps the multiset of values that is merged. |
| `NotificationPlugin.WholeListsAreMerging` | interfaces/inner_api/plugin_kits/include/iplugin_template.tpp:138-221 | A plugin with the notification merge and any serializer that reads back what it wrote meets the contract when its handler merges the others' merge with the administrator's whole new list. |
| `NotificationPlugin.MergedWithOne` | interfaces/inner_api/plugin_kits/include/iplugin_template.tpp:184-221 | The step behind it: the merge with one more value is the merge of the merge and that value's list. |
| `NotificationPlugin.MergeOfIs` | interfaces/inner_api/application_manager/src/allowed_notification_bundles_serializer.cpp:136-159 | Inserting entry by entry into an ordered list computes the merge of the serializer. |
| `NotificationPlugin.SetKeepsOwnBundlesIff` | services/edm_plugin/src/application_manager/allowed_notification_bundles_plugin.cpp:48-96 | The set handler of the service saves a merged value that trusts all that the others and the administrator's new list trust if and only if every bundle the administrator trusted before is trusted by another one or asked for again. |
| `NotificationPlugin.SetSucceedsIff` | services/edm_plugin/src/application_manager/allowed_notification_bundles_plugin.cpp:48-96 | When the set handler succeeds, for every stored and asked list: the size that counts is that of the others' list of the user with the request, and when the others do not name the user, of the administrator's first list, whosever it is; a refusal changes nothing. |
| `NotificationPlugin.LimitIsMissed` | services/edm_plugin/src/application_manager/allowed_notification_bundles_plugin.cpp:78-87 | So a list of any length is accepted for a user nobody else has named from an administrator whose first list is another user's, and refused when it is its first list. |
| `NotificationPlugin.OwnBundlesLost` | services/edm_plugin/src/application_manager/allowed_notification_bundles_plugin.cpp:48-96 | Such a case from an empty store: one administrator asks for one bundle and then for another; its own value holds both, the combined value only the second. |
| `Pipeline.PluginManager.GetOthersMergePolicyData` | interfaces/inner_api/plugin_kits/include/iplugin_template.tpp:184-221 | The merge of the other administrators' non-empty values in any order of the map, and the empty text when there is no other. |
| `Pipeline.PluginManager.UpdateDevicePolicy` | services/edm/src/plugin_manager.cpp:644-690 | The new state and reply of read, merge, execute and save; the reply ignores the result of the save. |
| `Pipeline.PluginManager.RemoveAdminItem` | services/edm/src/plugin_manager.cpp:714-758 | The new state and reply of a removal; the handler's own error does not matter. |
| `Pipeline.PluginManager.DispatchForAdmins` | services/edm/src/plugin_manager.cpp:799-821 | The rounds run over the values read before the loop, each on the state the round before left; `PipelineLaws.DispatchLeaves` says what that is. |
| `ConflictGroups.GroupsAreDisjoint` | services/edm/src/conflict_group_registry.cpp:31-160 | No policy code is registered in two groups, so the order of the registrations does not matter. |
| `ConflictGroups.GroupOfIs` | services/edm/src/conflict_group_registry.cpp:162-169 | The lookup gives a stripe in range, the one group a code belongs to, and stripe 0 for codes of no group. |
| `ConflictGroups.ConflictGroupRegistry.constructor` | services/edm/src/conflict_group_registry.cpp:31-160 | The twelve registrations fill the map that `GroupOf` describes. |
| `ConflictGroups.ConflictGroupRegistry.GetConflictGroupId` | services/edm/src/conflict_group_registry.cpp:162-169 | The lookup is `GroupOf`, with group 0 for an unknown code. |
| `PolicyCells.OtherPolicyKept` | services/edm/src/user_policy_manager.cpp:291-321 | Whatever the maps hold and however the two row calls end, a save of one policy leaves everything of every other policy of the user alone: index entry, combined value, administrators' values and rows. |
| `PolicyCells.OwnCellAfter` | services/edm/src/user_policy_manager.cpp:185-321 | What a save makes of its own policy is a function of what there is of that policy, unless it deletes an entry that only the index has for an administrator who owns nothing. |
| `PolicyCells.GoodAfter` | services/edm/src/user_policy_manager.cpp:88-321 | An exact index stays exact unless the write of a value fails. |
| `PolicyCells.SavesCommuteIff` | services/edm/src/user_policy_manager.cpp:88-321 | From any maps without empty inner maps and with any outcomes, two saves of different policies give the same maps in both orders if and only if neither clashes with the other: one deletes an entry that only the index has while the other decides whether the same administrator owns anything. |
| `Serialisability.Serialisable` | services/edm/src/plugin_manager.cpp:644-690 | For any number of concurrent `UpdateDevicePolicy` calls, any outcomes of their row calls and of first loads, any store at the start and any interleaving of their pin, lock, read, execute, save and release steps: once all are finished, tables and every user's caches are those of running the saving calls one at a time in the order of their saves, each saving call is run exactly once and gets the reply it got, and the calls of one conflict group are run in the order in which they took their stripe. |
| `Serialisability.RunKeeps` | services/edm/src/plugin_manager.cpp:656-690 | The invariant behind it: stripe ownership, what a holder has read is still so, and the store is the serial run of the calls that are through with it. |
| `Serialisability.Completable` | services/edm/src/plugin_manager.cpp:656-661 | No interleaving gets stuck: each can be continued until every call is finished, so the theorem speaks of every set of calls. |
| `Serialisability.AtomicFrame` | services/edm/src/conflict_group_registry.cpp:162-169 | Under any outcomes a call leaves every other group's policies alone. |
| `StripeOrder.SerialisableByStripes` | services/edm/src/plugin_manager.cpp:644-690 | From exact indexes, and when no call fails to write a value, every user's caches are also those of running the saving calls in the order in which they took their stripes, the rows are as multisets, and each call got the reply it gets there. |
| `StripeOrder.NoFailureIsClean` | services/edm/src/plugin_manager.cpp:644-690 | No call fails to write a value when none of the administrators' row calls fails, whatever the calls decide. |
| `StripeOrder.GoodIff` | services/edm/src/user_policy_manager.cpp:323-333 | The start meets the condition if and only if the caches loaded so far have exact indexes: every first load gives one, however it ends. |
| `StripeOrder.CrossingShowsIff` | services/edm/src/plugin_manager.cpp:656-690 | When two calls of one user and of different groups cross, so that the one that took its stripe first saves last, the user's cache is that of the run in stripe order if and only if neither save clashes with the other. |
| `StripeOrder.Cross` | services/edm/src/plugin_manager.cpp:656-661 | Any two saving calls of different groups have an execution in which they cross. |
| `StripeOrder.StaleEntryShowsOrder` | services/edm/src/user_policy_manager.cpp:109-211 | From an empty store one write fails, and then the deletion of that policy and a save of a policy of another group cross: the index entry the failed write left is gone, while the run in stripe order keeps it. |
| `StripeOrder.ProjectRun` | services/edm/src/plugin_manager.cpp:656-661 | What one group sees of such a run is what it sees of its own calls run alone. |
| `StripeOrder.MergeClean` | services/edm/src/plugin_manager.cpp:656-690 | Whether some call fails to write a value shows in the calls of its group alone. |
| `StripeOrder.AtomicLocal` | services/edm/src/conflict_group_registry.cpp:162-169 | From exact indexes the decision of a call and its effect on its group depend on nothing but that group's policies. |
| `PluginLibrary.NoCloseWhileRunning` | services/edm/src/plugin_manager.cpp:383-391 | In no interleaving does a step close a library while any thread runs plugin code, under the shared pin or under the mutex. |
| `PluginLibrary.PinnedInTimeFindsPlugin` | services/edm/src/plugin_manager.cpp:386-387 | A request that pinned while none of its load stamps was 180000 ms old, or a call under the mutex, finds its plugin registered and its library open as long as it runs. |
| `PluginLibrary.FoundIff` | services/edm/src/plugin_manager.cpp:343-371 | When the loading of a call is over, its plugin is registered if and only if, at the moment the call took the mutex, it was registered or its library was not open; nobody can close a library in between. |
| `PluginLibrary.BuiltInIsFound` | services/edm/src/plugin_manager.cpp:343-371 | So the plugin of a built-in library is always registered then. |
| `PluginLibrary.NoWaitCycle` | services/edm/src/plugin_manager.cpp:647-661 | In every reachable state a chain of waits for pin, stripes, mutex and wait mutexes never returns to its start, and is at most five threads long. |
| `PluginLibrary.NoDeadlock` | services/edm/src/plugin_manager.cpp:373-393 | In every reachable state with a blocked thread, some thread that holds a lock has a step that makes progress. |
| `PluginLibrary.LatePinCanFindLibraryClosed` | services/edm/src/plugin_manager.cpp:386-391 | The limit is exact: an execution in which a request pins 180000 ms after its stamp and its library is closed. |
| `PluginLibrary.ExtraLibraryLosesItsPlugins` | services/edm/src/plugin_manager.cpp:452-466 | The other case happens: closing one extra library unregisters the plugins of another, which stays open and is therefore not registered again by the next load. |
| `PluginRegistry.OrderDoesNotMatter` | services/edm/src/plugin_manager.cpp:238-281 | For distinct objects, codes and names and at most one extension per base, every permutation of the registrations gives the same four maps, extension links and strategies. |
| `PluginRegistry.Commute` | services/edm/src/plugin_manager.cpp:238-281 | Two such registrations can be exchanged in any registry they are new to. |
| `PluginRegistry.OrderHiddenIff` | services/edm/src/plugin_manager.cpp:238-281 | For registrations of different plugins the order does not show, in any permutation, if and only if no two of them extend one base. |
| `PluginRegistry.TwoExtensionsShowOrder` | services/edm/src/plugin_manager.cpp:263-281 | In any registry that does not know them, of two extensions of one base the base keeps the last one registered after it, or the first one registered before it. |
| `PluginRegistry.RunKeepsBoth` | services/edm/src/plugin_manager.cpp:436-490 | With one name per code, through any registrations and unloads of built-in and extra libraries what is registered under a code is registered under its name, and nothing else has a name. |
| `PluginRegistry.ReloadedBaseLosesLink` | services/edm/src/plugin_manager.cpp:436-490 | A base that is unloaded and registered again has no link to its extension, and keeps the strategy its extension asked for if and only if its library was a built-in one: unloading an extra library clears both extension maps. |
| `PluginRegistry.ReloadedBaseIsAlone` | services/edm/src/plugin_manager.cpp:436-490 | Such a case from an empty registry: the extension is still registered and the base runs by the extension's strategy without having an extension. |
| `PluginRegistry.PluginTable.AddPlugin` | services/edm/src/plugin_manager.cpp:238-261 | The whole new registry; a plugin without permissions is not registered. |
| `PluginRegistry.PluginTable.AddExtensionPlugin` | services/edm/src/plugin_manager.cpp:263-281 | The whole new registry, the base's link and strategy included. |
| `PluginRegistry.PluginTable.RemovePlugin` | services/edm/src/plugin_manager.cpp:543-562 | The whole new registry after an unload of one plugin; `RegistryLinks.UnloadedExtensionIsUnlinked` says that the base of an extension loses its link. |
| `PluginRegistry.PluginTable.UnloadCodes` | services/edm/src/plugin_manager.cpp:455-466 | The whole new registry after the loop over the codes of a library, with both extension maps cleared first when the library is an extra one; links stay right by `RegistryLinks.StepKeepsLinks`. |
| `AdminStore.AdminContainer.SetAdminByUserId` | services/edm/src/admin_container.cpp:49-62 | Appends the administrator the type's class makes of the information, and nothing for an unknown type. |
| `AdminStore.AdminContainer.DeleteAdmin` | services/edm/src/admin_container.cpp:64-80 | Removes every entry of the name and the user with the last one. |
| `AdminStore.AdminContainer.GetAdminCopyByUserId` | services/edm/src/admin_container.cpp:82-98 | Copies in order, and whether the user has a list. |
| `AdminStore.AdminContainer.UpdateAdmin` | services/edm/src/admin_container.cpp:167-214 | Changes the flagged fields of every entry of the name and nothing else. |
| `AdminStore.AdminContainer.UpdateParentAdminName` | services/edm/src/admin_container.cpp:216-233 | The whole new container; `AdminLaws.ParentMoves` says that exactly the sub super and virtual administrators under the old parent move. |
| `AdminStore.AdminContainer.InitAdmins` | services/edm/src/admin_container.cpp:235-249 | Every user read from the table gets a new list, in any order of the users. |
| `AdminStore.AdminContainer.GetSuperDeviceAdminAndDeviceAdminCount` | services/edm/src/admin_container.cpp:307-320 | The number of super and device administrators of the default user. |
| `AdminStore.AdminPoliciesStorageRdb.QueryAllAdmin` | services/edm/src/admin_policies_storage_rdb.cpp:281-312 | The rows grouped by user in table order; stored lists longer than 10000 read as empty. |
| `AdminStore.AdminManager.GetAdminByPkgName` | services/edm/src/admin_manager.cpp:94-115 | For another user than the default one, first the default user's administrators that work across accounts, then the user's own. |
| `AdminStore.AdminManager.SetAdminValue` | services/edm/src/admin_manager.cpp:71-92 | Insert or update of row and roster; nothing moves when the row call fails. |
| `AdminStore.AdminManager.UpdateAdmin` | services/edm/src/admin_manager.cpp:139-152 | Row first, roster after. |
| `AdminStore.AdminManager.UpdateAdminPermission` | services/edm/src/admin_manager.cpp:154-159 | Only the permissions of roster and row change. |
| `AdminStore.AdminManager.DeleteAdmin` | services/edm/src/admin_manager.cpp:117-137 | Row first, roster after; an unknown user is told apart. |
| `AdminStore.AdminManager.SetEntInfo` | services/edm/src/admin_manager.cpp:413-427 | Row first, roster after. |
| `AdminStore.AdminManager.SaveSubscribeEvents` | services/edm/src/admin_manager.cpp:429-457 | The whole new roster and rows, the row written only when the number of events grows; `AdminLaws.SubscribeLeaves` says which events there are. |
| `AdminStore.AdminManager.RemoveSubscribeEvents` | services/edm/src/admin_manager.cpp:459-487 | The whole new roster and rows, the row written only when the number of events shrinks; `AdminLaws.UnsubscribeLeaves` says which are left. |
| `AdminStore.AdminManager.GetSubSuperAdminsByParentName` | services/edm/src/admin_manager.cpp:393-411 | The names of the children under the default user, in order, without changing anything; `AdminLaws.ChildrenAreListed` says who they are. |
| `AdminStore.AdminManager.ReplaceSuperAdminByPackageName` | services/edm/src/admin_manager.cpp:161-193 | The children's rows first, up to the first failure, then the administrator's row, then the roster. |
| `AdminStore.AdminManager.Init` | services/edm/src/admin_manager.cpp:536-544 | The roster after a start. |
| `RosterSync.SyncIsRestart` | services/edm/src/admin_policies_storage_rdb.cpp:281-421 | The entry-by-entry relation used here is the same as: the roster is what a restart would load. |
| `RosterSync.StepSyncIff` | services/edm/src/admin_policies_storage_rdb.cpp:142-210 | Each completed insert, update, permission update, enterprise-information update, subscription, unsubscription and delete keeps the roster equal to what a restart would load if and only if a condition on the call and the present entries holds: what the update columns skip is not changed, and stored lists are not longer than 10000. |
| `RosterSync.SetValueSyncIff` | services/edm/src/admin_policies_storage_rdb.cpp:142-210 | The exact condition for saving an administrator: an empty enterprise name, description or class name, the default running mode and the policies of a non-virtual administrator are not written. |
| `RosterSync.InsertSyncIff` | services/edm/src/admin_policies_storage_rdb.cpp:142-155 | The exact condition for a new entry. |
| `RosterSync.EventsSyncIff` | services/edm/src/admin_manager.cpp:429-487 | The exact condition for the events: they are stored when their number changes, or are as they were. |
| `RosterSync.RunReloads` | services/edm/src/admin_manager.cpp:71-159 | After every run of calls that meet their conditions a restart loads the roster field by field. |
| `RosterSync.RunKeepsCore` | services/edm/src/admin_manager.cpp:71-159 | In every run, failures and skipped columns included, package, type, parent, debug flag, enable source and permissions, the users and the order of their administrators are those of the rows. |
| `RosterSync.SavedAgainKeepsName` | services/edm/src/admin_policies_storage_rdb.cpp:157-183 | A case that breaks the condition, from an empty roster: an administrator is saved with an enterprise name and again without one, and a restart brings the name back. |
| `RosterSync.RowsOfInsert` | services/edm/src/admin_policies_storage_rdb.cpp:77-89 | What a user's rows are after an insert: one more at the end for that user, the same for every other. |
| `RosterSync.RowsOfChange` | services/edm/src/admin_policies_storage_rdb.cpp:91-122 | What a user's rows are after an update: the change in every row of the package for that user, the same for every other. |
| `RosterSync.RowsOfDelete` | services/edm/src/admin_policies_storage_rdb.cpp:212-225 | What a user's rows are after a delete: those of other packages in their order for that user, the same for every other. |
| `LifecycleSafety.RunSafe` | services/edm/src/enterprise_device_mgr_ability.cpp:900-946 | Over all runs of enabling, enabling a device administrator, authorising, delegating with and without a parent, setting the running mode, both replacements, disabling and removal events, failures included: every roster of the run is safe if and only if no delegation without a parent is saved while a debug administrator exists. Safe means that package names are unique per user, there is at most one official super administrator, at most ten super and device administrators, these only under the default user, debug and official administrators never coexist, and no user keeps an empty list. |
| `LifecycleSafety.StepSafe` | services/edm/src/enterprise_device_mgr_ability.cpp:2363-2409 | Of all these calls the delegation without a parent is the only one that can make a safe roster unsafe, and does exactly when it is saved while a debug administrator exists. |
| `LifecycleSafety.RunFlag` | services/edm/src/enterprise_device_mgr_ability.cpp:1525-1529 | In every run of all these calls, whenever some administrator exists the enable flag is on. |
| `LifecycleSafety.RemovalFlagIff` | services/edm/src/admin_container.cpp:64-80 | After a removal that looks at the flag, it is off if and only if no administrator is left: the container keeps no empty list. |
| `LifecycleSafety.DelegateDirectSafeIff` | services/edm/src/enterprise_device_mgr_ability.cpp:2363-2409 | The delegation without a parent, which always saves an official administrator, keeps the roster safe if and only if one of its checks or answers stops it before the save, the save fails, or no debug administrator exists. |
| `LifecycleSafety.DelegationMixesModes` | services/edm/src/enterprise_device_mgr_ability.cpp:2363-2409 | Such a case from a fresh device: a debug super administrator is enabled, the delegation succeeds, and the two kinds coexist. |
| `LifecycleSafety.AnyDebugIs` | services/edm/src/admin_container.cpp:297-305 | No entry with the debug flag asked for means that every entry of every user has the other one. |
| `LifecycleSafety.EnableSafe` | services/edm/src/enterprise_device_mgr_ability.cpp:1161-1215 | Enabling keeps all of it, whatever the other services answer. |
| `LifecycleSafety.EnableDeviceSafe` | services/edm/src/enterprise_device_mgr_ability.cpp:1254-1299 | So does a super administrator's enabling of a device administrator. |
| `LifecycleSafety.AuthorizeSafe` | services/edm/src/enterprise_device_mgr_ability.cpp:2248-2290 | So does authorising a sub super administrator. |
| `LifecycleSafety.DelegateSafe` | services/edm/src/enterprise_device_mgr_ability.cpp:2411-2459 | So does delegating by a parent. |
| `LifecycleSafety.RunningModeSafe` | services/edm/src/enterprise_device_mgr_ability.cpp:2141-2160 | So does the running mode, though it saves the current user's entry under the default user. |
| `LifecycleSafety.NewNameIsFree` | services/edm/src/enterprise_device_mgr_ability.cpp:949-989 | When the checks of a replacement pass, the new name has no entry under the default user unless it is the old one. |
| `LifecycleSafety.KeepPolicySafe` | services/edm/src/enterprise_device_mgr_ability.cpp:1038-1054 | A replacement that keeps the policies is safe, with any of its writes failing and the rollback failing too. |
| `LifecycleSafety.ReplacementSafe` | services/edm/src/enterprise_device_mgr_ability.cpp:1113-1123 | A replacement that removes first is safe. |
| `LifecycleSafety.ReplacementRenames` | services/edm/src/admin_container.cpp:167-233 | A replacement leaves no trace of the old name among names and parents, and moves exactly its children. |
| `Rollback.RollbackRestoresIff` | services/edm/src/enterprise_device_mgr_ability.cpp:1050-1054 | When the policies cannot be renamed and all writes of the administrator table succeed, the rollback gives back the roster if and only if the two names are the same or no sub or virtual administrator named the new one as parent; it gives back roster and rows if and only if, besides, no row of a child of either name under any user did, and the permissions in the old administrator's row were not cut at loading. |
| `Rollback.RollbackTakesChild` | services/edm/src/enterprise_device_mgr_ability.cpp:1038-1054 | Such a case from a fresh device: an application delegated by the later successor ends up as a child of the old administrator. |
| `Rollback.ReplacementSyncIff` | services/edm/src/admin_manager.cpp:161-193 | A completed replacement that keeps the policies leaves the roster a restart would load if and only if the new administrator has the permissions of the old one, which had no parent, and, unless the names are the same, no other user has a row of one of its children under the old name. |
| `Rollback.ReplacementKeepsPermissions` | services/edm/src/admin_manager.cpp:184-187 | On a fresh device: after replacing the first administrator the roster is what a restart would load if and only if both have the same permissions; otherwise it keeps the old ones and the row has the new ones. |
| `Rollback.ParentRowsRenamed` | services/edm/src/admin_policies_storage_rdb.cpp:124-140 | Renaming the parent moves exactly the rows of the named children under the old parent, whatever their user. |
| `CascadeModel.RemoveItemEffect` | services/edm/src/plugin_manager.cpp:714-758 | With any outcome of the storage calls a removal only drops values of that administrator; when it succeeds for a saving plugin the value is gone from map and rows, and for a plugin that does not save it succeeds and nothing is dropped. |
| `CascadeModel.RemovalFindsIff` | services/edm/src/enterprise_device_mgr_ability.cpp:1375-1379 | A removal finds what the administrator has stored under the user if and only if the user's manager is loaded already, the query of its first load succeeds, or there is nothing stored. |
| `CascadeModel.MissedComesBack` | services/edm/src/enterprise_device_mgr_ability.cpp:1375-1388 | What a removal misses in the other case stays in the table, and the next start brings it back. |
| `CascadeModel.NoRowsLeft` | services/edm/src/policy_manager.cpp:113-119 | When nothing but values of not saving plugins is left under the managed users and the default user, and these cover every owner, nothing else is left under any user, and no row is left if and only if there was no such value before. |
| `CascadeModel.RunStoresSaved` | services/edm/src/plugin_manager.cpp:662-690 | In any run of updates, events, removals and replacements on an empty store, any row calls failing, nothing is ever stored under a policy whose plugin does not save, so after such a run a removal that succeeds leaves no row of its victims. |
| `CascadeModel.NobodyIsLeft` | services/edm/src/admin_manager.cpp:393-411 | When each victim is gone from the default user, no entry there names the removed administrator as its parent. |
| `CascadeModel.CascadeFrame` | services/edm/src/enterprise_device_mgr_ability.cpp:1344-1425 | Success or not, policy rows, roster entries and administrator rows of every other package are untouched and in their order, and no policy row is added. |
| `CascadeModel.NoRestartRevives` | services/edm/src/admin_manager.cpp:117-137 | A package that a removal took out of the roster has no row left that a restart could bring back. |
| `CascadeModel.OthersKept` | services/edm/src/admin_container.cpp:64-80 | The entries of other packages stay in their order through any deletions. |
| `Ability.EnterpriseDeviceMgrAbility.RemoveSuperAdminAndAdminPolicy` | services/edm/src/enterprise_device_mgr_ability.cpp:1398-1412 | Cascade completeness, for any set of loaded plugins: on success neither the super administrator nor any sub or virtual child is left under the default user; of their policies, under every user, only those are left whose plugin does not save, and no row at all is left if and only if they had stored no such policy; success or not, only their values and entries are dropped; it succeeds when no storage call fails and every policy stored by them has its plugin. `CascadeLaws` says who the children are. |
| `Ability.EnterpriseDeviceMgrAbility.RemoveSubSuperAdminAndAdminPolicy` | services/edm/src/enterprise_device_mgr_ability.cpp:1390-1396 | The same for one administrator that works across accounts. |
| `Ability.EnterpriseDeviceMgrAbility.RemoveSubOrSuperAdminAndAdminPolicy` | services/edm/src/enterprise_device_mgr_ability.cpp:1414-1425 | What earlier rounds removed stays removed, under every user of the list and the default one. |
| `Ability.EnterpriseDeviceMgrAbility.RemoveAdminAndAdminPolicy` | services/edm/src/enterprise_device_mgr_ability.cpp:1344-1363 | One administrator under one user: its policies first, then its entry, which stays when anything fails; on success it is absent and has only policies of not saving plugins left; after a first load whose query fails it is removed all the same while tables are as they were. |
| `Ability.EnterpriseDeviceMgrAbility.RemoveAdmin` | services/edm/src/enterprise_device_mgr_ability.cpp:1365-1373 | At most one deletion, none when it fails, and on success the package is absent. |
| `Ability.EnterpriseDeviceMgrAbility.RemoveAdminPolicy` | services/edm/src/enterprise_device_mgr_ability.cpp:1375-1388 | On success every policy the administrator had under the user is gone unless its plugin does not save; after a first load whose query fails it succeeds and removes nothing. |
| `Ability.EnterpriseDeviceMgrAbility.DoDisableAdmin` | services/edm/src/enterprise_device_mgr_ability.cpp:1509-1551 | Only values and entries of the administrator, and of a super administrator's children, are dropped; on success they are gone from the roster, and from the rows as in cascade completeness, and the flag is off exactly when nobody is left. |
| `Ability.EnterpriseDeviceMgrAbility.DisableAdmin` | services/edm/src/enterprise_device_mgr_ability.cpp:1427-1444 | The same under the default user for an administrator that works across accounts, and the error codes of the checks, which leave roster, rows and flag alone. |
| `Ability.EnterpriseDeviceMgrAbility.OnCommonEventPackageRemoved` | services/edm/src/enterprise_device_mgr_ability.cpp:322-356 | The same for the event of a removed application, with its look at the flag whether the removal succeeded or not; nothing for a clone or an unknown application. |
| `Ability.EnterpriseDeviceMgrAbility.EnableAdminWithPermission` | services/edm/src/enterprise_device_mgr_ability.cpp:1161-1215 | The new roster, rows, flag and code, the checks in their order. |
| `Ability.EnterpriseDeviceMgrAbility.VerifyEnableAdminCondition` | services/edm/src/enterprise_device_mgr_ability.cpp:900-946 | Which conditions on the roster let an administrator be enabled. |
| `Ability.EnterpriseDeviceMgrAbility.EnableDeviceAdmin` | services/edm/src/enterprise_device_mgr_ability.cpp:1254-1299 | The new roster, rows, flag and code. |
| `Ability.EnterpriseDeviceMgrAbility.AuthorizeAdmin` | services/edm/src/enterprise_device_mgr_ability.cpp:2248-2290 | The new roster, rows and code. |
| `Ability.EnterpriseDeviceMgrAbility.SetDelegatedPoliciesByParent` | services/edm/src/enterprise_device_mgr_ability.cpp:2411-2459 | The checks in their order, which leave everything alone; without policies the delegation is withdrawn, otherwise the new roster, rows and code with the policies untouched. |
| `Ability.EnterpriseDeviceMgrAbility.DisableVirtualAdmin` | services/edm/src/enterprise_device_mgr_ability.cpp:2352-2361 | Only the application's values and entries are dropped, and it succeeds when no storage call fails and every policy stored by it has its plugin; on success it is absent from the default user and its rows are gone as in cascade completeness; the flag is not looked at. |
| `Ability.EnterpriseDeviceMgrAbility.SetDelegatedPolicies` | services/edm/src/enterprise_device_mgr_ability.cpp:2363-2409 | The new roster, rows, flag and code; the flag is turned on before the save is tried. |
| `Ability.EnterpriseDeviceMgrAbility.SetAdminRunningMode` | services/edm/src/enterprise_device_mgr_ability.cpp:2141-2160 | The new roster, rows and code. |
| `Ability.EnterpriseDeviceMgrAbility.CheckReplaceAdmins` | services/edm/src/enterprise_device_mgr_ability.cpp:949-989 | The code of the first check that fails, and the administrator found by name. |
| `Ability.EnterpriseDeviceMgrAbility.HandleKeepPolicy` | services/edm/src/enterprise_device_mgr_ability.cpp:1038-1078 | Roster and rows after the renaming, or after the renaming back when the policies could not be renamed; the policies are renamed after the administrator and only then, and its name inside the uninstall policy after them and only when the bundle service took the rules; success means that all of it was done. |
| `Ability.EnterpriseDeviceMgrAbility.ReplaceKeepingPolicy` | services/edm/src/enterprise_device_mgr_ability.cpp:1080-1131 | The whole new roster, rows, flag and policies, the rewritten uninstall policy included, and the code of the first check that fails; the reply does not depend on the outcome of the replacement. `ReplacementLaws.KeepingTakesPlace` says who is found afterwards. |
| `Ability.EnterpriseDeviceMgrAbility.ReplaceRemovingPolicy` | services/edm/src/enterprise_device_mgr_ability.cpp:1080-1131 | The whole new roster, rows and flag, removal before save, what the removal dropped, and the code: that of the first check that fails, or whether removal and save both succeeded; both do when no storage call fails and every policy of the family has its plugin. `ReplacementLaws.RemovingTakesPlace` says who is found afterwards. |
| `Ability.ReplaceRemovingFits` | services/edm/src/enterprise_device_mgr_ability.cpp:1113-1124 | Such a replacement is a step of the runs that roster safety and the flag law are about. |
| `Ability.CascadeDone` | services/edm/src/enterprise_device_mgr_ability.cpp:1398-1412 | The removals of all children and of the administrator amount to cascade completeness. |
| `KeepPolicy.KeptPolicies` | services/edm/src/enterprise_device_mgr_ability.cpp:1045-1071 | After a replacement that keeps the policies every policy of the old name is the new one's, as it was but for the text of the uninstall policy, in which the first occurrence of the old name is replaced when there is one, the bundle service took the rules and the row call is done; nothing else of any user changes, but for the combined text of that policy. |
| `KeepPolicy.RewritesPlaceIff` | services/edm/src/enterprise_device_mgr_ability.cpp:1062-1063 | An occurrence of the old name is the one that is replaced if and only if the name does not stand before it. |
| `KeepPolicy.ReplacementRewritesAnother` | services/edm/src/enterprise_device_mgr_ability.cpp:1056-1071 | When the list has an application before the administrator whose identifier begins with the administrator's name, a complete replacement changes that identifier, and the old administrator stays listed. |
| `ManageApps.AppOrder` | interfaces/inner_api/application_manager/include/application_instance.h:30-42 | `operator<` is a strict total order on instances. |
| `ManageApps.MakeKeyInjective` | interfaces/inner_api/application_manager/src/manage_apps_serializer.cpp:189-192 | Keys are equal if and only if bundle name, account and index are, for all bundle texts and all numbers. |
| `ManageApps.MergePolicy` | interfaces/inner_api/application_manager/src/manage_apps_serializer.cpp:194-209 | The result is sorted by `operator<` and holds exactly the first occurrence of each distinct triple across all lists. |
| `ManageApps.MergeCoversOnce` | interfaces/inner_api/application_manager/src/manage_apps_serializer.cpp:194-209 | No triple of any list is missing from the result and none is in it twice. |
| `ManageApps.MergeIgnoresOrder` | interfaces/inner_api/application_manager/src/manage_apps_serializer.cpp:194-209 | While every application has one identifier the order of the lists does not matter. |
| `ManageApps.MergeOrderShowsIff` | interfaces/inner_api/application_manager/src/manage_apps_serializer.cpp:194-209 | For any lists: every order of the lists merges to the same items if and only if any two lists that hold an application hold the same item of it first. |
| `ManageApps.SetDifferencePolicyData` | interfaces/inner_api/application_manager/src/manage_apps_serializer.cpp:49-57 | Both lists are sorted in place; the result is the sorted multiset difference current minus data. |
| `ManageApps.SetDifferenceIs` | interfaces/inner_api/application_manager/src/manage_apps_serializer.cpp:49-57 | The walk over two sorted lists gives their sorted multiset difference. |
| `ManageApps.RemovedAndKept` | interfaces/inner_api/application_manager/src/manage_apps_serializer.cpp:59-90 | Every data item is accounted for once: the lengths of the two results sum to that of the data, and so do their multisets of triples. |
| `ManageApps.RemovedIsLost` | interfaces/inner_api/application_manager/src/manage_apps_serializer.cpp:59-90 | What is to be removed is exactly what the merge does not have; what is kept is the merge's own item. |
| `ManageApps.SetNeedRemoveMergePolicyData` | interfaces/inner_api/application_manager/src/manage_apps_serializer.cpp:59-73 | The loop gives the items of data without a match in the merge, in order. |
| `ManageApps.SetIntersectionPolicyData` | interfaces/inner_api/application_manager/src/manage_apps_serializer.cpp:75-90 | The loop gives for each data item the first match, in order. |
| `ManageApps.SetUnionPolicyData` | interfaces/inner_api/application_manager/src/manage_apps_serializer.cpp:30-47 | The result lists a map from keys to last items in the order of the keys. |
| `ManageApps.UnionKeepsLast` | interfaces/inner_api/application_manager/src/manage_apps_serializer.cpp:30-47 | Of the items of one key the last one is in the union, and no key is lost. |
| `ManageApps.UnionKeysCollide` | interfaces/inner_api/application_manager/src/manage_apps_serializer.cpp:30-47 | Two different applications with the same union key, because these keys have no separators. |
| `ManageApps.UnionKeepsAllIff` | interfaces/inner_api/application_manager/src/manage_apps_serializer.cpp:30-47 | The union keeps every application of both lists if and only if no two different applications share a key. |
| `Decimal.ToStringBack` | interfaces/inner_api/application_manager/src/manage_apps_serializer.cpp:189-192 | Printing a number and reading it back gives the number, so decimal text is injective, and it has no underscore. |
| `Decimal.CanonicalIsDigits` | common/native/src/plugin_utils/firewall_rule.cpp:24-28 | A text of digits without a leading zero is the print of exactly the number it reads as. |
| `Sorting.SortIs` | interfaces/inner_api/application_manager/src/manage_apps_serializer.cpp:49-57 | Sorting gives a sorted permutation under any strict total order. |
| `Sorting.SortedUnique` | interfaces/inner_api/application_manager/src/manage_apps_serializer.cpp:49-57 | Two sorted permutations of each other are equal, so the sort used does not matter. |
| `Sorting.InOrder` | interfaces/inner_api/application_manager/src/manage_apps_serializer.cpp:204-208 | Walking an ordered set gives its elements strictly sorted, each once. |
| `NotificationMerge.MergePolicy` | interfaces/inner_api/application_manager/src/allowed_notification_bundles_serializer.cpp:136-159 | One entry for each user named, in the order of the users, with exactly the bundles some administrator trusts for that user; an empty input leaves the result as it was. |
| `NotificationMerge.MergeUnique` | interfaces/inner_api/application_manager/src/allowed_notification_bundles_serializer.cpp:136-159 | What is trusted for whom determines the result. |
| `NotificationMerge.MergeIgnoresOrder` | interfaces/inner_api/application_manager/src/allowed_notification_bundles_serializer.cpp:136-159 | The order of the administrators and of their entries does not matter. |
| `NotificationMerge.MergeInParts` | interfaces/inner_api/application_manager/src/allowed_notification_bundles_serializer.cpp:136-159 | Merging the others first and one's own list afterwards is merging all lists at once. |
| `IpAddress.Ipv4LegalIff` | common/native/src/plugin_utils/firewall_rule.cpp:100-131 | For all strings: legal in the IPv4 family if and only if it is the canonical dotted-decimal print of four values 0..255, or that with `/` and a canonical 0..32, or exactly two plain addresses joined by one `-`. |
| `IpAddress.Ipv6LegalIff` | common/native/src/plugin_utils/firewall_rule.cpp:100-131 | For all strings: legal in the IPv6 family if and only if it is the plain form, the plain form with a prefix, or two plain ones joined by `-`. |
| `IpAddress.OctetIs` | common/native/src/plugin_utils/firewall_rule.cpp:24-28 | The octet pattern matches exactly the canonical decimal texts of 0..255. |
| `IpAddress.MaskIs` | common/native/src/plugin_utils/firewall_rule.cpp:26-28 | The mask pattern matches exactly the canonical decimal texts of 0..32. |
| `IpAddress.PlainIpv4Is` | common/native/src/plugin_utils/firewall_rule.cpp:24-25 | The address pattern matches exactly canonical dotted decimals. |
| `IpAddress.PlainIpv6Is` | common/native/src/plugin_utils/firewall_rule.cpp:30-30 | The plain pattern matches if and only if splitting at the colons gives three to eight fields of at most four hexadecimal digits. |
| `IpAddress.PrefixIs` | common/native/src/plugin_utils/firewall_rule.cpp:31-32 | The prefix pattern matches exactly 1..108, 110..118 and 120..128. |
| `IpAddress.MaskedIpv6Is` | common/native/src/plugin_utils/firewall_rule.cpp:31-32 | The mask form is the plain form with one of these prefixes. |
| `IpAddress.ValidIpv4Iff` | common/native/src/plugin_utils/ip_utils.cpp:27-37 | The address utility accepts exactly the plain IPv4 form. |
| `IpAddress.ValidIpv6Iff` | common/native/src/plugin_utils/ip_utils.cpp:39-45 | It accepts as IPv6 exactly eight fields of four hexadecimal digits. |
| `IpAddress.ValidIpv6IsLegal` | common/native/src/plugin_utils/ip_utils.cpp:39-50 | Everything the utility accepts as IPv6 the firewall rule accepts as IPv6 and never as IPv4. |
| `IpAddress.LegalBySides` | common/native/src/plugin_utils/firewall_rule.cpp:100-117 | Without a dash the string is judged whole, masks allowed; with one its two sides are judged without masks. |
| `PipelineLaws.UpdateLeaves` | services/edm/src/plugin_manager.cpp:644-690 | For any holders of a policy and any combined value: an update hands the handler the administrator's own value and the merge of the others'; when it answers a change of a saved policy, the administrator holds exactly the value answered, nothing when that is empty, the others hold what they held, and the combined value is the merge answered; otherwise nothing changes. No other policy and no other user is touched, and the reply is the handler's. |
| `PipelineLaws.UpdateReplies` | services/edm/src/plugin_manager.cpp:662-690 | The reply is the handler's however the save ends. |
| `PipelineLaws.SwitchLeaves` | interfaces/inner_api/plugin_kits/src/basic_bool_plugin.cpp:28-112 | A switch can be set exactly when another administrator has it on or the device takes it; then the administrator holds what it asked for, and a changed value makes the combined one say whether anybody has it on. |
| `PipelineLaws.RoundLeaves` | services/edm/src/plugin_manager.cpp:799-821 | One round of an event, for any plugin, administrator and value read: the same, with what the event handler answers, and the save is made when it empties the value too. |
| `PipelineLaws.DispatchLeaves` | services/edm/src/plugin_manager.cpp:799-821 | A whole dispatch over any order leaves holders and combined value as the plain loop over a map of holders does. |
| `PipelineLaws.BootLiftsRestriction` | services/edm_plugin/src/restrictions/disallow_uinput_plugin.cpp:85-93 | After the boot event nobody holds the restriction of injected input any more, whoever did, and there is no combined value. |
| `PipelineLaws.RestrictionAndBoot` | services/edm_plugin/src/restrictions/disallow_uinput_plugin.cpp:64-93 | From an empty store one administrator restricts injected input and the device boots: first it holds the value and the combined value is there, afterwards neither is. |
| `PipelineLaws.RemovalLeaves` | services/edm/src/plugin_manager.cpp:714-748 | A removal of an administrator's item succeeds, takes exactly its value when the policy is saved, and leaves the merge of the others as the combined value. |
| `RegistryLinks.RunKeepsLinks` | services/edm/src/plugin_manager.cpp:238-281 | Over every run of registrations and unloads in which each code is registered in one way: the link of every registered plugin is an extension of it that is registered under its own code, so no call runs through an object of an unloaded library. |
| `RegistryLinks.StepKeepsLinks` | services/edm/src/plugin_manager.cpp:436-562 | Each registration and each unload keeps that. |
| `RegistryLinks.UnloadedExtensionIsUnlinked` | services/edm/src/plugin_manager.cpp:543-562 | In any registry, after the unload of an extension neither it nor its base, which stays registered, has a link. |
| `RegistryLinks.ExtensionComesAndGoes` | services/edm/src/plugin_manager.cpp:436-562 | From an empty registry: a base is linked to its extension, and after the unload of the extension's library it is not. |
| `AdminLaws.LookupFinds` | services/edm/src/admin_manager.cpp:94-115 | Which entry a lookup finds: the first of the name that works across accounts under the default user, then, or for the default user itself, the first of the name under the user, and nobody only when there is neither; the types are written out. |
| `AdminLaws.SubscribedIs` | services/edm/src/admin_manager.cpp:441-447 | The events after a subscription: those before in front, then exactly the new ones, each once. |
| `AdminLaws.UnsubscribedIs` | services/edm/src/admin_manager.cpp:459-487 | The events after an unsubscription: each as often as before, the withdrawn ones not at all. |
| `AdminLaws.UnsubscribedInOrder` | services/edm/src/admin_manager.cpp:459-487 | They keep their order. |
| `AdminLaws.SubscribeLeaves` | services/edm/src/admin_manager.cpp:429-457 | A completed subscription: every entry of the package under the user has the events that the one found had and exactly the new ones; nothing else of the roster changes. |
| `AdminLaws.UnsubscribeLeaves` | services/edm/src/admin_manager.cpp:459-487 | The same for an unsubscription. |
| `AdminLaws.SubscribedRows` | services/edm/src/admin_manager.cpp:429-457 | On a roster that a restart would load, and when the call meets its condition, the row has exactly these events too. |
| `AdminLaws.EventAnswers` | services/edm/src/admin_manager.cpp:429-457 | Which code a subscription answers, and that the storage matters only when some event is new. |
| `AdminLaws.ChildrenAreListed` | services/edm/src/admin_manager.cpp:404-408 | A name is listed as a child exactly when a sub super administrator or a virtual administrator of that name is under the parent. |
| `AdminLaws.ParentMoves` | services/edm/src/admin_container.cpp:226-232 | When a parent is renamed, exactly the sub super and virtual administrators under it move. |
| `AdminLaws.CountIs` | services/edm/src/admin_container.cpp:307-320 | The count is the number of places with a super or device administrator. |
| `AdminLaws.SavedIsFound` | services/edm/src/admin_manager.cpp:71-92 | What is saved is what is found: a new administrator as given, an old one with the values given and of the kind it was. Exactly a name that the default user has for all accounts is not saved under another user; the call answers success and the lookup finds what it found before. |
| `AdminLaws.SavedFrame` | services/edm/src/admin_manager.cpp:71-92 | Whatever the outcome, entries of other names and of other users stay as they are and where they are. |
| `AdminLaws.SavedSurvives` | services/edm/src/admin_manager.cpp:71-92 | On a roster that a restart would load, and when the call meets its condition, a restart finds the same. |
| `AdminLaws.EntInfoLeaves` | services/edm/src/admin_manager.cpp:413-427 | Enterprise name and description go to every entry of the package under the user, each to its place, and to no other. |
| `AdminLaws.PermissionLeaves` | services/edm/src/admin_manager.cpp:154-159 | So do permissions. |
| `AdminLaws.RosterAnswers` | services/edm/src/admin_manager.cpp:71-159 | A call that cannot write answers with its own code and changes nothing. |
| `LifecycleLaws.EnableCheckIff` | services/edm/src/enterprise_device_mgr_ability.cpp:900-946 | The checks of enabling pass exactly when all that is asked for holds: type, source, room, permission, ability, user, mode, debug kind, and the entry there may be; no check is left out and none is added. |
| `LifecycleLaws.EnableLeaves` | services/edm/src/enterprise_device_mgr_ability.cpp:1161-1215 | Enabling succeeds exactly then with the row written; the flag is on, and the administrator is found with ability, enterprise information and permissions of the call, a new one with its type and debug mode; a refused call changes nothing. |
| `LifecycleLaws.EnableDeviceLeaves` | services/edm/src/enterprise_device_mgr_ability.cpp:1254-1299 | When a super administrator's enabling of a device administrator succeeds, and that a new one is found with the caller's debug mode. |
| `LifecycleLaws.AuthorizeSucceedsIff` | services/edm/src/enterprise_device_mgr_ability.cpp:2248-2290 | Authorising succeeds exactly when a super administrator asks, the answers allow it, the name is free or a sub super administrator's, and the row is written. |
| `LifecycleLaws.AuthorizeLeaves` | services/edm/src/enterprise_device_mgr_ability.cpp:2248-2290 | Then it is found under the default user, a new one as a sub super administrator under the one that asked. |
| `LifecycleLaws.DelegateSucceedsIff` | services/edm/src/enterprise_device_mgr_ability.cpp:2411-2459 | The same for delegating by a parent, to another application and at most 200 policies. |
| `LifecycleLaws.DelegateLeaves` | services/edm/src/enterprise_device_mgr_ability.cpp:2411-2459 | Then the application is found with these policies, a new one as a virtual administrator under that parent. |
| `LifecycleLaws.DelegatedAgainElsewhere` | services/edm/src/enterprise_device_mgr_ability.cpp:2411-2459 | A super administrator delegates policies to an application under the default user and then others for another user: the second call succeeds as well, and both users find the application with the first policies. |
| `LifecycleLaws.DelegateDirectSucceedsIff` | services/edm/src/enterprise_device_mgr_ability.cpp:2363-2409 | The same for the delegation without a parent, and when the flag is turned on although nothing is saved. |
| `LifecycleLaws.DelegateDirectLeaves` | services/edm/src/enterprise_device_mgr_ability.cpp:2363-2409 | Then it is an official virtual administrator under the caller; the policy that stands for all replaces the others. |
| `LifecycleLaws.RunningModeLeaves` | services/edm/src/enterprise_device_mgr_ability.cpp:2141-2160 | The default user's entry of the name has the new mode and what the entry seen had. |
| `LifecycleLaws.RunningModeSucceedsIff` | services/edm/src/enterprise_device_mgr_ability.cpp:2141-2160 | When setting the running mode succeeds. |
| `LifecycleLaws.EnableRefusals` | services/edm/src/enterprise_device_mgr_ability.cpp:900-946 | What each code of a refused enabling means; the first check that fails decides. |
| `LifecycleLaws.EnableDeviceRefusals` | services/edm/src/enterprise_device_mgr_ability.cpp:1254-1299 | The same for device administrators. |
| `LifecycleLaws.AuthorizeRefusals` | services/edm/src/enterprise_device_mgr_ability.cpp:2248-2290 | The same for authorising. |
| `LifecycleLaws.DelegateRefusals` | services/edm/src/enterprise_device_mgr_ability.cpp:2411-2459 | The same for delegating by a parent. |
| `LifecycleLaws.DelegateDirectRefusals` | services/edm/src/enterprise_device_mgr_ability.cpp:2363-2409 | The same for the delegation without a parent. |
| `LifecycleLaws.RunningModeRefusals` | services/edm/src/enterprise_device_mgr_ability.cpp:2141-2160 | The same for the running mode. |
| `ReplacementLaws.ReplaceCheckIff` | services/edm/src/enterprise_device_mgr_ability.cpp:949-989 | On a safe roster the checks let a replacement through exactly when all it asks for holds. |
| `ReplacementLaws.ReplaceRefusals` | services/edm/src/enterprise_device_mgr_ability.cpp:949-989 | What each code of a refused replacement means. |
| `ReplacementLaws.KeepingTakesPlace` | services/edm/src/enterprise_device_mgr_ability.cpp:1080-1131 | After a complete replacement that keeps the policies a lookup of the new name finds an official super administrator with the ability of the call, marked as a replacement, with the enterprise name and description of the old one; its permissions are still the old one's, and the flag is on. |
| `ReplacementLaws.KeepingRowTakesPlace` | services/edm/src/admin_manager.cpp:161-193 | Its row has the same, with the permissions of the call. |
| `ReplacementLaws.RemovingTakesPlace` | services/edm/src/enterprise_device_mgr_ability.cpp:1104-1124 | After a complete replacement that removes first, entry and row have all of this and the permissions of the call, no parent, no events and the default running mode. |
| `ReplacementLaws.FailedReplacementLeaves` | services/edm/src/admin_manager.cpp:161-193 | What each code of the renaming means, and what a failed one leaves: the roster as it was, and in the table the rows of the children it got to, of any user, under the new parent. |
| `ReplacementLaws.FailedReplacementSyncIff` | services/edm/src/admin_manager.cpp:161-193 | So a failed renaming leaves the roster a restart would load if and only if it had written no child's row or the names are the same; otherwise a restart loads these children under the new name while the old administrator stays. |
| `ReplacementLaws.MayBeReplacedAgain` | services/edm/src/enterprise_device_mgr_ability.cpp:949-989 | Whoever is found so may be named as the old administrator of the next replacement: it is not told that there is none. |
| `ReplacementLaws.ReplacedTwice` | services/edm/src/enterprise_device_mgr_ability.cpp:949-1131 | So the next replacement after one that kept the policies finds the new administrator. |
| `ReplacementLaws.RemovedAndReplacedAgain` | services/edm/src/enterprise_device_mgr_ability.cpp:949-1131 | And so does the next one after one that removed first. |
| `CascadeLaws.NobodyUnder` | services/edm/src/enterprise_device_mgr_ability.cpp:1398-1412 | After a completed cascade no entry of the default user has the name, and no sub super administrator and no virtual administrator is under it; the types are written out. |
| `CascadeLaws.ChildGoes` | services/edm/src/enterprise_device_mgr_ability.cpp:1398-1412 | Every sub super and every virtual administrator under the name is gone, with all policies that are saved. |
| `CascadeLaws.AuthorizedGoes` | services/edm/src/enterprise_device_mgr_ability.cpp:2248-2290 | What a super administrator authorised goes when it is removed. |
| `CascadeLaws.DelegatedGoes` | services/edm/src/enterprise_device_mgr_ability.cpp:2411-2459 | What it delegated policies to under the default user goes too. |
| `CascadeLaws.DelegatedElsewhereStays` | services/edm/src/enterprise_device_mgr_ability.cpp:2411-2459 | What it delegated policies to for another user stays, with its policies and under a parent that is gone, whether the removal succeeded or not, when that user did not know the application before: children are looked for under the default user only. |
| `CascadeLaws.DisabledChildGoes` | services/edm/src/enterprise_device_mgr_ability.cpp:1509-1551 | So it is when the super administrator is disabled by its type. |
| `CascadeLaws.FailedRemovalCanBeRepeated` | services/edm/src/enterprise_device_mgr_ability.cpp:1344-1425 | A removal that fails, wherever its storage calls fail, leaves the administrator's entry in the roster, unless a super administrator is listed as its own child, so that it can be asked for again: policies go before entries, children before their parent, and the default user comes last. |
| `CascadeLaws.NobodyLeavesPolicies` | services/edm/src/enterprise_device_mgr_ability.cpp:1344-1425 | Successful or failed half-way, whoever has lost its entry under a user has no policy left there that its plugin saves. |
| `CascadeLaws.LeftIs` | services/edm/src/admin_container.cpp:64-80 | Any deletions take exactly the entries named. |
| `CascadeLaws.OnlyTheFamilyGoes` | services/edm/src/enterprise_device_mgr_ability.cpp:1509-1551 | Nobody else goes, successful or not: whoever is missing afterwards was the administrator or a sub super or virtual administrator under it. |

Assumptions a theorem makes are its `requires` clauses. The ones a reader should know: plugins meet the contract
`Merging` for the combined-value invariant; handlers are functions of their group's policies, codes and policy names
correspond one to one, for serialisability; first loads succeed in the removals, but for the one administrator of
`RemoveAdminAndAdminPolicy`; the clock is monotonic and a call loads all
extra libraries when its plugin lives in one, for library safety; the roster is safe, or the flag on, at the start of
a run.

## Left out

- SQL text, the columns' JSON encoding and the table creation: a table is a sequence of typed rows, and a list column is the list, read back empty when longer than 10000.
- IPC, message parcels, the JavaScript layer and the command-line tool: plumbing around the calls modelled here.
- Function codes: a request names its policy code directly, the operation bits are not modelled.
- Bundle, account, token, notification and network services, and permission checks: each answer a call depends on is an argument; the ability found is taken to be of the bundle asked for.
- Reports, notifications, timers, uninstall control rules, log directories and admin observers: effects outside store, roster and flag.
- Device administrators enabled by a super administrator exist in the build for PCs only; that build is modelled.
- Mutual exclusion between administrator removal and updates: the code takes different locks, so serialisability is about updates.
- Serialisable: is about updates; the first loads of one user end the same way in the interleaving and in the serial run.
- RunKeepsMergedValues: assumes storage calls succeed, since after a failed combined write the code keeps the old combined value.
- LazyLoadingUnobservable: the load of one user ends the same way at start-up and at first use.
- Subscribing and unsubscribing plugin events after a save, and the hooks after a call: they touch neither store nor registry.
- HandleKeepPolicy: when the combined text of the uninstall policy lacks the old name that the own text has, the code throws at that replacement; the model writes the combined text back as it is.
- ForeignRemovalLosesValue: what the handler makes of a list that names the removed bundle is any function; only the early return is modelled.
- SetDelegatedPoliciesByParent: the check of the delegated policies is one answer, `policiesCheck`.
- DisableAdmin: the check of the caller is one answer, `check`.
- RemoveSuperAdminAndAdminPolicy: says nothing of the combined values along the way, which every removed item keeps right by `PipelineModel.RemoveKeepsAll`.
- RemoveAdminAndAdminPolicy: a first load that reads the administrators' rows and fails on the combined rows is not covered; the removal of the administrator's timers is not modelled.
- Removal of a user's administrators when the user is removed, of debug administrators at start, and disabling by name: they use the removals modelled here, and `RunSafe` and `RunFlag` cover them as removals of any packages under any users.
- Plugins, administrators and managers behind shared pointers are values or objects keyed by identity: a plugin object that a caller still holds after its unload is in no map here.
- Failures of opening or closing a library, directory scanning, and the unloading of all plugins at service stop.
- Merges that fail to parse a stored value: they leave the merged text empty and no caller looks at the code, so such a merge is one with an empty result here.
- HasPersistPlugin: whether a plugin asks to stay loaded is an input of the closing step (`mayClose`), not a field of the plugin object.
- AllowedNotificationBundlesPlugin: the removal of single bundles is not modelled; the JSON text is any text that reads back.
- MergePolicy and the other list operations work on values, except the two sorts, which work on arrays; the two arrays of a difference are taken to be different objects.
- Regular expressions are matched as a whole against ASCII text; `CheckFirewallParams`, which only combines address checks, is not modelled.
- Language and tips lookup, watermarks, market applications, maintenance of settings data and dumps.
