# Synkron multi-root synchronisation core, in Dafny

This project models the merge engine of Synkron's `SyncAction` and the
`ExceptionGroup` rule list.

`SyncAction` does its work in two passes.
- It first builds a `SyncFile` tree of every name found under any root of a
  `FolderActionGroup` (the frontier: an ordered list of root id and path).
  Blacklisted names are counted in `skipped_count`, and the builder recurses
  into the roots where a name is a directory.
- It then walks the tree. A directory is created in every root that lacks it
  and whose path exists, with one `FolderCreated` event per `mkdir`, and the
  roots that can hold it are synced recursively. For a file, the roots are
  ranked by modification time into freshness groups. The newest version is then
  copied into every root without the file (`copyFile`) and put in place of
  every older one (`updateFile`: backup, remove, copy).

`ExceptionGroup` holds a key/value settings map and an ordered list of items.
It saves both into one group of the settings store, and loads them back.

The filesystem is a map from path (a sequence of names) to entry (directory
or file, with a modification time). Whether `mkdir`, copy or remove succeed
beyond their preconditions, and the error text they report, come from an
`Oracles` value. Emitted `syncOutMessage` signals are appended to an event
sequence. The exclusion bundle is a traversal stack plus a blacklist predicate
on it. The settings store is a map from group name to a key/value map.

Modules:
- `Options`: the Option type.
- `FileSystem`: paths, entries, the frontier, directory listing, and the
  primitives' success conditions.
- `Events`: the outcome events.
- `Ranking`: the freshness groups and the copy/update plan.
- `Transfer`: the effects of `copyFile`, `updateFile` and `backupFile`, and of
  the second loop of the file branch.
- `Mirror`: the directory branch.
- `Tree`: the `SyncFile` value, and what the builder must produce and count.
- `Exclusion`: the traversal stack of the exception bundle.
- `SyncActions`: the `SyncAction` class, whose methods are the imperative code.
- `StringLists`: join, split and removeAll on string lists.
- `ExceptionGroups`: the settings store and the `ExceptionGroup` class.

Two behaviours of the code are easy to miss, and the model keeps both:
- A failed `mkdir` emits a `FolderCreated` event with the error flag set but
  no error text (syncaction.cpp:147).
- A root whose current directory does not exist gets no `mkdir` and no event,
  and is still passed down to the child (syncaction.cpp:145, 154).

## Model

| member | source | states |
|---|---|---|
| `Ranking.Compare` | syncaction.cpp:169-178 | the three-way comparison of two modification times: positive, zero or negative exactly when the first is newer, equal or older |
| `Ranking.RankUpTo` | syncaction.cpp:160-183 | after k roots, one group per visited root, and the newest root is one of them |
| `Ranking.RankInvariant` | syncaction.cpp:160-186 | `latest_index` never goes below 0, so the `latest_index < 0` guard is dead. Absent roots, and only those, are in group -2. Present roots are in -1..latest. `newest_fi` is unset only while no root holds the file; otherwise it is the first root with the largest time, it is in the latest group, and a present root is in the latest group exactly when its time equals the newest time |
| `Ranking.EqualTimesStayInGroupZero` | syncaction.cpp:164-178 | when all present roots hold the same time, `latest_index` stays 0 |
| `Ranking.Plan` | syncaction.cpp:188-196 | one action per root of the frontier |
| `Ranking.PlanClassifiesRoots` | syncaction.cpp:185-196 | once some root holds the file, the guard is dead. Each root gets exactly one action: copy exactly when it lacks the file, update exactly when it holds an older time than the newest, nothing exactly when it holds the newest time. The newest root is never written |
| `Ranking.EqualTimesNeedNoUpdate` | syncaction.cpp:164-196 | with equal times everywhere, every present root is in group 0 = `latest_index` and is left alone |
| `Transfer.CopyOutcome` | syncaction.cpp:201-209 | `copyFile` emits exactly one `FileCopied` event (source, destination). Its error flag is set exactly when the copy primitive failed, and then it carries the primitive's error text and the filesystem is unchanged; on success the destination becomes a copy of the source |
| `Transfer.UpdateOutcome` | syncaction.cpp:211-230 | `updateFile` emits nothing when the backup fails. A failed remove yields one failed `FileUpdated` event and no copy. Otherwise there is exactly one `FileUpdated` event, whose error flag equals the copy's failure. The filesystem changes only when backup and remove both succeeded |
| `Transfer.TransfersFacts` | syncaction.cpp:188-196 | the second loop of the file branch emits exactly one event per copied or updated root, in root order and of the matching kind, and changes the filesystem at those roots' destinations only |
| `Transfer.KeepAllChangesNothing` | syncaction.cpp:188-196 | a plan that leaves every root alone emits nothing and changes nothing |
| `Mirror.MirrorRoot` | syncaction.cpp:143-154 | a root that holds the directory, or whose current path is not a directory, is passed down unchanged, with no `mkdir` and no event. Any other root gets one `mkdir` and exactly one `FolderCreated` event for the new path. The event's error flag is set exactly when `mkdir` failed, and the root is passed down exactly when `mkdir` succeeded |
| `Mirror.MirrorUpToFacts` | syncaction.cpp:142-155 | over the first k roots: every root passed down is a frontier root moved to the entry's path. Every holder is passed down. Every event is a `FolderCreated`, at most one per root. Roots passed down plus failed `mkdir`s number exactly k |
| `Mirror.MirrorKeepsHolders` | syncaction.cpp:142-155 | every frontier root that holds the directory is in the child frontier |
| `Mirror.MirrorAllPresent` | syncaction.cpp:142-155 | when every root already holds the directory, nothing is created or reported and every root goes down unchanged |
| `FileSystem.Moved` | syncaction.cpp:154 | moving a frontier to an entry keeps each root's id and appends the name to its path, in order |
| `FileSystem.ListingMembers` | syncaction.cpp:76 | `entryList` over files and all directories, without the hidden flag, lists exactly the visible entries (names not starting with '.') that are directories, or files that pass the name filters |
| `FileSystem.HiddenNeverListed` | syncaction.cpp:76 | a hidden name is never listed, whatever the name filters say |
| `Tree.EntriesUpToMembers` | syncaction.cpp:70-77 | the united listing holds exactly the names listed under some existing root directory of the frontier |
| `Tree.PresentUpTo` | syncaction.cpp:91-97 | a root's id is recorded for the child exactly when the entry exists under that root |
| `Tree.ChildFrontierUpTo` | syncaction.cpp:91-102 | the child's recursion frontier holds exactly the roots where the entry is a directory, moved to the entry |
| `Tree.BuiltCovered` | syncaction.cpp:66-115 | in a built tree every node is held by some root of its frontier and only by such roots, so `newest_fi` is never NULL when the file branch runs |
| `Tree.BuildingDone` | syncaction.cpp:83-111 | once every name is visited, the children are exactly the survivors, each built from the roots holding it, and the counted skips are this level's blacklisted names plus the recursive calls' skips |
| `Exclusion.ExceptionBundle.CdAndCheck` | syncaction.cpp:85 | enters the name on the traversal stack and reports the blacklist decision for the stack after the push |
| `Exclusion.ExceptionBundle.CdUp` | syncaction.cpp:110 | leaves the innermost name |
| `SyncActions.SomeRootHolds` | syncaction.cpp:160-167 | a file held by some frontier root gives `newest_fi` a value |
| `SyncActions.FileInSyncUnchanged` | syncaction.cpp:160-196 | a file every root holds at the same time causes no transfer and no event |
| `SyncActions.SyncAction.constructor` | syncaction.cpp:18-24 | a fresh action: no events, `skipped_count` 0 |
| `SyncActions.SyncAction.Run` | syncaction.cpp:37-60 | builds the tree from the roots, then syncs it over the same roots; the traversal stack is left as found and events are only appended |
| `SyncActions.SyncAction.CreateSyncFileFromFolders` | syncaction.cpp:66-115 | the node gets one child per listed, non-blacklisted name, each with exactly the roots holding it, marked a directory exactly when some root has it as one, and built recursively from exactly those directory roots. `skipped_count` grows by exactly the blacklisted names over the whole subtree, and the traversal stack is back to its depth on entry |
| `SyncActions.SyncAction.VisitEntries` | syncaction.cpp:83-111 | the loop over the united names visits each name once: the children built so far and the blacklisted names gathered so far account for every name visited, and `skipped_count` grows by the blacklisted names plus the skips inside the children |
| `SyncActions.SyncAction.VisitEntry` | syncaction.cpp:85-110 | one name: a blacklisted name adds one to `skipped_count` and leaves the children unchanged; any other name appends one child carrying that name, built from the roots holding it. `cdUp` restores the stack |
| `SyncActions.SyncAction.UnionOfListings` | syncaction.cpp:68-77 | the union of the listings of the frontier roots that exist |
| `SyncActions.SyncAction.AddChild` | syncaction.cpp:89-107 | the child records exactly the roots holding the name, is a directory exactly when some root has it as one, and recursion happens exactly when that set of directory roots is non-empty |
| `SyncActions.SyncAction.Sync` | syncaction.cpp:117-199 | events are only appended; a tree already in sync with its frontier (every root holds every entry at the same time) emits nothing and changes nothing |
| `SyncActions.SyncAction.MirrorDirectory` | syncaction.cpp:140-157 | the directory branch has the filesystem effect, events and child frontier that `MirrorAll` describes |
| `SyncActions.SyncAction.SyncFileEntry` | syncaction.cpp:160-196 | the file branch ranks the roots and then applies exactly the copy/update plan of that ranking, in root order |
| `SyncActions.SyncAction.ApplyPlan` | syncaction.cpp:188-196 | the second loop: copyFile for every root in group -2 and updateFile for every root below `latest_index`, in root order, with the effect `TransfersUpTo` describes |
| `SyncActions.SyncAction.RankRoots` | syncaction.cpp:160-183 | the first loop fills `latest_index_arr` with the groups of the ranking, and returns `latest_index` and the newest root |
| `SyncActions.SyncAction.CopyFile` | syncaction.cpp:201-209 | the new filesystem and the one appended event are those of `CopyOutcome` |
| `SyncActions.SyncAction.UpdateFile` | syncaction.cpp:211-230 | the new filesystem and the appended events are those of `UpdateOutcome` with the backup's result |
| `SyncActions.SyncAction.BackupFile` | syncaction.cpp:232-243 | always reports success |
| `StringLists.Join` | src/exceptiongroup.cpp:107 | joining no items gives the empty string, and joining one item gives that item |
| `StringLists.Split` | src/exceptiongroup.cpp:123 | split always gives at least one part, and no part holds the separator |
| `StringLists.SplitJoin` | src/exceptiongroup.cpp:107-123 | splitting the joined list gives the list back when it is non-empty and no item holds ';' |
| `StringLists.JoinSplit` | src/exceptiongroup.cpp:107-123 | joining the split parts of any string gives the string back |
| `StringLists.JoinEmpty` | src/exceptiongroup.cpp:107-122 | the joined string is empty exactly for the empty list and for the list of one empty item |
| `StringLists.RemoveAll` | src/exceptiongroup.cpp:83-86 | no occurrence of the item remains, and every other item occurs as often as before |
| `StringLists.RemoveAllSubset` | src/exceptiongroup.cpp:83-86 | removal adds nothing new, and leaves a list without the item unchanged |
| `StringLists.RemoveAllAppend` | src/exceptiongroup.cpp:83-86 | removal on a concatenation is the concatenation of the removals, so the remaining items keep their relative order |
| `StringLists.RemoveAllIdempotent` | src/exceptiongroup.cpp:83-86 | removing twice is removing once |
| `ExceptionGroups.Settings.GroupOf` | src/exceptiongroup.cpp:117-119 | a group never written reads as empty |
| `ExceptionGroups.Settings.Clear` | src/exceptiongroup.cpp:98-99 | `remove("")` empties the group and leaves the others alone |
| `ExceptionGroups.Settings.SetValue` | src/exceptiongroup.cpp:104 | sets one key of one group and leaves everything else alone |
| `ExceptionGroups.GroupName` | src/exceptiongroup.cpp:98 | the group is named by the "type" setting, or "" when it is unset |
| `ExceptionGroups.SavedGroup` | src/exceptiongroup.cpp:96-110 | the saved group has every setting's key plus "data". "data" holds the joined items, overriding any setting of that name, and every other setting is kept as it was |
| `ExceptionGroups.LoadedItems` | src/exceptiongroup.cpp:121-123 | an empty stored string yields no items; otherwise the items joined back give the stored string |
| `ExceptionGroups.ItemsRoundTrip` | src/exceptiongroup.cpp:96-128 | load gets back exactly the saved items when none holds ';' and the list is not one empty item |
| `ExceptionGroups.LoadAsWritten` | src/exceptiongroup.cpp:115-128 | load as the code is written. A non-empty "data" appends its split items and changes no setting. An empty "data" only sets the "data" setting to "". No "data" key changes nothing |
| `ExceptionGroups.LoadAsWrittenIgnoresSettings` | src/exceptiongroup.cpp:121-125 | as written, load never adds or changes a setting other than "data" |
| `ExceptionGroups.SettingLostOnReload` | src/exceptiongroup.cpp:121-125 | a saved "name" setting is not loaded back |
| `ExceptionGroups.LoadIntended` | src/exceptiongroup.cpp:121-125 | the corrected load: every stored key other than "data" goes into the settings map, nothing else is added, and "data" appends the loaded items |
| `ExceptionGroups.SaveLoadRoundTrip` | src/exceptiongroup.cpp:96-128 | with the corrected load, saving and then loading into a fresh group of the same type restores every setting and every item |
| `ExceptionGroups.ExceptionGroup.constructor` | src/exceptiongroup.cpp:26-30 | an empty settings map and item list |
| `ExceptionGroups.ExceptionGroup.SetValue` | src/exceptiongroup.cpp:41-44 | afterwards `value(key)` is the new value, every other key reads as before, and the items are unchanged |
| `ExceptionGroups.ExceptionGroup.Value` | src/exceptiongroup.cpp:49-52 | a value exactly for a key in the map, and then the mapped value |
| `ExceptionGroups.ExceptionGroup.Count` | src/exceptiongroup.cpp:57-60 | the number of items |
| `ExceptionGroups.ExceptionGroup.At` | src/exceptiongroup.cpp:65-68 | for a valid index, an item of the list |
| `ExceptionGroups.ExceptionGroup.AddItem` | src/exceptiongroup.cpp:73-78 | returns false and leaves the list unchanged exactly when the item is present. Otherwise it appends the item at the end and returns true. A list without duplicates stays without duplicates |
| `ExceptionGroups.ExceptionGroup.RemoveItem` | src/exceptiongroup.cpp:83-86 | the list becomes `RemoveAll` of the old list; the item no longer occurs |
| `ExceptionGroups.ExceptionGroup.RemoveAt` | src/exceptiongroup.cpp:88-91 | for a valid index, exactly that element goes and the count drops by one |
| `ExceptionGroups.ExceptionGroup.ImportData` | src/exceptiongroup.cpp:134-137 | appends all given items in order, duplicates included; earlier items are unchanged |
| `ExceptionGroups.ExceptionGroup.Save` | src/exceptiongroup.cpp:96-110 | the "type" group is replaced by `SavedGroup`, and every other group is untouched |
| `ExceptionGroups.ExceptionGroup.Load` | src/exceptiongroup.cpp:115-129 | the settings map and items become what `LoadAsWritten` gives for the stored "type" group |

## Left out

- Thread and Qt-object plumbing is not modelled: `start`, `moveToThread`, the `finished`/`deleteLater` wiring, `QElapsedTimer` and the destructors. `Run` is modelled as building and then syncing over the same roots.
- `exception_bundle->updateRootFolder(fag)` (syncaction.cpp:45) is not modelled, because the bundle's internals are not part of this model. The traversal stack starts wherever the bundle holds it.
- The glob matching behind `filters()` and the blacklist rules are not modelled: they are opaque predicates, one on a file name and one on the traversal stack.
- The filesystem is not the real one. `QDir`, `QFileInfo` and `MTFile` become a path map plus `Oracles`. An oracle decides whether a primitive whose Qt preconditions hold succeeds, and supplies its error text.
- `FileCompare::compareTwoFiles` is not modelled beyond integer modification times. A path that does not exist reads as time 0, which the code never reaches for a present root.
- `SyncActions.SyncAction.CreateSyncFileFromFolders`: the tree is returned as a value rather than grown in place through `addChild`/`addFolder`/`setDir`, so aliasing between nodes is not captured.
- Child order follows whatever order the `QSet` of names yields; it is picked arbitrarily, and no property depends on it.
- Memory management is not modelled: the `delete`s, the `fag = NULL` reset, and the variable-length array (an `array<int>` here).
- The possible NULL `newest_fi` is replaced by a precondition of `Sync`: every node is held by some root of its frontier. `Tree.BuiltCovered` proves this for every built tree.
- `SyncActions.SyncAction.Sync`: its contract states only two things: events are only appended, and a tree already in sync changes nothing. The effect of each child is stated by `MirrorDirectory` and `SyncFileEntry`, not composed over the whole tree.
- `SyncActions.SyncAction.Run`: it states only that the stack is restored and events are appended. The count of skipped names is stated by `CreateSyncFileFromFolders`.
- `QSettings` group nesting and `QVariant` conversions are not modelled. Values are strings, and `beginGroup`/`endGroup` become an explicit group name.
- An empty group name is treated as an ordinary group, though `QSettings` would clear its top level on `remove("")` there.
- `ExceptionGroups.ExceptionGroup.Load` keeps the code's behaviour as written. The corrected behaviour is `LoadIntended`, whose round trip is proved.
- filterbundle.cpp is not modelled: it only sets two translated defaults ("type", "name") on an ExceptionBundle subclass.
- `FileSystem.Listing`: a hidden entry is one whose name starts with '.', the Unix rule; the hidden file attribute of Windows is not modelled.

## Findings

| source | as written | input that shows it | evidently intended | confidence | as-written member | corrected member |
|---|---|---|---|---|---|---|
| src/exceptiongroup.cpp:121-125 | The `else` binds to the inner `if`. Only a "data" key with an empty stored value reaches `settings_map`, and every other stored key is dropped | Save a group with settings type "filters" and name "Temporary files", and item "*.tmp". Loading it into a fresh group of type "filters" gets the item back but not "name" | Every stored key other than "data" is inserted into `settings_map`, as the indentation shows | high; not executed | `ExceptionGroups.SettingLostOnReload` | `ExceptionGroups.SaveLoadRoundTrip` |

