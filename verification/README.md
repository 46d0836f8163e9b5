# Prefab diffs and the dynamic-library cache, in Dafny

This project models two pieces of the Banshee engine and proves properties
about them.

**Prefab diffs** (`BansheeCore/Source/BsPrefabDiff.cpp`). A prefab instance is
a scene-object tree derived from a prefab tree. Children and components are
tied to their prefab counterparts by link IDs, and link ID -1 means "not from
the prefab". The diff engine has three parts:

- `generateDiff` records what an instance changed. It records the name, the
  removed and added children and components, the per-component deltas from the
  type's diff handler, and the recursive diffs of matched children.
- `applyDiff` replays such a record onto an object.
- `create` brackets generation with `renameInstanceIds` and
  `restoreInstanceIds`. While the diff is computed, the instance root carries
  the prefab root's instance ID. An instance component, or an instance child
  with a link ID other than -1, carries the instance ID that the first walk
  recorded under its link ID in its scope's map, when that map has the link ID.
  This is normally the ID of its prefab counterpart, so references serialize
  the same way on both sides. Children with link ID -1 are never renamed. A
  component with link ID -1 is not tested for -1 (lines 389-401), so it takes
  whatever the scope recorded under -1.

The model works as follows:

- Scene trees are values (`Scene.SceneObject`, `Scene.Component`).
- Each entity names its shared instance-data record by a `Slot`. The instance
  IDs in those records live in the `IdTable` of the class
  `InstanceIds.InstanceStore`, which rename and restore update in place.
- Generation is specified by the recursive function
  `DiffGeneration.ObjectDiffOf`. It is computed by `DiffGeneration.GenerateDiff`
  and its four scanning loops.
- Application is specified by `DiffApply.Applied`. It is computed by
  `DiffApply.ApplyDiff` and its destroy, attach and patch loops.
- Renaming is specified by `InstanceIds.Renamed`: two explicit-stack walks, one
  collecting a link-ID-to-instance-ID table per prefab scope, the other
  overwriting and logging. It is computed by
  `InstanceIds.InstanceStore.RenameInstanceIds`.

**Dynamic-library cache** (`Source/BansheeUtility/Source/BsDynLibManager.cpp`).
`load` normalises a file name by appending `"." + extension` when it is
missing. It then returns the cached library or loads and caches a new one.
`unload` erases the library's entry and unloads it. The destructor unloads
every cached library and clears the map. `DynLibs.DynLibManager` holds the map
as a field. The platform extension is a constructor parameter.

Inputs that are not part of this model:

- The serializer is a lossless snapshot. An encoded entity is the entity
  itself plus the instance-ID table at the moment of encoding.
- The per-type component diff handlers are function-valued parameters
  (`Serialization.DiffHandler`, `Serialization.ApplyHandler`).

In `generateDiff`, two scans do not exclude link ID -1:

- the scan that looks prefab children up among the instance children
  (BsPrefabDiff.cpp:150-168);
- the scan that looks prefab components up among the instance components
  (lines 231-260).

Only the scans for added children and components skip -1 (lines 198 and 287).
So a prefab child or component with link ID -1 is matched against an instance
child or component with link ID -1. The model does the same.

## Model

| member | source | states |
|---|---|---|
| `Scene.FindChild` | BansheeCore/Source/BsPrefabDiff.cpp:79-91 | The child scan returns the index of the first child carrying the link ID, or none exactly when no child carries it. |
| `Scene.FindComponent` | BansheeCore/Source/BsPrefabDiff.cpp:67-77 | The component scan returns the index of the first component carrying the link ID, or none exactly when no component carries it. |
| `DiffGeneration.UnmatchedLinksMembers` | BansheeCore/Source/BsPrefabDiff.cpp:150-187 | A prefab link ID is listed as removed exactly when no instance entity carries it. |
| `DiffGeneration.UnmatchedLinksAppend` | BansheeCore/Source/BsPrefabDiff.cpp:231-279 | Removals are listed in prefab order: the removals of a concatenation are those of its parts, in order. |
| `DiffGeneration.AddedChildrenAppend` | BansheeCore/Source/BsPrefabDiff.cpp:190-222 | Added children are listed in instance order. |
| `DiffGeneration.AddedComponentsAppend` | BansheeCore/Source/BsPrefabDiff.cpp:282-311 | Added components are listed in instance order. |
| `DiffGeneration.AddedChildrenMembers` | BansheeCore/Source/BsPrefabDiff.cpp:189-222 | The added-children list holds exactly the encodings of the instance children that are not DontSave and whose link ID is -1 or carried by no prefab child. |
| `DiffGeneration.AddedComponentsMembers` | BansheeCore/Source/BsPrefabDiff.cpp:281-311 | The added-components list holds exactly the encodings of the instance components whose link ID is -1 or carried by no prefab component. |
| `DiffGeneration.ComponentDiffsMembers` | BansheeCore/Source/BsPrefabDiff.cpp:230-279 | A component delta is recorded, under the prefab component's link ID, exactly when that component's first instance match makes the handler report a change. |
| `DiffGeneration.ChildDiffsMembers` | BansheeCore/Source/BsPrefabDiff.cpp:149-179 | A child diff is recorded exactly for the prefab children whose first instance match, not being a nested prefab root, has a non-null recursive diff. |
| `DiffGeneration.NestedPrefabsNotDiffed` | BansheeCore/Source/BsPrefabDiff.cpp:160-167 | Every child diff belongs to a prefab child link ID whose first instance match has an empty prefab link UUID. |
| `DiffGeneration.UnmatchedLinksEmpty` | BansheeCore/Source/BsPrefabDiff.cpp:180-186 | Nothing is listed as removed exactly when every prefab link ID is carried by some instance entity. |
| `DiffGeneration.AddedChildrenEmpty` | BansheeCore/Source/BsPrefabDiff.cpp:194-221 | No child is listed as added exactly when every instance child is DontSave or has a link ID other than -1 that some prefab child carries. |
| `DiffGeneration.AddedComponentsEmpty` | BansheeCore/Source/BsPrefabDiff.cpp:286-310 | No component is listed as added exactly when every instance component has a link ID other than -1 that some prefab component carries. |
| `DiffGeneration.ChildDiffsEmpty` | BansheeCore/Source/BsPrefabDiff.cpp:170-179 | No child diff is recorded exactly when every prefab child's lookup and recursive diff yield none. |
| `DiffGeneration.ComponentDiffsEmpty` | BansheeCore/Source/BsPrefabDiff.cpp:262-271 | No component delta is recorded exactly when the handler reports no change for any matched prefab component. |
| `DiffGeneration.NoDiffExactlyWhenUnchanged` | BansheeCore/Source/BsPrefabDiff.cpp:136-320 | generateDiff returns null exactly under these conditions: the names are equal; every prefab child and component is matched with no child diff or component delta; and every instance component and every saved instance child has a prefab counterpart. |
| `DiffGeneration.ObjectDiffOf` | BansheeCore/Source/BsPrefabDiff.cpp:313-317 | A non-null diff carries the instance's name and link ID. |
| `DiffGeneration.DiffChild` | BansheeCore/Source/BsPrefabDiff.cpp:152-168 | A prefab child is found exactly when an instance child carries its link ID, and the child diff is the recursive diff of the first match unless that match is a nested prefab root. |
| `DiffGeneration.DiffChildren` | BansheeCore/Source/BsPrefabDiff.cpp:149-187 | The first loop lists exactly the unmatched prefab child link IDs and the non-null child diffs, in prefab order. |
| `DiffGeneration.AddChildren` | BansheeCore/Source/BsPrefabDiff.cpp:189-222 | The second loop lists exactly the encodings of the added instance children, in instance order. |
| `DiffGeneration.DiffComponents` | BansheeCore/Source/BsPrefabDiff.cpp:230-279 | The third loop lists exactly the unmatched prefab component link IDs and the handler's non-null deltas, in prefab order. |
| `DiffGeneration.AddComponents` | BansheeCore/Source/BsPrefabDiff.cpp:281-311 | The fourth loop lists exactly the encodings of the added instance components, in instance order. |
| `DiffGeneration.GenerateDiff` | BansheeCore/Source/BsPrefabDiff.cpp:136-320 | The loops compute ObjectDiffOf, the diff whose properties the lemmas above state. |
| `DiffApply.RemovesFirstComponent` | BansheeCore/Source/BsPrefabDiff.cpp:67-77 | A removal entry destroys the first component carrying its link ID and no other; the remaining components keep their order. |
| `DiffApply.RemovesFirstChild` | BansheeCore/Source/BsPrefabDiff.cpp:79-91 | A removal entry destroys the first child carrying its link ID and no other; the remaining children keep their order. |
| `DiffApply.ComponentDiffLands` | BansheeCore/Source/BsPrefabDiff.cpp:108-119 | A component delta is skipped when no component carries its link ID. Otherwise the first component carrying it takes the state the type's handler computes, and every other component is unchanged. |
| `DiffApply.ChildDiffLands` | BansheeCore/Source/BsPrefabDiff.cpp:121-133 | A child diff is skipped when no child carries its link ID. Otherwise the first child carrying it becomes the recursively applied child, and every other child is unchanged. |
| `DiffApply.TargetedComponentUpdated` | BansheeCore/Source/BsPrefabDiff.cpp:108-119 | Across the whole delta list, a delta whose link ID no other delta carries lands on the first component carrying that ID. |
| `DiffApply.TargetedChildUpdated` | BansheeCore/Source/BsPrefabDiff.cpp:121-133 | Across the whole child-diff list, a child diff whose link ID no other child diff carries is applied to the first child carrying that ID. |
| `DiffApply.UntargetedComponentsUnchanged` | BansheeCore/Source/BsPrefabDiff.cpp:108-119 | A component whose link ID no delta carries is left exactly as it was. |
| `DiffApply.UntargetedChildrenUnchanged` | BansheeCore/Source/BsPrefabDiff.cpp:121-133 | A child whose link ID no child diff carries is left exactly as it was. |
| `DiffApply.AppliedComponentDeltaLands` | BansheeCore/Source/BsPrefabDiff.cpp:93-119 | In applyDiff, such a delta updates the first component carrying its link ID among the survivors of the removals followed by the added components. |
| `DiffApply.AppliedChildDeltaLands` | BansheeCore/Source/BsPrefabDiff.cpp:100-133 | In applyDiff, such a child diff is applied to the first child carrying its link ID among the survivors of the removals followed by the added children. |
| `DiffApply.UntargetedSurvivingComponentKept` | BansheeCore/Source/BsPrefabDiff.cpp:66-119 | In applyDiff, a surviving component that no delta targets comes out unchanged, at its position among the survivors. |
| `DiffApply.UntargetedSurvivingChildKept` | BansheeCore/Source/BsPrefabDiff.cpp:79-133 | In applyDiff, a surviving child that no child diff targets comes out unchanged, at its position among the survivors. |
| `DiffApply.Applied` | BansheeCore/Source/BsPrefabDiff.cpp:59-134 | The result takes the diff's name and keeps the object's link ID, instance data, prefab link UUID and DontSave flag. |
| `DiffApply.AppliedChildOrder` | BansheeCore/Source/BsPrefabDiff.cpp:63-106 | The children afterwards are the survivors of the removals, in their old order, followed by the added children in the diff's order. |
| `DiffApply.AppliedComponentOrder` | BansheeCore/Source/BsPrefabDiff.cpp:63-98 | The components afterwards are the survivors of the removals, in their old order, followed by the added components in the diff's order. |
| `DiffApply.AddedChildrenKept` | BansheeCore/Source/BsPrefabDiff.cpp:79-106 | Every added child is present after all survivors, even when it reuses a removed link ID, because removals run before additions. |
| `DiffApply.UnmatchedComponentDiffSkipped` | BansheeCore/Source/BsPrefabDiff.cpp:108-119 | A component delta whose link ID no component carries can be dropped without changing the outcome. |
| `DiffApply.UnmatchedChildDiffSkipped` | BansheeCore/Source/BsPrefabDiff.cpp:121-133 | A child diff whose link ID no child carries can be dropped without changing the outcome. |
| `DiffApply.RemovedComponentsWereThere` | BansheeCore/Source/BsPrefabDiff.cpp:67-77 | Removal only ever takes components away. |
| `DiffApply.RemovedChildrenWereThere` | BansheeCore/Source/BsPrefabDiff.cpp:79-91 | Removal only ever takes children away. |
| `DiffApply.UnmatchedComponentRemovalSkipped` | BansheeCore/Source/BsPrefabDiff.cpp:67-77 | A removal entry whose link ID no component carries can be dropped from any position in the list without changing the outcome. |
| `DiffApply.UnmatchedChildRemovalSkipped` | BansheeCore/Source/BsPrefabDiff.cpp:79-91 | A removal entry whose link ID no child carries can be dropped from any position in the list without changing the outcome. |
| `DiffApply.DestroyComponents` | BansheeCore/Source/BsPrefabDiff.cpp:66-77 | The removal loop destroys the first component carrying each removed ID in turn. |
| `DiffApply.DestroyChildren` | BansheeCore/Source/BsPrefabDiff.cpp:79-91 | The removal loop destroys the first child carrying each removed ID in turn. |
| `DiffApply.AttachComponents` | BansheeCore/Source/BsPrefabDiff.cpp:93-98 | The decoded added components are appended after the existing ones, in order. |
| `DiffApply.AttachChildren` | BansheeCore/Source/BsPrefabDiff.cpp:100-106 | The decoded added children are appended after the existing ones, in order. |
| `DiffApply.PatchComponents` | BansheeCore/Source/BsPrefabDiff.cpp:108-119 | Each component delta goes to the first component carrying its link ID, in turn. |
| `DiffApply.PatchChildren` | BansheeCore/Source/BsPrefabDiff.cpp:121-133 | Each child diff is applied recursively to the first child carrying its link ID, in turn. |
| `DiffApply.ApplyDiff` | BansheeCore/Source/BsPrefabDiff.cpp:59-134 | applyDiff computes Applied. The lemmas above state what that means: the name, the order of survivors and additions, where each delta lands, and which entities stay unchanged. |
| `PrefabDiffs.Create` | BansheeCore/Source/BsPrefabDiff.cpp:30-47 | create yields the diff generated under renamed IDs and leaves the instance IDs as they were before the call. |
| `PrefabDiffs.CreatedExactlyForSamePrefab` | BansheeCore/Source/BsPrefabDiff.cpp:30-47 | create returns null exactly when the roots' prefab link UUIDs differ. The root diff is null exactly when the renamed instance matches the prefab throughout; when present, it names the instance root. |
| `PrefabDiffs.Apply` | BansheeCore/Source/BsPrefabDiff.cpp:49-57 | apply leaves the object alone without a root diff and applies the root diff otherwise. |
| `PrefabDiffs.AppliedKeepsIdentity` | BansheeCore/Source/BsPrefabDiff.cpp:49-61 | apply is a no-op without a root diff. Otherwise the object takes the diff's name, keeps its identity, and its children are the survivors followed by the added ones. |
| `InstanceIds.RecordComponentsValues` | BansheeCore/Source/BsPrefabDiff.cpp:348-350 | Each component's link ID maps to the instance ID of the last component carrying it; every other key keeps its value. |
| `InstanceIds.RecordChildrenValues` | BansheeCore/Source/BsPrefabDiff.cpp:352-359 | Each child's link ID maps to the instance ID of the last child carrying it; every other key keeps its value. |
| `InstanceIds.RecordChildValue` | BansheeCore/Source/BsPrefabDiff.cpp:340-359 | After one visit, the children's scope maps a child's link ID to the instance ID of the last child carrying it. |
| `InstanceIds.RecordComponentValue` | BansheeCore/Source/BsPrefabDiff.cpp:340-359 | After one visit, the children's scope maps a component's link ID to the instance ID of the last component carrying it, unless a child carries it too. |
| `InstanceIds.RecordKeepsOthers` | BansheeCore/Source/BsPrefabDiff.cpp:340-359 | One visit leaves every other scope alone, and in its own scope every key that none of its components or children carries. |
| `InstanceIds.ScopesKeep` | BansheeCore/Source/BsPrefabDiff.cpp:335-360 | A value that no later visit writes again survives the rest of the first walk. |
| `InstanceIds.RootComponentRecorded` | BansheeCore/Source/BsPrefabDiff.cpp:332-360 | The root's scope maps a prefab root component's link ID to that component's instance ID, when it is the last root component with the ID, no root child has the ID, and nothing deeper writes the ID into that scope. |
| `InstanceIds.RootChildRecorded` | BansheeCore/Source/BsPrefabDiff.cpp:332-360 | The root's scope maps a prefab root child's link ID to that child's instance ID, when it is the last root child with the ID and nothing deeper writes the ID into that scope. |
| `InstanceIds.ScopesGrow` | BansheeCore/Source/BsPrefabDiff.cpp:335-360 | The first walk only ever adds scopes and link IDs. |
| `InstanceIds.RootScopeRecorded` | BansheeCore/Source/BsPrefabDiff.cpp:332-360 | When the roots share a prefab link UUID, the instance root's scope is in the table with every link ID of the prefab root's components and children. |
| `InstanceIds.RestoredValues` | BansheeCore/Source/BsPrefabDiff.cpp:434-438 | Restoring writes every logged record's original ID, whatever the log order, and touches nothing else. |
| `InstanceIds.RestoreUndoes` | BansheeCore/Source/BsPrefabDiff.cpp:434-438 | restoreInstanceIds gives back the original IDs after a rename that logged every record before overwriting it. |
| `InstanceIds.RenameSlotFaithful` | BansheeCore/Source/BsPrefabDiff.cpp:395-400 | Logging the original before overwriting a record keeps the log faithful to the original IDs. |
| `InstanceIds.RenameComponentsFaithful` | BansheeCore/Source/BsPrefabDiff.cpp:389-402 | The component pass logs each record it overwrites first and overwrites only the components' records. |
| `InstanceIds.RenameChildrenFaithful` | BansheeCore/Source/BsPrefabDiff.cpp:405-427 | The child pass logs each record it overwrites first and overwrites only records of children whose link ID is not -1. |
| `InstanceIds.RenameRestoreRoundTrip` | BansheeCore/Source/BsPrefabDiff.cpp:322-438 | Rename followed by restore gives back every instance ID. Rename changes only the instance root and instance components and linked children, and nothing outside the instance tree. |
| `InstanceIds.PrefabUntouched` | BansheeCore/Source/BsPrefabDiff.cpp:322-432 | Rename never changes an instance ID of the prefab tree. |
| `InstanceIds.NoLinkChildrenKeepIds` | BansheeCore/Source/BsPrefabDiff.cpp:410-427 | Instance children with link ID -1, at any depth, are never renamed. |
| `InstanceIds.RenameComponentsMaps` | BansheeCore/Source/BsPrefabDiff.cpp:389-402 | With distinct records, a component whose link ID the scope's map knows takes the mapped ID and is logged. Every other component keeps its ID, nothing outside the components changes, and only overwritten records are logged. |
| `InstanceIds.RenameChildrenMaps` | BansheeCore/Source/BsPrefabDiff.cpp:405-427 | With distinct records, a child whose link ID is not -1 and is known to the scope's map takes the mapped ID and is logged. Every other child keeps its ID, nothing outside the children changes, and only overwritten records are logged. |
| `InstanceIds.ProcessNodeMaps` | BansheeCore/Source/BsPrefabDiff.cpp:375-430 | One visit maps exactly the components and linked children whose link ID the children's scope knows, and logs only those. |
| `InstanceIds.WalkMaps` | BansheeCore/Source/BsPrefabDiff.cpp:372-431 | Once the second walk ends, every entity it mapped still holds the mapped ID, at every depth below every stack entry. |
| `InstanceIds.WalkLogsMapped` | BansheeCore/Source/BsPrefabDiff.cpp:372-431 | The second walk logs nothing but the records it maps below the stack entries. |
| `InstanceIds.RenameMapsLinkedEntities` | BansheeCore/Source/BsPrefabDiff.cpp:322-432 | After renameInstanceIds, every instance component, and every instance child with a link ID other than -1, holds the ID that its scope's map records for its link ID, when the map has it. |
| `InstanceIds.RenameTouchesOnlyMapped` | BansheeCore/Source/BsPrefabDiff.cpp:322-432 | renameInstanceIds changes no instance ID except the instance root's and those of the mapped entities. |
| `InstanceIds.RootComponentTakesPrefabId` | BansheeCore/Source/BsPrefabDiff.cpp:322-432 | When the roots share a prefab link UUID, an instance root component takes the instance ID of the prefab root component with the same link ID. |
| `InstanceIds.RootChildTakesPrefabId` | BansheeCore/Source/BsPrefabDiff.cpp:322-432 | When the roots share a prefab link UUID, an instance root child with a link ID other than -1 takes the instance ID of the prefab root child with the same link ID. |
| `InstanceIds.RootRenamedFirst` | BansheeCore/Source/BsPrefabDiff.cpp:362-370 | The instance root is logged first with its original ID and ends up with the prefab root's ID, whatever its link ID. |
| `InstanceIds.InstanceStore.RecordComponentIds` | BansheeCore/Source/BsPrefabDiff.cpp:348-350 | The component loop of the first walk computes RecordComponents. |
| `InstanceIds.InstanceStore.RecordChildIds` | BansheeCore/Source/BsPrefabDiff.cpp:352-359 | The child loop of the first walk computes RecordChildren and pushes every child, in order. |
| `InstanceIds.InstanceStore.VisitPrefabObject` | BansheeCore/Source/BsPrefabDiff.cpp:337-359 | One iteration of the first walk computes Record and pushes the children. |
| `InstanceIds.InstanceStore.CollectScopes` | BansheeCore/Source/BsPrefabDiff.cpp:324-360 | The first walk builds the scope table CollectedScopes describes. |
| `InstanceIds.InstanceStore.Rename` | BansheeCore/Source/BsPrefabDiff.cpp:395-400 | The original ID is appended to the log and the record takes the new ID. |
| `InstanceIds.InstanceStore.RenameComponentIds` | BansheeCore/Source/BsPrefabDiff.cpp:389-402 | The component loop of the second walk computes RenameComponents on the store. |
| `InstanceIds.InstanceStore.RenameChildIds` | BansheeCore/Source/BsPrefabDiff.cpp:405-430 | The child loop renames as RenameChildren describes when the scope was found, changes nothing otherwise, and pushes every child. |
| `InstanceIds.InstanceStore.VisitInstanceObject` | BansheeCore/Source/BsPrefabDiff.cpp:375-430 | One iteration of the second walk computes ProcessNode on the store and pushes the children. |
| `InstanceIds.InstanceStore.RenameInstanceIds` | BansheeCore/Source/BsPrefabDiff.cpp:322-432 | renameInstanceIds leaves the store and log that Renamed describes. The lemmas above state what that means: which entities take which recorded ID, that nothing else changes, and that restore undoes it. |
| `InstanceIds.InstanceStore.RestoreInstanceIds` | BansheeCore/Source/BsPrefabDiff.cpp:434-438 | restoreInstanceIds writes the logged originals back in log order. |
| `DynLibs.NormalizedFileName` | Source/BansheeUtility/Source/BsDynLibManager.cpp:14-20 | The normalised name always ends with "." + extension. It equals the given name exactly when that name is longer than the suffix and ends with it; otherwise the suffix is appended. |
| `DynLibs.NormalizeIdempotentExceptEmpty` | Source/BansheeUtility/Source/BsDynLibManager.cpp:14-20 | Normalising twice is normalising once exactly when the name is non-empty. |
| `DynLibs.SameLibraryKey` | Source/BansheeUtility/Source/BsDynLibManager.cpp:15-26 | For a non-empty x, "x.ext" is its own key. "x" shares that key exactly when x does not already end with the extension. |
| `DynLibs.DynLib.Unload` | Source/BansheeUtility/Source/BsDynLibManager.cpp:44 | Unloading a library counts one more unload. |
| `DynLibs.DynLibManager.constructor` | Source/BansheeUtility/Source/BsDynLibManager.cpp:8-10 | A new manager caches nothing. |
| `DynLibs.DynLibManager.Load` | Source/BansheeUtility/Source/BsDynLibManager.cpp:12-34 | A cache hit returns the cached library and leaves the map unchanged. A miss returns a fresh library with the normalised name and inserts exactly that one entry. Every library stays cached under its own name. |
| `DynLibs.DynLibManager.Unload` | Source/BansheeUtility/Source/BsDynLibManager.cpp:36-46 | Only the entry under the library's name is erased, if present, and the library is unloaded either way. |
| `DynLibs.DynLibManager.Dispose` | Source/BansheeUtility/Source/BsDynLibManager.cpp:48-59 | The destructor unloads every cached library exactly once and leaves the map empty. |

## Left out

- Live scene objects are updated in place by applyDiff. The model computes the updated object as a new value, so aliasing between handles to the same object is not captured.
- `destroy()`, `setParent`, `instantiate()` and handle ownership are not modelled. Destroying is removal from the sequence, and attaching is appending.
- The deserialization session that apply opens and closes (BsPrefabDiff.cpp:54-56) is not modelled. Neither is the assignment of fresh instance IDs to decoded objects.
- The internals of the binary serializer and of the per-type IDiff handlers are not modelled. The serializer is a lossless snapshot, and the handlers are caller-supplied functions.
- Serialization.ApplyHandler returns only a new ComponentState, so in the model a delta can never change a component's link ID or instance data. The engine's IDiff::applyDiff (BsPrefabDiff.cpp:115) writes serialized fields back into the component, and the model does not capture what that could do to those fields.
- InstanceIds.RootComponentTakesPrefabId, InstanceIds.RootChildTakesPrefabId: the "takes its prefab counterpart's ID" statement is proved only for the entities directly under the roots, and only when no deeper prefab object writes the same link ID into the root's scope. Deeper down, RenameMapsLinkedEntities states that each entity takes the ID its scope's map holds, and RecordChildValue, RecordComponentValue and ScopesKeep state what a map holds, but no lemma composes them below the first level. When several prefab entities in one scope share a link ID, the walk keeps the one it visits last, and the model states that only visit by visit.
- Link IDs are UINT32 in the engine. They are unbounded integers here, with -1 standing for the all-ones value. No arithmetic is done on them.
- PrefabDiffs.Create: the instance IDs are proved to be back to their old values only when the instance tree's entities own distinct instance-data records. Every live game object owns its own record. Without that, the same record could be logged twice, and forward-order restoring would leave the first overwrite in place.
- InstanceIds.RenameRestoreRoundTrip: proved under the same assumption of distinct records in the instance tree, with every entity's record registered in the store.
- InstanceIds.PrefabUntouched: additionally assumes that the prefab and instance trees share no instance-data record. The engine's separate objects provide this.
- Loading and unloading a library at the operating-system level, `bs_alloc` and `bs_delete` are not modelled. A `DynLib` records its name and how often it was unloaded. The library is not freed after unload, so use after free is not captured.
- The `gDynLibManager` singleton accessor and the RTTI accessors of the prefab diff classes are not modelled.
- `Source/BansheeEngine/Include/BsGUICanvas.h` and `Source/Scripting/SBansheeEngine/Wrappers/BsScriptRRefBase.h` are not part of this model. They hold declarations and managed-runtime glue, with no logic to model.
