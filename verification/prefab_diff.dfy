/**
 * PrefabDiff: the customizations of a prefab instance relative to its
 * prefab, created by comparing the two trees and applied by replaying them
 * onto an object.
 */
module PrefabDiffs {
  import opened Wrappers
  import opened Scene
  import opened Serialization
  import opened DiffGeneration
  import opened DiffApply
  import opened InstanceIds

  /** A diff whose root is absent when the instance does not differ. */
  datatype PrefabDiff = PrefabDiff(root: Option<ObjectDiff>)

  /** The diff create produces: none when the roots belong to different
      prefabs, otherwise the root diff generated while the instance carries
      the prefab's instance IDs. */
  function Created(prefab: SceneObject, instance: SceneObject, ids: IdTable, handler: DiffHandler): Option<PrefabDiff>
    requires Registered(prefab, ids.Keys) && Registered(instance, ids.Keys)
  {
    if prefab.prefabLinkUUID != instance.prefabLinkUUID then None
    else Some(PrefabDiff(ObjectDiffOf(prefab, instance, Renamed(prefab, instance, ids).ids, handler)))
  }

  /** PrefabDiff::create: rename, generate, restore. */
  method Create(store: InstanceStore, prefab: SceneObject, instance: SceneObject, handler: DiffHandler)
    returns (output: Option<PrefabDiff>)
    requires Registered(prefab, store.ids.Keys) && Registered(instance, store.ids.Keys)
    modifies store
    ensures output == Created(prefab, instance, old(store.ids), handler)
    ensures output.Some? ==> store.ids == Restored(Renamed(prefab, instance, old(store.ids)).ids,
                                                   Renamed(prefab, instance, old(store.ids)).log)
    ensures output.Some? && DistinctSlots(instance) ==> store.ids == old(store.ids)
    ensures output.None? ==> store.ids == old(store.ids)
  {
    if prefab.prefabLinkUUID != instance.prefabLinkUUID {
      return None;
    }
    var renamedObjects := store.RenameInstanceIds(prefab, instance);
    var root := GenerateDiff(prefab, instance, store.ids, handler);
    output := Some(PrefabDiff(root));
    store.RestoreInstanceIds(renamedObjects);
    if DistinctSlots(instance) {
      RenameRestoreRoundTrip(prefab, instance, old(store.ids));
    }
  }

  /** create gives no diff exactly when the two roots carry different
      prefab link UUIDs. Otherwise the root diff is absent exactly when the
      renamed instance matches the prefab throughout, and when present it
      names the instance root and carries its link ID. */
  lemma CreatedExactlyForSamePrefab(prefab: SceneObject, instance: SceneObject, ids: IdTable, handler: DiffHandler)
    requires Registered(prefab, ids.Keys) && Registered(instance, ids.Keys)
    ensures var r := Created(prefab, instance, ids, handler);
            (r.None? <==> prefab.prefabLinkUUID != instance.prefabLinkUUID) &&
            (r.Some? && r.value.root.Some? ==>
               r.value.root.value.id == instance.linkId && r.value.root.value.name == instance.name) &&
            (r.Some? ==>
               var renamed := Renamed(prefab, instance, ids).ids;
               (r.value.root.None? <==>
                  prefab.name == instance.name &&
                  (forall x :: x in ChildLinks(prefab.children) ==> x in ChildLinks(instance.children)) &&
                  (forall x :: x in ComponentLinks(prefab.components) ==> x in ComponentLinks(instance.components)) &&
                  (forall i :: 0 <= i < |prefab.children| ==> MatchedChildDiff(prefab, instance, i, renamed, handler).None?) &&
                  (forall c :: c in prefab.components ==> MatchedDelta(c, instance.components, renamed, handler).None?) &&
                  (forall c :: c in instance.children ==>
                     c.dontSave || (c.linkId != NoLink && c.linkId in ChildLinks(prefab.children))) &&
                  (forall c :: c in instance.components ==>
                     c.linkId != NoLink && c.linkId in ComponentLinks(prefab.components))))
  {
    if prefab.prefabLinkUUID == instance.prefabLinkUUID {
      NoDiffExactlyWhenUnchanged(prefab, instance, Renamed(prefab, instance, ids).ids, handler);
    }
  }

  /** The object a diff turns obj into: obj itself when the root is absent. */
  function AppliedTo(d: PrefabDiff, obj: SceneObject, handler: ApplyHandler): SceneObject
  {
    match d.root
    case None => obj
    case Some(root) => Applied(root, obj, handler)
  }

  /** PrefabDiff::apply. */
  method Apply(d: PrefabDiff, obj: SceneObject, handler: ApplyHandler) returns (result: SceneObject)
    ensures result == AppliedTo(d, obj, handler)
  {
    if d.root.None? {
      return obj;
    }
    result := ApplyDiff(d.root.value, obj, handler);
  }

  /** apply is a no-op without a root diff; otherwise the object takes the
      diff's name and keeps its link ID, instance data, prefab link and
      flags, and its children are the survivors of the removals followed by
      the added children. */
  lemma AppliedKeepsIdentity(d: PrefabDiff, obj: SceneObject, handler: ApplyHandler)
    ensures var r := AppliedTo(d, obj, handler);
            (d.root.None? ==> r == obj) &&
            (d.root.Some? ==>
               r.name == d.root.value.name &&
               ChildLinks(r.children) ==
                 ChildLinks(RemoveChildren(obj.children, d.root.value.removedChildren)) +
                 ChildLinks(DecodeObjects(d.root.value.addedChildren))) &&
            r.linkId == obj.linkId && r.slot == obj.slot &&
            r.prefabLinkUUID == obj.prefabLinkUUID && r.dontSave == obj.dontSave
  {
    if d.root.Some? {
      AppliedChildOrder(d.root.value, obj, handler);
    }
  }
}
