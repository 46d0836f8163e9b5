/**
 * Diff application (PrefabDiff::applyDiff): replays an ObjectDiff onto a
 * scene object in a fixed order. The name is set; removed components and
 * children are destroyed (the first entity carrying each removed link ID);
 * added components and children are decoded and appended after the
 * survivors; component deltas go to the first component with their link ID;
 * child diffs recurse into the first child with their link ID. Entries that
 * match nothing are skipped.
 *
 * The tree is a value here: destroying an entity removes it from its
 * sequence and the method returns the updated object.
 */
module DiffApply {
  import opened Wrappers
  import opened Scene
  import opened Serialization
  import opened DiffGeneration

  /** Component::destroy on the first component carrying id, if any. */
  function RemoveFirstComponent(cs: seq<Component>, id: LinkId): (r: seq<Component>)
    ensures id !in ComponentLinks(cs) ==> r == cs
    ensures id in ComponentLinks(cs) ==> |r| == |cs| - 1
  {
    match FirstIndex(ComponentLinks(cs), id)
    case None => cs
    case Some(j) => cs[..j] + cs[j + 1..]
  }

  /** SceneObject::destroy on the first child carrying id, if any. */
  function RemoveFirstChild(cs: seq<SceneObject>, id: LinkId): (r: seq<SceneObject>)
    ensures id !in ChildLinks(cs) ==> r == cs
    ensures id in ChildLinks(cs) ==> |r| == |cs| - 1
  {
    match FirstIndex(ChildLinks(cs), id)
    case None => cs
    case Some(j) => cs[..j] + cs[j + 1..]
  }

  /** The components left after each removed ID is handled in turn. */
  function RemoveComponents(cs: seq<Component>, removed: seq<LinkId>): (r: seq<Component>)
    ensures |r| <= |cs|
  {
    if removed == [] then cs
    else
      var n := |removed| - 1;
      RemoveFirstComponent(RemoveComponents(cs, removed[..n]), removed[n])
  }

  /** The children left after each removed ID is handled in turn. */
  function RemoveChildren(cs: seq<SceneObject>, removed: seq<LinkId>): (r: seq<SceneObject>)
    ensures |r| <= |cs|
  {
    if removed == [] then cs
    else
      var n := |removed| - 1;
      RemoveFirstChild(RemoveChildren(cs, removed[..n]), removed[n])
  }

  function DecodeComponents(blobs: seq<SerializedComponent>): (r: seq<Component>)
    ensures |r| == |blobs|
    ensures forall i :: 0 <= i < |blobs| ==> r[i] == DecodeComponent(blobs[i])
  {
    seq(|blobs|, i requires 0 <= i < |blobs| => DecodeComponent(blobs[i]))
  }

  function DecodeObjects(blobs: seq<SerializedObject>): (r: seq<SceneObject>)
    ensures |r| == |blobs|
    ensures forall i :: 0 <= i < |blobs| ==> r[i] == DecodeObject(blobs[i])
  {
    seq(|blobs|, i requires 0 <= i < |blobs| => DecodeObject(blobs[i]))
  }

  /** The type's diff handler applied to the first component carrying the
      entry's link ID; nothing happens when no component carries it. */
  function ApplyComponentDiff(cs: seq<Component>, cd: ComponentDiff, handler: ApplyHandler): (r: seq<Component>)
    ensures ComponentLinks(r) == ComponentLinks(cs)
  {
    match FirstIndex(ComponentLinks(cs), cd.id)
    case None => cs
    case Some(j) => cs[j := cs[j].(state := handler(cs[j], cd.data))]
  }

  /** The component entries applied in order. */
  function ApplyComponentDiffs(cs: seq<Component>, cds: seq<ComponentDiff>, handler: ApplyHandler): (r: seq<Component>)
    ensures ComponentLinks(r) == ComponentLinks(cs)
  {
    if cds == [] then cs
    else
      var n := |cds| - 1;
      ApplyComponentDiff(ApplyComponentDiffs(cs, cds[..n], handler), cds[n], handler)
  }

  /** A child entry applied to the first child carrying its link ID;
      nothing happens when no child carries it. */
  function ApplyChildDiff(cs: seq<SceneObject>, cd: ObjectDiff, handler: ApplyHandler): (r: seq<SceneObject>)
    ensures ChildLinks(r) == ChildLinks(cs)
    decreases cd, 2
  {
    match FirstIndex(ChildLinks(cs), cd.id)
    case None => cs
    case Some(j) => cs[j := Applied(cd, cs[j], handler)]
  }

  /** The child entries applied in order. */
  function ApplyChildDiffs(cs: seq<SceneObject>, cds: seq<ObjectDiff>, handler: ApplyHandler): (r: seq<SceneObject>)
    ensures ChildLinks(r) == ChildLinks(cs)
    decreases cds, 0
  {
    if cds == [] then cs
    else
      var n := |cds| - 1;
      ApplyChildDiff(ApplyChildDiffs(cs, cds[..n], handler), cds[n], handler)
  }

  /** The object after diff has been applied to it. Only the name, the
      components and the children change; the object keeps its link ID,
      instance data, prefab link and flags. */
  function Applied(diff: ObjectDiff, obj: SceneObject, handler: ApplyHandler): (r: SceneObject)
    ensures r.name == diff.name
    ensures r.linkId == obj.linkId && r.slot == obj.slot
    ensures r.prefabLinkUUID == obj.prefabLinkUUID && r.dontSave == obj.dontSave
    decreases diff, 1
  {
    var components := RemoveComponents(obj.components, diff.removedComponents) +
                      DecodeComponents(diff.addedComponents);
    var children := RemoveChildren(obj.children, diff.removedChildren) +
                    DecodeObjects(diff.addedChildren);
    obj.(name := diff.name,
         components := ApplyComponentDiffs(components, diff.componentDiffs, handler),
         children := ApplyChildDiffs(children, diff.childDiffs, handler))
  }

  /** destroy hits the first component carrying id and nothing else: the
      others keep their order. */
  lemma RemovesFirstComponent(cs: seq<Component>, id: LinkId, j: nat)
    requires j < |cs| && cs[j].linkId == id
    requires forall k :: 0 <= k < j ==> cs[k].linkId != id
    ensures RemoveFirstComponent(cs, id) == cs[..j] + cs[j + 1..]
  {
    var f := FirstIndex(ComponentLinks(cs), id);
    assert ComponentLinks(cs)[j] == id;
    assert f.Some? && f.value == j;
  }

  /** destroy hits the first child carrying id and nothing else: the others
      keep their order. */
  lemma RemovesFirstChild(cs: seq<SceneObject>, id: LinkId, j: nat)
    requires j < |cs| && cs[j].linkId == id
    requires forall k :: 0 <= k < j ==> cs[k].linkId != id
    ensures RemoveFirstChild(cs, id) == cs[..j] + cs[j + 1..]
  {
    var f := FirstIndex(ChildLinks(cs), id);
    assert ChildLinks(cs)[j] == id;
    assert f.Some? && f.value == j;
  }

  /** A component delta goes, through the type's handler, to the first
      component carrying its link ID and to no other component; it is
      skipped when no component carries the ID. */
  lemma ComponentDiffLands(cs: seq<Component>, cd: ComponentDiff, handler: ApplyHandler)
    ensures var r := ApplyComponentDiff(cs, cd, handler);
            |r| == |cs| &&
            (cd.id !in ComponentLinks(cs) ==> r == cs) &&
            forall j :: 0 <= j < |cs| && cs[j].linkId == cd.id && (forall k :: 0 <= k < j ==> cs[k].linkId != cd.id) ==>
              r[j] == cs[j].(state := handler(cs[j], cd.data)) &&
              forall m :: 0 <= m < |cs| && m != j ==> r[m] == cs[m]
  {
    var f := FirstIndex(ComponentLinks(cs), cd.id);
    forall j | 0 <= j < |cs| && cs[j].linkId == cd.id && (forall k :: 0 <= k < j ==> cs[k].linkId != cd.id)
      ensures f == Some(j)
    {
      assert ComponentLinks(cs)[j] == cd.id;
    }
  }

  /** A child diff is applied recursively to the first child carrying its
      link ID and to no other child; it is skipped when no child carries
      the ID. */
  lemma ChildDiffLands(cs: seq<SceneObject>, cd: ObjectDiff, handler: ApplyHandler)
    ensures var r := ApplyChildDiff(cs, cd, handler);
            |r| == |cs| &&
            (cd.id !in ChildLinks(cs) ==> r == cs) &&
            forall j :: 0 <= j < |cs| && cs[j].linkId == cd.id && (forall k :: 0 <= k < j ==> cs[k].linkId != cd.id) ==>
              r[j] == Applied(cd, cs[j], handler) &&
              forall m :: 0 <= m < |cs| && m != j ==> r[m] == cs[m]
  {
    var f := FirstIndex(ChildLinks(cs), cd.id);
    forall j | 0 <= j < |cs| && cs[j].linkId == cd.id && (forall k :: 0 <= k < j ==> cs[k].linkId != cd.id)
      ensures f == Some(j)
    {
      assert ChildLinks(cs)[j] == cd.id;
    }
  }

  /** A component whose link ID no delta carries is left exactly as it was. */
  lemma {:induction false} UntargetedComponentsUnchanged(cs: seq<Component>, cds: seq<ComponentDiff>, handler: ApplyHandler, k: nat)
    requires k < |cs| && forall d :: d in cds ==> d.id != cs[k].linkId
    ensures var r := ApplyComponentDiffs(cs, cds, handler);
            k < |r| && r[k] == cs[k]
  {
    if cds != [] {
      var n := |cds| - 1;
      assert forall d :: d in cds[..n] ==> d in cds;
      UntargetedComponentsUnchanged(cs, cds[..n], handler, k);
      var prev := ApplyComponentDiffs(cs, cds[..n], handler);
      assert ComponentLinks(prev) == ComponentLinks(cs);
      assert cds[n] in cds;
      match FirstIndex(ComponentLinks(prev), cds[n].id)
      case None =>
      case Some(j) =>
        assert prev[k].linkId == cs[k].linkId;
    }
  }

  /** A child whose link ID no child diff carries is left exactly as it was. */
  lemma {:induction false} UntargetedChildrenUnchanged(cs: seq<SceneObject>, cds: seq<ObjectDiff>, handler: ApplyHandler, k: nat)
    requires k < |cs| && forall d :: d in cds ==> d.id != cs[k].linkId
    ensures var r := ApplyChildDiffs(cs, cds, handler);
            k < |r| && r[k] == cs[k]
  {
    if cds != [] {
      var n := |cds| - 1;
      assert forall d :: d in cds[..n] ==> d in cds;
      UntargetedChildrenUnchanged(cs, cds[..n], handler, k);
      var prev := ApplyChildDiffs(cs, cds[..n], handler);
      assert ChildLinks(prev) == ChildLinks(cs);
      assert cds[n] in cds;
      match FirstIndex(ChildLinks(prev), cds[n].id)
      case None =>
      case Some(j) =>
        assert prev[k].linkId == cs[k].linkId;
    }
  }

  /** A delta whose link ID no other delta of the list carries lands, through
      the type's handler, on the first component carrying that ID. */
  lemma {:induction false} TargetedComponentUpdated(cs: seq<Component>, cds: seq<ComponentDiff>, handler: ApplyHandler, i: nat, j: nat)
    requires i < |cds| && j < |cs| && cs[j].linkId == cds[i].id
    requires forall k :: 0 <= k < j ==> cs[k].linkId != cds[i].id
    requires forall m :: 0 <= m < |cds| && m != i ==> cds[m].id != cds[i].id
    ensures var r := ApplyComponentDiffs(cs, cds, handler);
            j < |r| && r[j] == cs[j].(state := handler(cs[j], cds[i].data))
  {
    var n := |cds| - 1;
    var prev := ApplyComponentDiffs(cs, cds[..n], handler);
    assert ComponentLinks(prev) == ComponentLinks(cs);
    assert forall k :: 0 <= k < |cs| ==> prev[k].linkId == ComponentLinks(cs)[k];
    ComponentDiffLands(prev, cds[n], handler);
    if i == n {
      forall d | d in cds[..n] ensures d.id != cs[j].linkId {
        var m :| 0 <= m < n && cds[..n][m] == d;
      }
      UntargetedComponentsUnchanged(cs, cds[..n], handler, j);
    } else {
      TargetedComponentUpdated(cs, cds[..n], handler, i, j);
      match FirstIndex(ComponentLinks(prev), cds[n].id)
      case None =>
      case Some(t) =>
        assert prev[t].linkId == cds[n].id;
    }
  }

  /** A child diff whose link ID no other child diff of the list carries is
      applied, recursively, to the first child carrying that ID. */
  lemma {:induction false} TargetedChildUpdated(cs: seq<SceneObject>, cds: seq<ObjectDiff>, handler: ApplyHandler, i: nat, j: nat)
    requires i < |cds| && j < |cs| && cs[j].linkId == cds[i].id
    requires forall k :: 0 <= k < j ==> cs[k].linkId != cds[i].id
    requires forall m :: 0 <= m < |cds| && m != i ==> cds[m].id != cds[i].id
    ensures var r := ApplyChildDiffs(cs, cds, handler);
            j < |r| && r[j] == Applied(cds[i], cs[j], handler)
  {
    var n := |cds| - 1;
    var prev := ApplyChildDiffs(cs, cds[..n], handler);
    assert ChildLinks(prev) == ChildLinks(cs);
    assert forall k :: 0 <= k < |cs| ==> prev[k].linkId == ChildLinks(cs)[k];
    ChildDiffLands(prev, cds[n], handler);
    if i == n {
      forall d | d in cds[..n] ensures d.id != cs[j].linkId {
        var m :| 0 <= m < n && cds[..n][m] == d;
      }
      UntargetedChildrenUnchanged(cs, cds[..n], handler, j);
    } else {
      TargetedChildUpdated(cs, cds[..n], handler, i, j);
      match FirstIndex(ChildLinks(prev), cds[n].id)
      case None =>
      case Some(t) =>
        assert prev[t].linkId == cds[n].id;
    }
  }

  /** Removals happen before additions and deltas never reorder or relink:
      the children of the result are the survivors of the removals, in their
      old order, followed by the added children in the diff's order. */
  lemma AppliedChildOrder(diff: ObjectDiff, obj: SceneObject, handler: ApplyHandler)
    ensures ChildLinks(Applied(diff, obj, handler).children) ==
            ChildLinks(RemoveChildren(obj.children, diff.removedChildren)) +
            ChildLinks(DecodeObjects(diff.addedChildren))
  {
    var survivors := RemoveChildren(obj.children, diff.removedChildren);
    var added := DecodeObjects(diff.addedChildren);
    assert ChildLinks(survivors + added) == ChildLinks(survivors) + ChildLinks(added);
  }

  /** The components of the result are the survivors of the removals, in
      their old order, followed by the added components in the diff's order. */
  lemma AppliedComponentOrder(diff: ObjectDiff, obj: SceneObject, handler: ApplyHandler)
    ensures ComponentLinks(Applied(diff, obj, handler).components) ==
            ComponentLinks(RemoveComponents(obj.components, diff.removedComponents)) +
            ComponentLinks(DecodeComponents(diff.addedComponents))
  {
    var survivors := RemoveComponents(obj.components, diff.removedComponents);
    var added := DecodeComponents(diff.addedComponents);
    assert ComponentLinks(survivors + added) == ComponentLinks(survivors) + ComponentLinks(added);
  }

  /** An added child is never destroyed by a removal entry of the same diff,
      even when it reuses a removed link ID: every added child is present in
      the result, after all surviving children. */
  lemma AddedChildrenKept(diff: ObjectDiff, obj: SceneObject, handler: ApplyHandler, k: nat)
    requires k < |diff.addedChildren|
    ensures var survivors := RemoveChildren(obj.children, diff.removedChildren);
            var r := Applied(diff, obj, handler);
            |survivors| + k < |r.children| &&
            r.children[|survivors| + k].linkId == DecodeObject(diff.addedChildren[k]).linkId
  {
    var survivors := RemoveChildren(obj.children, diff.removedChildren);
    var added := DecodeObjects(diff.addedChildren);
    var r := Applied(diff, obj, handler);
    assert r.children == ApplyChildDiffs(survivors + added, diff.childDiffs, handler);
    assert ChildLinks(r.children) == ChildLinks(survivors + added);
    assert (survivors + added)[|survivors| + k] == added[k];
  }

  /** In applyDiff, a component delta whose link ID no other delta carries
      updates the first component carrying that ID among the survivors of
      the removals followed by the added components. */
  lemma AppliedComponentDeltaLands(diff: ObjectDiff, obj: SceneObject, handler: ApplyHandler, i: nat, j: nat)
    requires var all := RemoveComponents(obj.components, diff.removedComponents) + DecodeComponents(diff.addedComponents);
             i < |diff.componentDiffs| && j < |all| && all[j].linkId == diff.componentDiffs[i].id &&
             (forall k :: 0 <= k < j ==> all[k].linkId != diff.componentDiffs[i].id) &&
             forall m :: 0 <= m < |diff.componentDiffs| && m != i ==> diff.componentDiffs[m].id != diff.componentDiffs[i].id
    ensures var all := RemoveComponents(obj.components, diff.removedComponents) + DecodeComponents(diff.addedComponents);
            var r := Applied(diff, obj, handler);
            j < |r.components| && r.components[j] == all[j].(state := handler(all[j], diff.componentDiffs[i].data))
  {
    var all := RemoveComponents(obj.components, diff.removedComponents) + DecodeComponents(diff.addedComponents);
    TargetedComponentUpdated(all, diff.componentDiffs, handler, i, j);
  }

  /** In applyDiff, a child diff whose link ID no other child diff carries is
      applied to the first child carrying that ID among the survivors of the
      removals followed by the added children. */
  lemma AppliedChildDeltaLands(diff: ObjectDiff, obj: SceneObject, handler: ApplyHandler, i: nat, j: nat)
    requires var all := RemoveChildren(obj.children, diff.removedChildren) + DecodeObjects(diff.addedChildren);
             i < |diff.childDiffs| && j < |all| && all[j].linkId == diff.childDiffs[i].id &&
             (forall k :: 0 <= k < j ==> all[k].linkId != diff.childDiffs[i].id) &&
             forall m :: 0 <= m < |diff.childDiffs| && m != i ==> diff.childDiffs[m].id != diff.childDiffs[i].id
    ensures var all := RemoveChildren(obj.children, diff.removedChildren) + DecodeObjects(diff.addedChildren);
            var r := Applied(diff, obj, handler);
            j < |r.children| && r.children[j] == Applied(diff.childDiffs[i], all[j], handler)
  {
    var all := RemoveChildren(obj.children, diff.removedChildren) + DecodeObjects(diff.addedChildren);
    TargetedChildUpdated(all, diff.childDiffs, handler, i, j);
  }

  /** One more component entry is applied after all earlier ones. */
  lemma ApplyComponentDiffsSnoc(cs: seq<Component>, cds: seq<ComponentDiff>, cd: ComponentDiff, handler: ApplyHandler)
    ensures ApplyComponentDiffs(cs, cds + [cd], handler) == ApplyComponentDiff(ApplyComponentDiffs(cs, cds, handler), cd, handler)
  {
    assert (cds + [cd])[..|cds|] == cds;
  }

  /** A component entry whose link ID no component carries is skipped and
      leaves every other entry's effect intact: dropping it from the list
      does not change the outcome. */
  lemma {:induction false} UnmatchedComponentDiffSkipped(cs: seq<Component>, before: seq<ComponentDiff>, cd: ComponentDiff,
                                                          after: seq<ComponentDiff>, handler: ApplyHandler)
    requires cd.id !in ComponentLinks(cs)
    ensures ApplyComponentDiffs(cs, before + [cd] + after, handler) == ApplyComponentDiffs(cs, before + after, handler)
  {
    if after == [] {
      ApplyComponentDiffsSnoc(cs, before, cd, handler);
      assert before + [cd] + after == before + [cd];
      assert before + after == before;
    } else {
      var n := |after| - 1;
      UnmatchedComponentDiffSkipped(cs, before, cd, after[..n], handler);
      ApplyComponentDiffsSnoc(cs, before + [cd] + after[..n], after[n], handler);
      ApplyComponentDiffsSnoc(cs, before + after[..n], after[n], handler);
      assert before + [cd] + after == before + [cd] + after[..n] + [after[n]];
      assert before + after == before + after[..n] + [after[n]];
    }
  }

  /** One more child entry is applied after all earlier ones. */
  lemma ApplyChildDiffsSnoc(cs: seq<SceneObject>, cds: seq<ObjectDiff>, cd: ObjectDiff, handler: ApplyHandler)
    ensures ApplyChildDiffs(cs, cds + [cd], handler) == ApplyChildDiff(ApplyChildDiffs(cs, cds, handler), cd, handler)
  {
    assert (cds + [cd])[..|cds|] == cds;
  }

  /** A child entry whose link ID no child carries is skipped and leaves
      every other entry's effect intact. */
  lemma {:induction false} UnmatchedChildDiffSkipped(cs: seq<SceneObject>, before: seq<ObjectDiff>, cd: ObjectDiff,
                                                      after: seq<ObjectDiff>, handler: ApplyHandler)
    requires cd.id !in ChildLinks(cs)
    ensures ApplyChildDiffs(cs, before + [cd] + after, handler) == ApplyChildDiffs(cs, before + after, handler)
  {
    if after == [] {
      ApplyChildDiffsSnoc(cs, before, cd, handler);
      assert before + [cd] + after == before + [cd];
      assert before + after == before;
    } else {
      var n := |after| - 1;
      UnmatchedChildDiffSkipped(cs, before, cd, after[..n], handler);
      ApplyChildDiffsSnoc(cs, before + [cd] + after[..n], after[n], handler);
      ApplyChildDiffsSnoc(cs, before + after[..n], after[n], handler);
      assert before + [cd] + after == before + [cd] + after[..n] + [after[n]];
      assert before + after == before + after[..n] + [after[n]];
    }
  }

  lemma RemovedFirstComponentWasThere(cs: seq<Component>, id: LinkId)
    ensures forall c :: c in RemoveFirstComponent(cs, id) ==> c in cs
  {
    match FirstIndex(ComponentLinks(cs), id)
    case None =>
    case Some(j) =>
      assert cs == cs[..j] + [cs[j]] + cs[j + 1..];
  }

  /** Removal only ever takes components away. */
  lemma {:induction false} RemovedComponentsWereThere(cs: seq<Component>, removed: seq<LinkId>)
    ensures forall c :: c in RemoveComponents(cs, removed) ==> c in cs
  {
    if removed != [] {
      var n := |removed| - 1;
      RemovedComponentsWereThere(cs, removed[..n]);
      RemovedFirstComponentWasThere(RemoveComponents(cs, removed[..n]), removed[n]);
    }
  }

  lemma RemoveComponentsSnoc(cs: seq<Component>, removed: seq<LinkId>, id: LinkId)
    ensures RemoveComponents(cs, removed + [id]) == RemoveFirstComponent(RemoveComponents(cs, removed), id)
  {
    assert (removed + [id])[..|removed|] == removed;
  }

  /** Lists of removal entries with the same effect keep it when one more
      entry is appended to both. */
  lemma RemoveComponentsExtend(cs: seq<Component>, x: seq<LinkId>, y: seq<LinkId>, id: LinkId)
    requires RemoveComponents(cs, x) == RemoveComponents(cs, y)
    ensures RemoveComponents(cs, x + [id]) == RemoveComponents(cs, y + [id])
  {
    RemoveComponentsSnoc(cs, x, id);
    RemoveComponentsSnoc(cs, y, id);
  }

  lemma UnmatchedComponentRemovalLast(cs: seq<Component>, before: seq<LinkId>, id: LinkId)
    requires id !in ComponentLinks(cs)
    ensures RemoveComponents(cs, before + [id]) == RemoveComponents(cs, before)
  {
    var prev := RemoveComponents(cs, before);
    RemovedComponentsWereThere(cs, before);
    ComponentLinkMembers(cs, id);
    ComponentLinkMembers(prev, id);
    RemoveComponentsSnoc(cs, before, id);
  }

  /** A removal entry whose link ID no component carries is skipped and
      leaves every other entry's effect intact, wherever it stands. */
  lemma {:induction false} UnmatchedComponentRemovalSkipped(cs: seq<Component>, before: seq<LinkId>, id: LinkId, after: seq<LinkId>)
    requires id !in ComponentLinks(cs)
    ensures RemoveComponents(cs, before + [id] + after) == RemoveComponents(cs, before + after)
  {
    if after == [] {
      UnmatchedComponentRemovalLast(cs, before, id);
      assert before + [id] + after == before + [id];
      assert before + after == before;
    } else {
      var n := |after| - 1;
      var with := before + [id] + after[..n];
      var without := before + after[..n];
      calc {
        RemoveComponents(cs, before + [id] + after);
        { assert before + [id] + after == with + [after[n]]; }
        RemoveComponents(cs, with + [after[n]]);
        { UnmatchedComponentRemovalSkipped(cs, before, id, after[..n]);
          RemoveComponentsExtend(cs, with, without, after[n]); }
        RemoveComponents(cs, without + [after[n]]);
        { assert before + after == without + [after[n]]; }
        RemoveComponents(cs, before + after);
      }
    }
  }

  lemma RemovedFirstChildWasThere(cs: seq<SceneObject>, id: LinkId)
    ensures forall c :: c in RemoveFirstChild(cs, id) ==> c in cs
  {
    match FirstIndex(ChildLinks(cs), id)
    case None =>
    case Some(j) =>
      assert cs == cs[..j] + [cs[j]] + cs[j + 1..];
  }

  /** Removal only ever takes children away. */
  lemma {:induction false} RemovedChildrenWereThere(cs: seq<SceneObject>, removed: seq<LinkId>)
    ensures forall c :: c in RemoveChildren(cs, removed) ==> c in cs
  {
    if removed != [] {
      var n := |removed| - 1;
      RemovedChildrenWereThere(cs, removed[..n]);
      RemovedFirstChildWasThere(RemoveChildren(cs, removed[..n]), removed[n]);
    }
  }

  lemma RemoveChildrenSnoc(cs: seq<SceneObject>, removed: seq<LinkId>, id: LinkId)
    ensures RemoveChildren(cs, removed + [id]) == RemoveFirstChild(RemoveChildren(cs, removed), id)
  {
    assert (removed + [id])[..|removed|] == removed;
  }

  /** Lists of removal entries with the same effect keep it when one more
      entry is appended to both. */
  lemma RemoveChildrenExtend(cs: seq<SceneObject>, x: seq<LinkId>, y: seq<LinkId>, id: LinkId)
    requires RemoveChildren(cs, x) == RemoveChildren(cs, y)
    ensures RemoveChildren(cs, x + [id]) == RemoveChildren(cs, y + [id])
  {
    RemoveChildrenSnoc(cs, x, id);
    RemoveChildrenSnoc(cs, y, id);
  }

  lemma UnmatchedChildRemovalLast(cs: seq<SceneObject>, before: seq<LinkId>, id: LinkId)
    requires id !in ChildLinks(cs)
    ensures RemoveChildren(cs, before + [id]) == RemoveChildren(cs, before)
  {
    var prev := RemoveChildren(cs, before);
    RemovedChildrenWereThere(cs, before);
    ChildLinkMembers(cs, id);
    ChildLinkMembers(prev, id);
    RemoveChildrenSnoc(cs, before, id);
  }

  /** A removal entry whose link ID no child carries is skipped and leaves
      every other entry's effect intact, wherever it stands. */
  lemma {:induction false} UnmatchedChildRemovalSkipped(cs: seq<SceneObject>, before: seq<LinkId>, id: LinkId, after: seq<LinkId>)
    requires id !in ChildLinks(cs)
    ensures RemoveChildren(cs, before + [id] + after) == RemoveChildren(cs, before + after)
  {
    if after == [] {
      UnmatchedChildRemovalLast(cs, before, id);
      assert before + [id] + after == before + [id];
      assert before + after == before;
    } else {
      var n := |after| - 1;
      var with := before + [id] + after[..n];
      var without := before + after[..n];
      calc {
        RemoveChildren(cs, before + [id] + after);
        { assert before + [id] + after == with + [after[n]]; }
        RemoveChildren(cs, with + [after[n]]);
        { UnmatchedChildRemovalSkipped(cs, before, id, after[..n]);
          RemoveChildrenExtend(cs, with, without, after[n]); }
        RemoveChildren(cs, without + [after[n]]);
        { assert before + after == without + [after[n]]; }
        RemoveChildren(cs, before + after);
      }
    }
  }

  /** A surviving component that no delta targets comes out of applyDiff
      exactly as it was, at its old position among the survivors. */
  lemma UntargetedSurvivingComponentKept(diff: ObjectDiff, obj: SceneObject, handler: ApplyHandler, k: nat)
    requires k < |RemoveComponents(obj.components, diff.removedComponents)|
    requires forall d :: d in diff.componentDiffs ==>
               d.id != RemoveComponents(obj.components, diff.removedComponents)[k].linkId
    ensures var survivors := RemoveComponents(obj.components, diff.removedComponents);
            var r := Applied(diff, obj, handler);
            k < |r.components| && r.components[k] == survivors[k]
  {
    var survivors := RemoveComponents(obj.components, diff.removedComponents);
    var all := survivors + DecodeComponents(diff.addedComponents);
    assert all[k] == survivors[k];
    UntargetedComponentsUnchanged(all, diff.componentDiffs, handler, k);
  }

  /** A surviving child that no child diff targets comes out of applyDiff
      exactly as it was, at its old position among the survivors. */
  lemma UntargetedSurvivingChildKept(diff: ObjectDiff, obj: SceneObject, handler: ApplyHandler, k: nat)
    requires k < |RemoveChildren(obj.children, diff.removedChildren)|
    requires forall d :: d in diff.childDiffs ==>
               d.id != RemoveChildren(obj.children, diff.removedChildren)[k].linkId
    ensures var survivors := RemoveChildren(obj.children, diff.removedChildren);
            var r := Applied(diff, obj, handler);
            k < |r.children| && r.children[k] == survivors[k]
  {
    var survivors := RemoveChildren(obj.children, diff.removedChildren);
    var all := survivors + DecodeObjects(diff.addedChildren);
    assert all[k] == survivors[k];
    UntargetedChildrenUnchanged(all, diff.childDiffs, handler, k);
  }

  /** The removal loop over removedComponents. */
  method DestroyComponents(components: seq<Component>, removed: seq<LinkId>) returns (r: seq<Component>)
    ensures r == RemoveComponents(components, removed)
  {
    r := components;
    var i := 0;
    while i < |removed|
      invariant 0 <= i <= |removed|
      invariant r == RemoveComponents(components, removed[..i])
    {
      var index := FindComponent(r, removed[i]);
      if index.Some? {
        r := r[..index.value] + r[index.value + 1..];
      }
      assert removed[..i + 1][..i] == removed[..i];
      i := i + 1;
    }
    assert removed[..i] == removed;
  }

  /** The removal loop over removedChildren. */
  method DestroyChildren(children: seq<SceneObject>, removed: seq<LinkId>) returns (r: seq<SceneObject>)
    ensures r == RemoveChildren(children, removed)
  {
    r := children;
    var i := 0;
    while i < |removed|
      invariant 0 <= i <= |removed|
      invariant r == RemoveChildren(children, removed[..i])
    {
      var index := FindChild(r, removed[i]);
      if index.Some? {
        r := r[..index.value] + r[index.value + 1..];
      }
      assert removed[..i + 1][..i] == removed[..i];
      i := i + 1;
    }
    assert removed[..i] == removed;
  }

  /** The loop that decodes and attaches the added components. */
  method AttachComponents(components: seq<Component>, added: seq<SerializedComponent>) returns (r: seq<Component>)
    ensures r == components + DecodeComponents(added)
  {
    r := components;
    var i := 0;
    while i < |added|
      invariant 0 <= i <= |added|
      invariant r == components + DecodeComponents(added[..i])
    {
      r := r + [DecodeComponent(added[i])];
      assert DecodeComponents(added[..i + 1]) == DecodeComponents(added[..i]) + [DecodeComponent(added[i])];
      i := i + 1;
    }
    assert added[..i] == added;
  }

  /** The loop that decodes the added children and parents them. */
  method AttachChildren(children: seq<SceneObject>, added: seq<SerializedObject>) returns (r: seq<SceneObject>)
    ensures r == children + DecodeObjects(added)
  {
    r := children;
    var i := 0;
    while i < |added|
      invariant 0 <= i <= |added|
      invariant r == children + DecodeObjects(added[..i])
    {
      r := r + [DecodeObject(added[i])];
      assert DecodeObjects(added[..i + 1]) == DecodeObjects(added[..i]) + [DecodeObject(added[i])];
      i := i + 1;
    }
    assert added[..i] == added;
  }

  /** The loop over componentDiffs. */
  method PatchComponents(components: seq<Component>, cds: seq<ComponentDiff>, handler: ApplyHandler) returns (r: seq<Component>)
    ensures r == ApplyComponentDiffs(components, cds, handler)
  {
    r := components;
    var i := 0;
    while i < |cds|
      invariant 0 <= i <= |cds|
      invariant r == ApplyComponentDiffs(components, cds[..i], handler)
    {
      var index := FindComponent(r, cds[i].id);
      if index.Some? {
        var component := r[index.value];
        r := r[index.value := component.(state := handler(component, cds[i].data))];
      }
      assert cds[..i + 1][..i] == cds[..i];
      i := i + 1;
    }
    assert cds[..i] == cds;
  }

  /** The loop over childDiffs, recursing into the matched children. */
  method PatchChildren(children: seq<SceneObject>, cds: seq<ObjectDiff>, handler: ApplyHandler) returns (r: seq<SceneObject>)
    ensures r == ApplyChildDiffs(children, cds, handler)
    decreases cds, 0
  {
    r := children;
    var i := 0;
    while i < |cds|
      invariant 0 <= i <= |cds|
      invariant r == ApplyChildDiffs(children, cds[..i], handler)
    {
      var index := FindChild(r, cds[i].id);
      if index.Some? {
        var child := ApplyDiff(cds[i], r[index.value], handler);
        r := r[index.value := child];
      }
      assert cds[..i + 1][..i] == cds[..i];
      i := i + 1;
    }
    assert cds[..i] == cds;
  }

  /** PrefabDiff::applyDiff: set the name, destroy, attach, then apply the
      component deltas and recurse into the child diffs. */
  method ApplyDiff(diff: ObjectDiff, obj: SceneObject, handler: ApplyHandler) returns (result: SceneObject)
    ensures result == Applied(diff, obj, handler)
    decreases diff, 2
  {
    var components := DestroyComponents(obj.components, diff.removedComponents);
    var children := DestroyChildren(obj.children, diff.removedChildren);
    components := AttachComponents(components, diff.addedComponents);
    children := AttachChildren(children, diff.addedChildren);
    components := PatchComponents(components, diff.componentDiffs, handler);
    children := PatchChildren(children, diff.childDiffs, handler);
    result := obj.(name := diff.name, components := components, children := children);
  }
}
