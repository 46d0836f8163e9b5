/**
 * Diff generation (PrefabDiff::generateDiff): the delta between a prefab
 * scene-object tree and an instance tree derived from it. Children and
 * components are matched purely by link ID, with the first match winning.
 *
 * The functions here define the delta; the method GenerateDiff at the end
 * computes it with the loops of the engine and is proved to agree.
 */
module DiffGeneration {
  import opened Wrappers
  import opened Scene
  import opened Serialization

  datatype ComponentDiff = ComponentDiff(id: LinkId, data: Delta)

  /** PrefabObjectDiff: the customizations of one instance object. */
  datatype ObjectDiff = ObjectDiff(
    id: LinkId,
    name: string,
    removedChildren: seq<LinkId>,
    removedComponents: seq<LinkId>,
    addedChildren: seq<SerializedObject>,
    addedComponents: seq<SerializedComponent>,
    childDiffs: seq<ObjectDiff>,
    componentDiffs: seq<ComponentDiff>)

  /** A freshly allocated diff record, before any entry is pushed. */
  const NewDiff: ObjectDiff := ObjectDiff(0, "", [], [], [], [], [], [])

  predicate NoEntries(d: ObjectDiff)
  {
    d.removedChildren == [] && d.removedComponents == [] &&
    d.addedChildren == [] && d.addedComponents == [] &&
    d.childDiffs == [] && d.componentDiffs == []
  }

  /** Removed entries: the prefab link IDs that no instance entity carries,
      in prefab order. */
  function UnmatchedLinks(prefabLinks: seq<LinkId>, instanceLinks: seq<LinkId>): (r: seq<LinkId>)
    ensures |r| <= |prefabLinks|
  {
    if prefabLinks == [] then []
    else
      var last := prefabLinks[|prefabLinks| - 1];
      UnmatchedLinks(prefabLinks[..|prefabLinks| - 1], instanceLinks) +
      (if last in instanceLinks then [] else [last])
  }

  /** A prefab link ID is recorded as removed exactly when no instance
      entity carries it. */
  lemma {:induction false} UnmatchedLinksMembers(prefabLinks: seq<LinkId>, instanceLinks: seq<LinkId>)
    ensures forall x :: x in UnmatchedLinks(prefabLinks, instanceLinks) <==> x in prefabLinks && x !in instanceLinks
  {
    if prefabLinks != [] {
      var n := |prefabLinks| - 1;
      UnmatchedLinksMembers(prefabLinks[..n], instanceLinks);
      assert prefabLinks == prefabLinks[..n] + [prefabLinks[n]];
    }
  }

  /** Removed entries keep prefab order: the removals of a concatenation
      are the removals of its first part followed by those of the second. */
  lemma {:induction false} UnmatchedLinksAppend(a: seq<LinkId>, b: seq<LinkId>, instanceLinks: seq<LinkId>)
    ensures UnmatchedLinks(a + b, instanceLinks) == UnmatchedLinks(a, instanceLinks) + UnmatchedLinks(b, instanceLinks)
  {
    if b == [] {
      assert a + b == a;
    } else {
      var n := |b| - 1;
      UnmatchedLinksAppend(a, b[..n], instanceLinks);
      assert (a + b)[..|a + b| - 1] == a + b[..n];
    }
  }

  /** An instance child that the diff records as added. */
  predicate IsAddedChild(c: SceneObject, prefabLinks: seq<LinkId>)
  {
    !c.dontSave && (c.linkId == NoLink || c.linkId !in prefabLinks)
  }

  /** An instance component that the diff records as added. */
  predicate IsAddedComponent(c: Component, prefabLinks: seq<LinkId>)
  {
    c.linkId == NoLink || c.linkId !in prefabLinks
  }

  /** Serialized added children, in instance order. */
  function AddedChildren(prefabLinks: seq<LinkId>, children: seq<SceneObject>, ids: IdTable): (r: seq<SerializedObject>)
    ensures |r| <= |children|
  {
    if children == [] then []
    else
      var c := children[|children| - 1];
      AddedChildren(prefabLinks, children[..|children| - 1], ids) +
      (if IsAddedChild(c, prefabLinks) then [EncodeObject(c, ids)] else [])
  }

  /** Serialized added components, in instance order. */
  function AddedComponents(prefabLinks: seq<LinkId>, components: seq<Component>, ids: IdTable): (r: seq<SerializedComponent>)
    ensures |r| <= |components|
  {
    if components == [] then []
    else
      var c := components[|components| - 1];
      AddedComponents(prefabLinks, components[..|components| - 1], ids) +
      (if IsAddedComponent(c, prefabLinks) then [EncodeComponent(c, ids)] else [])
  }

  /** Added children keep instance order. */
  lemma {:induction false} AddedChildrenAppend(prefabLinks: seq<LinkId>, a: seq<SceneObject>, b: seq<SceneObject>, ids: IdTable)
    ensures AddedChildren(prefabLinks, a + b, ids) == AddedChildren(prefabLinks, a, ids) + AddedChildren(prefabLinks, b, ids)
  {
    if b == [] {
      assert a + b == a;
    } else {
      var n := |b| - 1;
      AddedChildrenAppend(prefabLinks, a, b[..n], ids);
      assert (a + b)[..|a + b| - 1] == a + b[..n];
    }
  }

  /** Added components keep instance order. */
  lemma {:induction false} AddedComponentsAppend(prefabLinks: seq<LinkId>, a: seq<Component>, b: seq<Component>, ids: IdTable)
    ensures AddedComponents(prefabLinks, a + b, ids) == AddedComponents(prefabLinks, a, ids) + AddedComponents(prefabLinks, b, ids)
  {
    if b == [] {
      assert a + b == a;
    } else {
      var n := |b| - 1;
      AddedComponentsAppend(prefabLinks, a, b[..n], ids);
      assert (a + b)[..|a + b| - 1] == a + b[..n];
    }
  }

  /** The added-children list holds exactly the encodings of the saved
      instance children that match no prefab child. */
  lemma {:induction false} AddedChildrenMembers(prefabLinks: seq<LinkId>, children: seq<SceneObject>, ids: IdTable)
    ensures forall e :: e in AddedChildren(prefabLinks, children, ids) ==>
              DecodeObject(e) in children && IsAddedChild(DecodeObject(e), prefabLinks)
    ensures forall c :: c in children && IsAddedChild(c, prefabLinks) ==>
              EncodeObject(c, ids) in AddedChildren(prefabLinks, children, ids)
  {
    if children != [] {
      var n := |children| - 1;
      AddedChildrenMembers(prefabLinks, children[..n], ids);
      assert children == children[..n] + [children[n]];
    }
  }

  /** The added-components list holds exactly the encodings of the instance
      components that match no prefab component. */
  lemma {:induction false} AddedComponentsMembers(prefabLinks: seq<LinkId>, components: seq<Component>, ids: IdTable)
    ensures forall e :: e in AddedComponents(prefabLinks, components, ids) ==>
              DecodeComponent(e) in components && IsAddedComponent(DecodeComponent(e), prefabLinks)
    ensures forall c :: c in components && IsAddedComponent(c, prefabLinks) ==>
              EncodeComponent(c, ids) in AddedComponents(prefabLinks, components, ids)
  {
    if components != [] {
      var n := |components| - 1;
      AddedComponentsMembers(prefabLinks, components[..n], ids);
      assert components == components[..n] + [components[n]];
    }
  }

  /** The handler's delta for a prefab component and the first instance
      component with its link ID; None when there is no such component or
      the handler reports no change. */
  function MatchedDelta(pc: Component, instanceComponents: seq<Component>, ids: IdTable, handler: DiffHandler): Option<Delta>
  {
    match FirstIndex(ComponentLinks(instanceComponents), pc.linkId)
    case None => None
    case Some(j) => handler(EncodeComponent(pc, ids), EncodeComponent(instanceComponents[j], ids))
  }

  /** The values of the present entries of s, in order. */
  function Present<T>(s: seq<Option<T>>): (r: seq<T>)
    ensures |r| <= |s|
  {
    if s == [] then []
    else
      var o := s[|s| - 1];
      Present(s[..|s| - 1]) + (if o.Some? then [o.value] else [])
  }

  lemma PresentStep<T>(s: seq<Option<T>>, i: nat)
    requires i < |s|
    ensures Present(s[..i + 1]) == Present(s[..i]) + (if s[i].Some? then [s[i].value] else [])
  {
    assert s[..i + 1][..i] == s[..i];
  }

  lemma {:induction false} PresentMembers<T>(s: seq<Option<T>>)
    ensures forall x :: x in Present(s) <==> Some(x) in s
  {
    if s != [] {
      var n := |s| - 1;
      PresentMembers(s[..n]);
      assert s == s[..n] + [s[n]];
      forall x ensures x in Present(s) <==> Some(x) in s {
        assert Some(x) in s <==> Some(x) in s[..n] || Some(x) == s[n];
      }
    }
  }

  lemma {:induction false} PresentEmpty<T>(s: seq<Option<T>>)
    ensures Present(s) == [] <==> forall i :: 0 <= i < |s| ==> s[i].None?
  {
    if s != [] {
      var n := |s| - 1;
      PresentEmpty(s[..n]);
      assert Present(s) == Present(s[..n]) + (if s[n].Some? then [s[n].value] else []);
      if s[n].None? {
        assert forall i :: 0 <= i < n ==> s[..n][i] == s[i];
      }
    }
  }

  /** The component delta recorded for prefab component pc, if any. */
  function MatchedComponentDiff(pc: Component, instanceComponents: seq<Component>, ids: IdTable, handler: DiffHandler): (r: Option<ComponentDiff>)
    ensures r.Some? <==> MatchedDelta(pc, instanceComponents, ids, handler).Some?
    ensures r.Some? ==> r.value == ComponentDiff(pc.linkId, MatchedDelta(pc, instanceComponents, ids, handler).value)
  {
    match MatchedDelta(pc, instanceComponents, ids, handler)
    case None => None
    case Some(d) => Some(ComponentDiff(pc.linkId, d))
  }

  /** The outcome of the lookup and diff of every prefab component, in order. */
  function MatchedComponentDiffs(prefabComponents: seq<Component>, instanceComponents: seq<Component>, ids: IdTable, handler: DiffHandler): (r: seq<Option<ComponentDiff>>)
    ensures |r| == |prefabComponents|
    ensures forall i :: 0 <= i < |r| ==> r[i] == MatchedComponentDiff(prefabComponents[i], instanceComponents, ids, handler)
  {
    seq(|prefabComponents|, i requires 0 <= i < |prefabComponents| =>
      MatchedComponentDiff(prefabComponents[i], instanceComponents, ids, handler))
  }

  /** Component deltas, in prefab order. */
  function ComponentDiffs(prefabComponents: seq<Component>, instanceComponents: seq<Component>, ids: IdTable, handler: DiffHandler): (r: seq<ComponentDiff>)
    ensures |r| <= |prefabComponents|
  {
    Present(MatchedComponentDiffs(prefabComponents, instanceComponents, ids, handler))
  }

  /** A component delta is recorded exactly for the prefab components whose
      first instance match the handler reports as changed. */
  lemma ComponentDiffsMembers(prefabComponents: seq<Component>, instanceComponents: seq<Component>, ids: IdTable, handler: DiffHandler)
    ensures forall cd :: cd in ComponentDiffs(prefabComponents, instanceComponents, ids, handler) <==>
      exists i :: 0 <= i < |prefabComponents| && cd.id == prefabComponents[i].linkId &&
                  MatchedDelta(prefabComponents[i], instanceComponents, ids, handler) == Some(cd.data)
  {
    var s := MatchedComponentDiffs(prefabComponents, instanceComponents, ids, handler);
    PresentMembers(s);
    forall cd: ComponentDiff
      ensures Some(cd) in s <==>
        exists i :: 0 <= i < |prefabComponents| && cd.id == prefabComponents[i].linkId &&
                    MatchedDelta(prefabComponents[i], instanceComponents, ids, handler) == Some(cd.data)
    {
      if Some(cd) in s {
        var i :| 0 <= i < |s| && s[i] == Some(cd);
        assert MatchedDelta(prefabComponents[i], instanceComponents, ids, handler) == Some(cd.data);
      }
      if exists i :: 0 <= i < |prefabComponents| && cd.id == prefabComponents[i].linkId &&
                     MatchedDelta(prefabComponents[i], instanceComponents, ids, handler) == Some(cd.data) {
        var i :| 0 <= i < |prefabComponents| && cd.id == prefabComponents[i].linkId &&
                 MatchedDelta(prefabComponents[i], instanceComponents, ids, handler) == Some(cd.data);
        assert s[i] == Some(cd);
      }
    }
  }

  /** The diff of prefab child i against the first instance child with its
      link ID; None when there is no such child, when that child is the root
      of a nested prefab instance, or when the two do not differ. */
  function MatchedChildDiff(prefab: SceneObject, instance: SceneObject, i: nat, ids: IdTable, handler: DiffHandler): (r: Option<ObjectDiff>)
    requires i < |prefab.children|
    decreases prefab, 0
  {
    match FirstIndex(ChildLinks(instance.children), prefab.children[i].linkId)
    case None => None
    case Some(j) =>
      if instance.children[j].prefabLinkUUID != "" then None
      else ObjectDiffOf(prefab.children[i], instance.children[j], ids, handler)
  }

  /** The outcome of the lookup and diff of every prefab child, in order. */
  function MatchedChildDiffs(prefab: SceneObject, instance: SceneObject, ids: IdTable, handler: DiffHandler): (r: seq<Option<ObjectDiff>>)
    ensures |r| == |prefab.children|
    decreases prefab, 1
  {
    seq(|prefab.children|, i requires 0 <= i < |prefab.children| =>
      MatchedChildDiff(prefab, instance, i, ids, handler))
  }

  /** Child diffs, in prefab order. */
  function ChildDiffs(prefab: SceneObject, instance: SceneObject, ids: IdTable, handler: DiffHandler): (r: seq<ObjectDiff>)
    ensures |r| <= |prefab.children|
    decreases prefab, 2
  {
    Present(MatchedChildDiffs(prefab, instance, ids, handler))
  }

  /** The diff of instance against prefab; None when nothing differs. */
  function ObjectDiffOf(prefab: SceneObject, instance: SceneObject, ids: IdTable, handler: DiffHandler): (r: Option<ObjectDiff>)
    ensures r.Some? ==> r.value.id == instance.linkId && r.value.name == instance.name
    decreases prefab, 3
  {
    var prefabChildLinks := ChildLinks(prefab.children);
    var prefabComponentLinks := ComponentLinks(prefab.components);
    var d := ObjectDiff(
      instance.linkId,
      instance.name,
      UnmatchedLinks(prefabChildLinks, ChildLinks(instance.children)),
      UnmatchedLinks(prefabComponentLinks, ComponentLinks(instance.components)),
      AddedChildren(prefabChildLinks, instance.children, ids),
      AddedComponents(prefabComponentLinks, instance.components, ids),
      ChildDiffs(prefab, instance, ids, handler),
      ComponentDiffs(prefab.components, instance.components, ids, handler));
    if prefab.name == instance.name && NoEntries(d) then None else Some(d)
  }

  /** A child diff is recorded exactly for the prefab children whose lookup
      and recursive diff produced one. */
  lemma ChildDiffsMembers(prefab: SceneObject, instance: SceneObject, ids: IdTable, handler: DiffHandler)
    ensures forall d :: d in ChildDiffs(prefab, instance, ids, handler) <==>
      exists i :: 0 <= i < |prefab.children| && MatchedChildDiff(prefab, instance, i, ids, handler) == Some(d)
  {
    var s := MatchedChildDiffs(prefab, instance, ids, handler);
    var r := ChildDiffs(prefab, instance, ids, handler);
    assert r == Present(s);
    PresentMembers(s);
    forall d ensures d in ChildDiffs(prefab, instance, ids, handler) <==>
      exists i :: 0 <= i < |prefab.children| && MatchedChildDiff(prefab, instance, i, ids, handler) == Some(d)
    {
      assert d in r <==> Some(d) in s;
      if Some(d) in s {
        var i :| 0 <= i < |s| && s[i] == Some(d);
        assert MatchedChildDiff(prefab, instance, i, ids, handler) == Some(d);
        assert exists i :: 0 <= i < |prefab.children| && MatchedChildDiff(prefab, instance, i, ids, handler) == Some(d);
        assert d in ChildDiffs(prefab, instance, ids, handler);
      }
      if exists i :: 0 <= i < |prefab.children| && MatchedChildDiff(prefab, instance, i, ids, handler) == Some(d) {
        var i :| 0 <= i < |prefab.children| && MatchedChildDiff(prefab, instance, i, ids, handler) == Some(d);
        assert s[i] == Some(d);
        assert d in ChildDiffs(prefab, instance, ids, handler);
      }
    }
    assert forall d :: d in ChildDiffs(prefab, instance, ids, handler) <==>
      exists i :: 0 <= i < |prefab.children| && MatchedChildDiff(prefab, instance, i, ids, handler) == Some(d);
  }

  /** A child diff is only ever produced for an instance child that is not
      the root of a nested prefab instance: the first instance child carrying
      the diff's link ID is matched and has no prefab link UUID. */
  lemma NestedPrefabsNotDiffed(prefab: SceneObject, instance: SceneObject, ids: IdTable, handler: DiffHandler)
    ensures forall d :: d in ChildDiffs(prefab, instance, ids, handler) ==>
      d.id in ChildLinks(prefab.children) &&
      match FirstIndex(ChildLinks(instance.children), d.id)
      case None => false
      case Some(j) => instance.children[j].prefabLinkUUID == ""
  {
    ChildDiffsMembers(prefab, instance, ids, handler);
    forall d | d in ChildDiffs(prefab, instance, ids, handler)
      ensures d.id in ChildLinks(prefab.children)
      ensures match FirstIndex(ChildLinks(instance.children), d.id)
              case None => false
              case Some(j) => instance.children[j].prefabLinkUUID == ""
    {
      var i :| 0 <= i < |prefab.children| && MatchedChildDiff(prefab, instance, i, ids, handler) == Some(d);
      var j := FirstIndex(ChildLinks(instance.children), prefab.children[i].linkId).value;
      assert d.id == instance.children[j].linkId == prefab.children[i].linkId;
    }
  }

  lemma UnmatchedLinksEmpty(prefabLinks: seq<LinkId>, instanceLinks: seq<LinkId>)
    ensures UnmatchedLinks(prefabLinks, instanceLinks) == [] <==>
            forall x :: x in prefabLinks ==> x in instanceLinks
  {
    var r := UnmatchedLinks(prefabLinks, instanceLinks);
    UnmatchedLinksMembers(prefabLinks, instanceLinks);
    if r != [] {
      assert r[0] in r;
    }
  }

  lemma AddedChildrenEmpty(prefabLinks: seq<LinkId>, children: seq<SceneObject>, ids: IdTable)
    ensures AddedChildren(prefabLinks, children, ids) == [] <==>
            forall c :: c in children ==> c.dontSave || (c.linkId != NoLink && c.linkId in prefabLinks)
  {
    var r := AddedChildren(prefabLinks, children, ids);
    AddedChildrenMembers(prefabLinks, children, ids);
    if r != [] {
      assert r[0] in r;
    }
  }

  lemma AddedComponentsEmpty(prefabLinks: seq<LinkId>, components: seq<Component>, ids: IdTable)
    ensures AddedComponents(prefabLinks, components, ids) == [] <==>
            forall c :: c in components ==> c.linkId != NoLink && c.linkId in prefabLinks
  {
    var r := AddedComponents(prefabLinks, components, ids);
    AddedComponentsMembers(prefabLinks, components, ids);
    if r != [] {
      assert r[0] in r;
    }
  }

  lemma ChildDiffsEmpty(prefab: SceneObject, instance: SceneObject, ids: IdTable, handler: DiffHandler)
    ensures ChildDiffs(prefab, instance, ids, handler) == [] <==>
            forall i :: 0 <= i < |prefab.children| ==> MatchedChildDiff(prefab, instance, i, ids, handler).None?
  {
    var r := ChildDiffs(prefab, instance, ids, handler);
    ChildDiffsMembers(prefab, instance, ids, handler);
    forall i | 0 <= i < |prefab.children| && MatchedChildDiff(prefab, instance, i, ids, handler).Some?
      ensures MatchedChildDiff(prefab, instance, i, ids, handler).value in r
    {
    }
    if r != [] {
      assert r[0] in r;
      var i :| 0 <= i < |prefab.children| && MatchedChildDiff(prefab, instance, i, ids, handler) == Some(r[0]);
      assert !MatchedChildDiff(prefab, instance, i, ids, handler).None?;
    }
  }

  lemma ComponentDiffsEmpty(prefabComponents: seq<Component>, instanceComponents: seq<Component>, ids: IdTable, handler: DiffHandler)
    ensures ComponentDiffs(prefabComponents, instanceComponents, ids, handler) == [] <==>
            forall c :: c in prefabComponents ==> MatchedDelta(c, instanceComponents, ids, handler).None?
  {
    var s := MatchedComponentDiffs(prefabComponents, instanceComponents, ids, handler);
    PresentEmpty(s);
    if forall i :: 0 <= i < |s| ==> s[i].None? {
      forall c | c in prefabComponents ensures MatchedDelta(c, instanceComponents, ids, handler).None? {
        var i :| 0 <= i < |prefabComponents| && prefabComponents[i] == c;
        assert s[i].None?;
      }
    }
  }

  /** generateDiff allocates a diff node exactly when something differs: the
      names, an unmatched prefab child or component, a matched child whose
      own diff is non-null, a matched component for which the handler reports
      a change, or an unmatched instance child or component that is saved. */
  lemma NoDiffExactlyWhenUnchanged(prefab: SceneObject, instance: SceneObject, ids: IdTable, handler: DiffHandler)
    ensures ObjectDiffOf(prefab, instance, ids, handler).None? <==>
      prefab.name == instance.name &&
      (forall x :: x in ChildLinks(prefab.children) ==> x in ChildLinks(instance.children)) &&
      (forall x :: x in ComponentLinks(prefab.components) ==> x in ComponentLinks(instance.components)) &&
      (forall i :: 0 <= i < |prefab.children| ==> MatchedChildDiff(prefab, instance, i, ids, handler).None?) &&
      (forall c :: c in prefab.components ==> MatchedDelta(c, instance.components, ids, handler).None?) &&
      (forall c :: c in instance.children ==>
         c.dontSave || (c.linkId != NoLink && c.linkId in ChildLinks(prefab.children))) &&
      (forall c :: c in instance.components ==>
         c.linkId != NoLink && c.linkId in ComponentLinks(prefab.components))
  {
    var pcl := ChildLinks(prefab.children);
    var pkl := ComponentLinks(prefab.components);
    var d := ObjectDiff(
      instance.linkId,
      instance.name,
      UnmatchedLinks(pcl, ChildLinks(instance.children)),
      UnmatchedLinks(pkl, ComponentLinks(instance.components)),
      AddedChildren(pcl, instance.children, ids),
      AddedComponents(pkl, instance.components, ids),
      ChildDiffs(prefab, instance, ids, handler),
      ComponentDiffs(prefab.components, instance.components, ids, handler));
    assert ObjectDiffOf(prefab, instance, ids, handler) ==
           if prefab.name == instance.name && NoEntries(d) then None else Some(d);
    UnmatchedLinksEmpty(pcl, ChildLinks(instance.children));
    UnmatchedLinksEmpty(pkl, ComponentLinks(instance.components));
    AddedChildrenEmpty(pcl, instance.children, ids);
    AddedComponentsEmpty(pkl, instance.components, ids);
    ChildDiffsEmpty(prefab, instance, ids, handler);
    ComponentDiffsEmpty(prefab.components, instance.components, ids, handler);
  }

  lemma UnmatchedLinksStep(links: seq<LinkId>, instanceLinks: seq<LinkId>, i: nat)
    requires i < |links|
    ensures UnmatchedLinks(links[..i + 1], instanceLinks) ==
            UnmatchedLinks(links[..i], instanceLinks) + (if links[i] in instanceLinks then [] else [links[i]])
  {
    assert links[..i + 1][..i] == links[..i];
  }

  /** One step of the first scan: the lookup of prefab child i among the
      instance children and, for a match that is not a nested prefab root,
      the recursive diff. */
  method DiffChild(prefab: SceneObject, instance: SceneObject, i: nat, ids: IdTable, handler: DiffHandler)
    returns (foundMatching: bool, childDiff: Option<ObjectDiff>)
    requires i < |prefab.children|
    ensures foundMatching <==> prefab.children[i].linkId in ChildLinks(instance.children)
    ensures childDiff == MatchedChildDiff(prefab, instance, i, ids, handler)
    decreases prefab, 0
  {
    var prefabChild := prefab.children[i];
    childDiff := None;
    var match_ := FindChild(instance.children, prefabChild.linkId);
    foundMatching := match_.Some?;
    if foundMatching {
      var instanceChild := instance.children[match_.value];
      if instanceChild.prefabLinkUUID == "" {
        childDiff := GenerateDiff(prefabChild, instanceChild, ids, handler);
      }
    }
  }

  /** The first scan of generateDiff: each prefab child is looked up among
      the instance children; unmatched ones are recorded as removed, matched
      ones that are not nested prefab roots are diffed recursively. */
  method DiffChildren(prefab: SceneObject, instance: SceneObject, ids: IdTable, handler: DiffHandler)
    returns (removedChildren: seq<LinkId>, childDiffs: seq<ObjectDiff>)
    ensures removedChildren == UnmatchedLinks(ChildLinks(prefab.children), ChildLinks(instance.children))
    ensures childDiffs == ChildDiffs(prefab, instance, ids, handler)
    decreases prefab, 1
  {
    removedChildren := [];
    childDiffs := [];
    ghost var pcl := ChildLinks(prefab.children);
    ghost var icl := ChildLinks(instance.children);
    ghost var matched := MatchedChildDiffs(prefab, instance, ids, handler);
    var i := 0;
    while i < |prefab.children|
      invariant 0 <= i <= |prefab.children|
      invariant removedChildren == UnmatchedLinks(pcl[..i], icl)
      invariant childDiffs == Present(matched[..i])
    {
      var foundMatching, childDiff := DiffChild(prefab, instance, i, ids, handler);
      PresentStep(matched, i);
      UnmatchedLinksStep(pcl, icl, i);
      if foundMatching {
        if childDiff.Some? {
          childDiffs := childDiffs + [childDiff.value];
        }
      } else {
        removedChildren := removedChildren + [prefab.children[i].linkId];
      }
      i := i + 1;
    }
    assert pcl[..i] == pcl;
    assert matched[..i] == matched;
  }

  /** The second scan: saved instance children whose link ID is -1 or not
      carried by any prefab child are serialized as added. */
  method AddChildren(prefab: SceneObject, instance: SceneObject, ids: IdTable)
    returns (addedChildren: seq<SerializedObject>)
    ensures addedChildren == AddedChildren(ChildLinks(prefab.children), instance.children, ids)
  {
    addedChildren := [];
    ghost var pcl := ChildLinks(prefab.children);
    var i := 0;
    while i < |instance.children|
      invariant 0 <= i <= |instance.children|
      invariant addedChildren == AddedChildren(pcl, instance.children[..i], ids)
    {
      var instanceChild := instance.children[i];
      assert instance.children[..i + 1] == instance.children[..i] + [instanceChild];
      if !instanceChild.dontSave {
        var foundMatching := false;
        if instanceChild.linkId != NoLink {
          var match_ := FindChild(prefab.children, instanceChild.linkId);
          foundMatching := match_.Some?;
        }
        if !foundMatching {
          addedChildren := addedChildren + [EncodeObject(instanceChild, ids)];
        }
      }
      i := i + 1;
    }
    assert instance.children[..i] == instance.children;
  }

  /** The third scan: each prefab component is looked up among the instance
      components; unmatched ones are recorded as removed, matched ones are
      handed to the type's diff handler. */
  method DiffComponents(prefabComponents: seq<Component>, instanceComponents: seq<Component>, ids: IdTable, handler: DiffHandler)
    returns (removedComponents: seq<LinkId>, componentDiffs: seq<ComponentDiff>)
    ensures removedComponents == UnmatchedLinks(ComponentLinks(prefabComponents), ComponentLinks(instanceComponents))
    ensures componentDiffs == ComponentDiffs(prefabComponents, instanceComponents, ids, handler)
  {
    removedComponents := [];
    componentDiffs := [];
    ghost var pkl := ComponentLinks(prefabComponents);
    ghost var ikl := ComponentLinks(instanceComponents);
    ghost var matched := MatchedComponentDiffs(prefabComponents, instanceComponents, ids, handler);
    var i := 0;
    while i < |prefabComponents|
      invariant 0 <= i <= |prefabComponents|
      invariant removedComponents == UnmatchedLinks(pkl[..i], ikl)
      invariant componentDiffs == Present(matched[..i])
    {
      var prefabComponent := prefabComponents[i];
      var componentDiff: Option<ComponentDiff> := None;
      var match_ := FindComponent(instanceComponents, prefabComponent.linkId);
      if match_.Some? {
        var instanceComponent := instanceComponents[match_.value];
        var diff := handler(EncodeComponent(prefabComponent, ids), EncodeComponent(instanceComponent, ids));
        if diff.Some? {
          componentDiff := Some(ComponentDiff(prefabComponent.linkId, diff.value));
        }
      }
      assert componentDiff == matched[i];
      PresentStep(matched, i);
      UnmatchedLinksStep(pkl, ikl, i);
      if match_.Some? {
        if componentDiff.Some? {
          componentDiffs := componentDiffs + [componentDiff.value];
        }
      } else {
        removedComponents := removedComponents + [prefabComponent.linkId];
      }
      i := i + 1;
    }
    assert pkl[..i] == pkl;
    assert matched[..i] == matched;
  }

  /** The fourth scan: instance components whose link ID is -1 or not carried
      by any prefab component are serialized as added. */
  method AddComponents(prefabComponents: seq<Component>, instanceComponents: seq<Component>, ids: IdTable)
    returns (addedComponents: seq<SerializedComponent>)
    ensures addedComponents == AddedComponents(ComponentLinks(prefabComponents), instanceComponents, ids)
  {
    addedComponents := [];
    ghost var pkl := ComponentLinks(prefabComponents);
    var i := 0;
    while i < |instanceComponents|
      invariant 0 <= i <= |instanceComponents|
      invariant addedComponents == AddedComponents(pkl, instanceComponents[..i], ids)
    {
      var instanceComponent := instanceComponents[i];
      assert instanceComponents[..i + 1] == instanceComponents[..i] + [instanceComponent];
      var foundMatching := false;
      if instanceComponent.linkId != NoLink {
        var match_ := FindComponent(prefabComponents, instanceComponent.linkId);
        foundMatching := match_.Some?;
      }
      if !foundMatching {
        addedComponents := addedComponents + [EncodeComponent(instanceComponent, ids)];
      }
      i := i + 1;
    }
    assert instanceComponents[..i] == instanceComponents;
  }

  /** PrefabDiff::generateDiff: the four scans in order. The engine
      allocates the output record on the first push (or when the names
      differ); here the lists are gathered first and the record exists
      exactly when one of those events happened. */
  method GenerateDiff(prefab: SceneObject, instance: SceneObject, ids: IdTable, handler: DiffHandler)
    returns (output: Option<ObjectDiff>)
    ensures output == ObjectDiffOf(prefab, instance, ids, handler)
    decreases prefab, 3
  {
    var removedChildren, childDiffs := DiffChildren(prefab, instance, ids, handler);
    var addedChildren := AddChildren(prefab, instance, ids);
    var removedComponents, componentDiffs := DiffComponents(prefab.components, instance.components, ids, handler);
    var addedComponents := AddComponents(prefab.components, instance.components, ids);
    var d := ObjectDiff(instance.linkId, instance.name, removedChildren, removedComponents,
                        addedChildren, addedComponents, childDiffs, componentDiffs);
    output := None;
    if prefab.name != instance.name || !NoEntries(d) {
      output := Some(d);
    }
  }
}
