/**
 * The scene-object graph the prefab diff engine works on: scene objects with
 * ordered children and components, link IDs that tie instance entities to
 * their prefab counterparts, and the slots that hold runtime instance IDs.
 */
module Scene {
  import opened Wrappers

  /** A link ID (an unsigned 32-bit value in the engine); NoLink marks an
      entity that was not created from a prefab. */
  type LinkId = int
  const NoLink: LinkId := -1

  /** Identity of one shared instance-data record; the instance ID stored in
      it is kept in an IdTable so that it can be overwritten in place. */
  type Slot = nat
  type InstanceId = nat
  type IdTable = map<Slot, InstanceId>

  /** The serializable field data of a component. */
  type ComponentState = seq<int>

  datatype Component = Component(linkId: LinkId, slot: Slot, state: ComponentState)

  /** A scene object. An empty prefabLinkUUID means the object is not the
      root of a (nested) prefab instance; dontSave is the SOF_DontSave flag. */
  datatype SceneObject = SceneObject(
    name: string,
    linkId: LinkId,
    slot: Slot,
    prefabLinkUUID: string,
    dontSave: bool,
    children: seq<SceneObject>,
    components: seq<Component>)

  /** Link IDs of a sequence of children, in order. */
  function ChildLinks(cs: seq<SceneObject>): (r: seq<LinkId>)
    ensures |r| == |cs|
    ensures forall i :: 0 <= i < |cs| ==> r[i] == cs[i].linkId
  {
    seq(|cs|, i requires 0 <= i < |cs| => cs[i].linkId)
  }

  /** Link IDs of a sequence of components, in order. */
  function ComponentLinks(cs: seq<Component>): (r: seq<LinkId>)
    ensures |r| == |cs|
    ensures forall i :: 0 <= i < |cs| ==> r[i] == cs[i].linkId
  {
    seq(|cs|, i requires 0 <= i < |cs| => cs[i].linkId)
  }

  lemma ComponentLinkMembers(cs: seq<Component>, id: LinkId)
    ensures id in ComponentLinks(cs) <==> exists c :: c in cs && c.linkId == id
  {
    if id in ComponentLinks(cs) {
      var k :| 0 <= k < |cs| && ComponentLinks(cs)[k] == id;
      assert cs[k] in cs;
    }
  }

  lemma ChildLinkMembers(cs: seq<SceneObject>, id: LinkId)
    ensures id in ChildLinks(cs) <==> exists c :: c in cs && c.linkId == id
  {
    if id in ChildLinks(cs) {
      var k :| 0 <= k < |cs| && ChildLinks(cs)[k] == id;
      assert cs[k] in cs;
    }
  }

  /** Index of the first occurrence of id in links: the first-match linear
      scan that every lookup by link ID performs. */
  function FirstIndex(links: seq<LinkId>, id: LinkId): (r: Option<nat>)
    ensures r.None? <==> id !in links
    ensures r.Some? ==> r.value < |links| && links[r.value] == id &&
                        forall k :: 0 <= k < r.value ==> links[k] != id
  {
    if links == [] then None
    else if links[0] == id then Some(0)
    else match FirstIndex(links[1..], id)
      case None => None
      case Some(k) => Some(k + 1)
  }

  /** The first-match linear scan over a node's children by link ID. */
  method FindChild(children: seq<SceneObject>, linkId: LinkId) returns (index: Option<nat>)
    ensures index == FirstIndex(ChildLinks(children), linkId)
    ensures index.None? <==> forall k :: 0 <= k < |children| ==> children[k].linkId != linkId
    ensures index.Some? ==> index.value < |children| && children[index.value].linkId == linkId &&
                            forall k :: 0 <= k < index.value ==> children[k].linkId != linkId
  {
    index := None;
    var j := 0;
    while j < |children|
      invariant 0 <= j <= |children|
      invariant forall k :: 0 <= k < j ==> children[k].linkId != linkId
    {
      if children[j].linkId == linkId {
        index := Some(j);
        return;
      }
      j := j + 1;
    }
  }

  /** The first-match linear scan over a node's components by link ID. */
  method FindComponent(components: seq<Component>, linkId: LinkId) returns (index: Option<nat>)
    ensures index == FirstIndex(ComponentLinks(components), linkId)
    ensures index.None? <==> forall k :: 0 <= k < |components| ==> components[k].linkId != linkId
    ensures index.Some? ==> index.value < |components| && components[index.value].linkId == linkId &&
                            forall k :: 0 <= k < index.value ==> components[k].linkId != linkId
  {
    index := None;
    var j := 0;
    while j < |components|
      invariant 0 <= j <= |components|
      invariant forall k :: 0 <= k < j ==> components[k].linkId != linkId
    {
      if components[j].linkId == linkId {
        index := Some(j);
        return;
      }
      j := j + 1;
    }
  }

  /** Number of scene objects in the subtree rooted at t. */
  function Size(t: SceneObject): (r: nat)
    ensures r >= 1
    decreases t, 1
  {
    1 + ChildrenSize(t.children)
  }

  /** Number of scene objects in a sequence of subtrees. */
  function ChildrenSize(cs: seq<SceneObject>): nat
    decreases cs, 0
  {
    if cs == [] then 0 else ChildrenSize(cs[..|cs| - 1]) + Size(cs[|cs| - 1])
  }

  /** Every entity of the subtree has an instance-data record among keys:
      a live game object always owns one. */
  predicate Registered(t: SceneObject, keys: set<Slot>)
  {
    t.slot in keys &&
    (forall c :: c in t.components ==> c.slot in keys) &&
    (forall i :: 0 <= i < |t.children| ==> Registered(t.children[i], keys))
  }

  /** Slots of the components of one object. */
  function ComponentSlots(cs: seq<Component>): set<Slot>
  {
    set c | c in cs :: c.slot
  }

  /** Every slot in the subtree rooted at t. */
  function Slots(t: SceneObject): set<Slot>
  {
    {t.slot} + ComponentSlots(t.components) +
    (set i, s | 0 <= i < |t.children| && s in Slots(t.children[i]) :: s)
  }

  /** The slots of t other than its own. */
  function PendingSlots(t: SceneObject): set<Slot>
  {
    ComponentSlots(t.components) +
    (set i, s | 0 <= i < |t.children| && s in Slots(t.children[i]) :: s)
  }

  /** No two entities of the subtree share an instance-data record. */
  ghost predicate DistinctSlots(t: SceneObject)
  {
    (forall i, j :: 0 <= i < j < |t.components| ==> t.components[i].slot != t.components[j].slot) &&
    t.slot !in ComponentSlots(t.components) &&
    (forall i :: 0 <= i < |t.children| ==>
       DistinctSlots(t.children[i]) &&
       t.slot !in Slots(t.children[i]) &&
       ComponentSlots(t.components) !! Slots(t.children[i])) &&
    (forall i, j :: 0 <= i < j < |t.children| ==> Slots(t.children[i]) !! Slots(t.children[j]))
  }
}
