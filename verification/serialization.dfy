/**
 * The generic serializer and the per-type component diff handlers that the
 * prefab diff engine delegates to. The serializer is modelled as a lossless
 * snapshot: the intermediate form of an object is the object itself together
 * with the instance-ID table as it stood when the object was encoded, so
 * that each encoded entity's ID at that moment can be read off by its slot. The handlers are
 * supplied by the caller as function values, one pair per engine
 * configuration; they may dispatch on the component they are given.
 */
module Serialization {
  import opened Wrappers
  import opened Scene

  /** Intermediate form of a whole scene-object subtree. */
  datatype SerializedObject = SerializedObject(sceneObject: SceneObject, instanceIds: IdTable)

  /** Intermediate form of one component, with the instance IDs of the
      moment it was encoded. */
  datatype SerializedComponent = SerializedComponent(component: Component, instanceIds: IdTable)

  /** An opaque, type-specific component delta. */
  type Delta = seq<int>

  /** IDiff::generateDiff: None means "no change". */
  type DiffHandler = (SerializedComponent, SerializedComponent) -> Option<Delta>

  /** IDiff::applyDiff: the new field data of the live component. */
  type ApplyHandler = (Component, Delta) -> ComponentState

  function EncodeObject(t: SceneObject, ids: IdTable): (r: SerializedObject)
    ensures DecodeObject(r) == t
  {
    SerializedObject(t, ids)
  }

  function DecodeObject(b: SerializedObject): SceneObject
  {
    b.sceneObject
  }

  function EncodeComponent(c: Component, ids: IdTable): (r: SerializedComponent)
    ensures DecodeComponent(r) == c
  {
    SerializedComponent(c, ids)
  }

  function DecodeComponent(b: SerializedComponent): Component
  {
    b.component
  }
}
