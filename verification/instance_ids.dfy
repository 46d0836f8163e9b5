/**
 * Temporary instance-ID renaming around diff generation
 * (PrefabDiff::renameInstanceIds / restoreInstanceIds).
 *
 * A first walk over the prefab tree, driven by an explicit stack, records
 * for every prefab-link scope a map from link ID to the prefab entity's
 * instance ID. A second walk over the instance tree overwrites the instance
 * ID of every instance component and linked child whose link ID appears in
 * its scope's map, logging the original value first; the instance root takes
 * the prefab root's instance ID unconditionally. Restoring writes every
 * logged original back.
 *
 * Stacks are sequences whose top is the last element. Instance IDs live in
 * an IdTable held by InstanceStore, the model of the shared
 * GameObjectInstanceData records.
 */
module InstanceIds {
  import opened Wrappers
  import opened Scene

  /** An object still to be visited, with the scope its parent hands down. */
  datatype StackEntry = StackEntry(so: SceneObject, uuid: string)

  /** One overwritten instance-data record and the ID it held before. */
  datatype RenamedGameObject = RenamedGameObject(slot: Slot, originalId: InstanceId)

  /** The instance IDs together with the log of overwritten records. */
  datatype RenameState = RenameState(ids: IdTable, log: seq<RenamedGameObject>)

  type LinkTable = map<LinkId, InstanceId>
  type ScopeTable = map<string, LinkTable>

  /** The scope both walks start from. */
  const RootScope: string := "root"

  /** The scope an entry's children inherit: the object's own prefab link
      UUID when it has one, the scope handed down otherwise. */
  function ChildScope(e: StackEntry): string
  {
    if e.so.prefabLinkUUID == "" then e.uuid else e.so.prefabLinkUUID
  }

  /** The entries pushed for a node's children, in child order (so the
      last child ends on top). */
  function ChildEntries(cs: seq<SceneObject>, uuid: string): (r: seq<StackEntry>)
    ensures |r| == |cs|
    ensures forall i :: 0 <= i < |cs| ==> r[i] == StackEntry(cs[i], uuid)
  {
    seq(|cs|, i requires 0 <= i < |cs| => StackEntry(cs[i], uuid))
  }

  lemma ChildEntriesSnoc(cs: seq<SceneObject>, i: nat, uuid: string)
    requires i < |cs|
    ensures ChildEntries(cs[..i + 1], uuid) == ChildEntries(cs[..i], uuid) + [StackEntry(cs[i], uuid)]
  {
  }

  /** Scene objects still to be visited by a walk. */
  function StackSize(todo: seq<StackEntry>): nat
  {
    if todo == [] then 0 else StackSize(todo[..|todo| - 1]) + Size(todo[|todo| - 1].so)
  }

  lemma {:induction false} StackSizeAppend(a: seq<StackEntry>, b: seq<StackEntry>)
    ensures StackSize(a + b) == StackSize(a) + StackSize(b)
  {
    if b != [] {
      var n := |b| - 1;
      StackSizeAppend(a, b[..n]);
      assert (a + b)[..|a| + n] == a + b[..n];
    } else {
      assert a + b == a;
    }
  }

  lemma {:induction false} ChildEntriesSize(cs: seq<SceneObject>, uuid: string)
    ensures StackSize(ChildEntries(cs, uuid)) == ChildrenSize(cs)
  {
    if cs != [] {
      var n := |cs| - 1;
      ChildEntriesSize(cs[..n], uuid);
      assert ChildEntries(cs, uuid)[..n] == ChildEntries(cs[..n], uuid);
    }
  }

  /** Popping the top entry and pushing its children leaves less to visit. */
  lemma PopShrinks(todo: seq<StackEntry>, uuid: string)
    requires todo != []
    ensures StackSize(todo[..|todo| - 1] + ChildEntries(todo[|todo| - 1].so.children, uuid)) < StackSize(todo)
  {
    var n := |todo| - 1;
    StackSizeAppend(todo[..n], ChildEntries(todo[n].so.children, uuid));
    ChildEntriesSize(todo[n].so.children, uuid);
  }

  /** Every entry's subtree owns instance data in ids. */
  predicate AllRegistered(todo: seq<StackEntry>, keys: set<Slot>)
  {
    forall i :: 0 <= i < |todo| ==> Registered(todo[i].so, keys)
  }

  /** Popping the top entry and pushing its children keeps every entry
      registered. */
  lemma PopRegistered(todo: seq<StackEntry>, uuid: string, keys: set<Slot>)
    requires todo != [] && AllRegistered(todo, keys)
    ensures AllRegistered(todo[..|todo| - 1] + ChildEntries(todo[|todo| - 1].so.children, uuid), keys)
  {
    var n := |todo| - 1;
    var next := todo[..n] + ChildEntries(todo[n].so.children, uuid);
    forall i | 0 <= i < |next|
      ensures Registered(next[i].so, keys)
    {
      if i < n {
        assert next[i] == todo[i];
      } else {
        assert next[i].so == todo[n].so.children[i - n];
      }
    }
  }

  // ---------------------------------------------------------------------
  // First walk: link ID to prefab instance ID, per scope.

  /** The components' link IDs recorded into m, later entries winning. */
  function RecordComponents(m: LinkTable, cs: seq<Component>, ids: IdTable): (r: LinkTable)
    requires forall c :: c in cs ==> c.slot in ids
    ensures r.Keys == m.Keys + set c | c in cs :: c.linkId
  {
    if cs == [] then m
    else
      var n := |cs| - 1;
      RecordComponents(m, cs[..n], ids)[cs[n].linkId := ids[cs[n].slot]]
  }

  lemma RecordComponentsStep(m: LinkTable, cs: seq<Component>, i: nat, ids: IdTable)
    requires i < |cs| && forall c :: c in cs ==> c.slot in ids
    ensures forall c :: c in cs[..i + 1] ==> c.slot in ids
    ensures RecordComponents(m, cs[..i + 1], ids) == RecordComponents(m, cs[..i], ids)[cs[i].linkId := ids[cs[i].slot]]
  {
    assert cs[..i + 1][..i] == cs[..i];
  }

  /** The children's link IDs recorded into m, later entries winning. */
  function RecordChildren(m: LinkTable, cs: seq<SceneObject>, ids: IdTable): (r: LinkTable)
    requires forall i :: 0 <= i < |cs| ==> cs[i].slot in ids
    ensures r.Keys == m.Keys + set c | c in cs :: c.linkId
  {
    if cs == [] then m
    else
      var n := |cs| - 1;
      RecordChildren(m, cs[..n], ids)[cs[n].linkId := ids[cs[n].slot]]
  }

  lemma RecordChildrenStep(m: LinkTable, cs: seq<SceneObject>, i: nat, ids: IdTable)
    requires i < |cs| && forall j :: 0 <= j < |cs| ==> cs[j].slot in ids
    ensures RecordChildren(m, cs[..i + 1], ids) == RecordChildren(m, cs[..i], ids)[cs[i].linkId := ids[cs[i].slot]]
  {
    assert cs[..i + 1][..i] == cs[..i];
  }

  /** One visited prefab object: its components and children go into the
      map of its children's scope, created empty when missing. */
  function Record(e: StackEntry, table: ScopeTable, ids: IdTable): (r: ScopeTable)
    requires Registered(e.so, ids.Keys)
    ensures r.Keys == table.Keys + {ChildScope(e)}
  {
    var scope := ChildScope(e);
    var m := if scope in table then table[scope] else map[];
    assert forall i :: 0 <= i < |e.so.children| ==> Registered(e.so.children[i], ids.Keys);
    table[scope := RecordChildren(RecordComponents(m, e.so.components, ids), e.so.children, ids)]
  }

  /** The first walk from a given stack and table. */
  function Scopes(todo: seq<StackEntry>, table: ScopeTable, ids: IdTable): ScopeTable
    requires AllRegistered(todo, ids.Keys)
    decreases StackSize(todo)
  {
    if todo == [] then table
    else
      var n := |todo| - 1;
      var e := todo[n];
      PopShrinks(todo, ChildScope(e));
      PopRegistered(todo, ChildScope(e), ids.Keys);
      Scopes(todo[..n] + ChildEntries(e.so.children, ChildScope(e)), Record(e, table, ids), ids)
  }

  /** The table the first walk builds for prefab. */
  function CollectedScopes(prefab: SceneObject, ids: IdTable): ScopeTable
    requires Registered(prefab, ids.Keys)
  {
    Scopes([StackEntry(prefab, RootScope)], map[], ids)
  }

  // ---------------------------------------------------------------------
  // Second walk: overwrite and log.

  /** The original is logged before the record is overwritten. */
  function RenameSlot(st: RenameState, slot: Slot, newId: InstanceId): (r: RenameState)
    requires slot in st.ids
    ensures r.ids.Keys == st.ids.Keys
  {
    RenameState(st.ids[slot := newId], st.log + [RenamedGameObject(slot, st.ids[slot])])
  }

  /** Components whose link ID the scope's map knows take the mapped ID. */
  function RenameComponents(cs: seq<Component>, idMap: LinkTable, st: RenameState): (r: RenameState)
    requires forall c :: c in cs ==> c.slot in st.ids
    ensures r.ids.Keys == st.ids.Keys
  {
    if cs == [] then st
    else
      var n := |cs| - 1;
      var prev := RenameComponents(cs[..n], idMap, st);
      if cs[n].linkId in idMap then RenameSlot(prev, cs[n].slot, idMap[cs[n].linkId]) else prev
  }

  /** Children with a link ID other than -1 that the scope's map knows take
      the mapped ID. */
  function RenameChildren(cs: seq<SceneObject>, idMap: LinkTable, st: RenameState): (r: RenameState)
    requires forall i :: 0 <= i < |cs| ==> cs[i].slot in st.ids
    ensures r.ids.Keys == st.ids.Keys
  {
    if cs == [] then st
    else
      var n := |cs| - 1;
      var prev := RenameChildren(cs[..n], idMap, st);
      if cs[n].linkId != NoLink && cs[n].linkId in idMap then RenameSlot(prev, cs[n].slot, idMap[cs[n].linkId])
      else prev
  }

  /** One visited instance object; nothing is renamed when the first walk
      never saw its children's scope. */
  function ProcessNode(e: StackEntry, table: ScopeTable, st: RenameState): (r: RenameState)
    requires Registered(e.so, st.ids.Keys)
    ensures r.ids.Keys == st.ids.Keys
  {
    var scope := ChildScope(e);
    assert forall i :: 0 <= i < |e.so.children| ==> Registered(e.so.children[i], st.ids.Keys);
    if scope in table then
      RenameChildren(e.so.children, table[scope], RenameComponents(e.so.components, table[scope], st))
    else st
  }

  /** The second walk from a given stack and state. */
  function RenameWalk(todo: seq<StackEntry>, table: ScopeTable, st: RenameState): (r: RenameState)
    requires AllRegistered(todo, st.ids.Keys)
    ensures r.ids.Keys == st.ids.Keys
    decreases StackSize(todo)
  {
    if todo == [] then st
    else
      var n := |todo| - 1;
      var e := todo[n];
      PopShrinks(todo, ChildScope(e));
      PopRegistered(todo, ChildScope(e), st.ids.Keys);
      RenameWalk(todo[..n] + ChildEntries(e.so.children, ChildScope(e)), table, ProcessNode(e, table, st))
  }

  /** The instance root takes the prefab root's ID, logged first. */
  function RootRenamed(prefab: SceneObject, instance: SceneObject, ids: IdTable): (r: RenameState)
    requires prefab.slot in ids && instance.slot in ids
    ensures r.ids.Keys == ids.Keys
  {
    RenameSlot(RenameState(ids, []), instance.slot, ids[prefab.slot])
  }

  /** The IDs and the log renameInstanceIds leaves behind. */
  function Renamed(prefab: SceneObject, instance: SceneObject, ids: IdTable): (r: RenameState)
    requires Registered(prefab, ids.Keys) && Registered(instance, ids.Keys)
    ensures r.ids.Keys == ids.Keys
  {
    var start := RootRenamed(prefab, instance, ids);
    assert AllRegistered([StackEntry(instance, RootScope)], start.ids.Keys);
    RenameWalk([StackEntry(instance, RootScope)], CollectedScopes(prefab, ids), start)
  }

  /** restoreInstanceIds: every logged original written back, in log order. */
  function Restored(ids: IdTable, log: seq<RenamedGameObject>): IdTable
  {
    if log == [] then ids
    else
      var n := |log| - 1;
      Restored(ids, log[..n])[log[n].slot := log[n].originalId]
  }

  // ---------------------------------------------------------------------
  // Restore undoes rename.

  /** The records a log mentions. */
  function Logged(log: seq<RenamedGameObject>): set<Slot>
  {
    set e | e in log :: e.slot
  }

  /** Every record the log does not mention still holds its ID from ids0,
      and every log entry holds the ID its record had in ids0. */
  ghost predicate Faithful(st: RenameState, ids0: IdTable)
  {
    st.ids.Keys == ids0.Keys &&
    (forall s :: s in ids0 && s !in Logged(st.log) ==> st.ids[s] == ids0[s]) &&
    (forall e :: e in st.log ==> e.slot in ids0 && e.originalId == ids0[e.slot])
  }

  /** Restoring writes each logged record's original, whatever the order. */
  lemma {:induction false} RestoredValues(ids: IdTable, log: seq<RenamedGameObject>, ids0: IdTable)
    requires forall e :: e in log ==> e.slot in ids0 && e.originalId == ids0[e.slot]
    ensures Restored(ids, log).Keys == ids.Keys + Logged(log)
    ensures forall s :: s in Logged(log) ==> Restored(ids, log)[s] == ids0[s]
    ensures forall s :: s in ids && s !in Logged(log) ==> Restored(ids, log)[s] == ids[s]
  {
    if log != [] {
      var n := |log| - 1;
      assert forall e :: e in log[..n] ==> e in log;
      RestoredValues(ids, log[..n], ids0);
      assert log == log[..n] + [log[n]];
      assert Logged(log) == Logged(log[..n]) + {log[n].slot};
    }
  }

  /** restoreInstanceIds undoes a faithful rename exactly. */
  lemma RestoreUndoes(st: RenameState, ids0: IdTable)
    requires Faithful(st, ids0)
    ensures Restored(st.ids, st.log) == ids0
  {
    RestoredValues(st.ids, st.log, ids0);
    var r := Restored(st.ids, st.log);
    assert r.Keys == ids0.Keys;
    forall s | s in r
      ensures r[s] == ids0[s]
    {
      if s !in Logged(st.log) {
        assert r[s] == st.ids[s];
      }
    }
  }

  /** Overwriting a record not logged yet keeps the state faithful. */
  lemma RenameSlotFaithful(st: RenameState, slot: Slot, newId: InstanceId, ids0: IdTable)
    requires Faithful(st, ids0) && slot in ids0 && slot !in Logged(st.log)
    ensures var r := RenameSlot(st, slot, newId);
            Faithful(r, ids0) && Logged(r.log) == Logged(st.log) + {slot} && st.log <= r.log &&
            forall s :: s in Logged(st.log) ==> r.ids[s] == st.ids[s]
  {
    var r := RenameSlot(st, slot, newId);
    assert r.log == st.log + [RenamedGameObject(slot, st.ids[slot])];
    assert Logged(r.log) == Logged(st.log) + {slot};
  }

  /** The component pass writes each of its distinct, not yet logged
      records at most once and logs nothing else. */
  lemma {:induction false} RenameComponentsFaithful(cs: seq<Component>, idMap: LinkTable, st: RenameState, ids0: IdTable)
    requires Faithful(st, ids0)
    requires forall c :: c in cs ==> c.slot in ids0
    requires forall i, j :: 0 <= i < j < |cs| ==> cs[i].slot != cs[j].slot
    requires ComponentSlots(cs) !! Logged(st.log)
    ensures var r := RenameComponents(cs, idMap, st);
            Faithful(r, ids0) && Logged(st.log) <= Logged(r.log) <= Logged(st.log) + ComponentSlots(cs) &&
            st.log <= r.log && forall s :: s in Logged(st.log) ==> r.ids[s] == st.ids[s]
  {
    if cs != [] {
      var n := |cs| - 1;
      assert forall c :: c in cs[..n] ==> c in cs;
      assert ComponentSlots(cs[..n]) <= ComponentSlots(cs);
      RenameComponentsFaithful(cs[..n], idMap, st, ids0);
      var prev := RenameComponents(cs[..n], idMap, st);
      forall c | c in cs[..n]
        ensures c.slot != cs[n].slot
      {
        var k :| 0 <= k < n && cs[..n][k] == c;
      }
      assert cs[n] in cs;
      if cs[n].linkId in idMap {
        RenameSlotFaithful(prev, cs[n].slot, idMap[cs[n].linkId], ids0);
      }
    }
  }

  /** Own records of the children in cs. */
  function ChildSlots(cs: seq<SceneObject>): set<Slot>
  {
    set i | 0 <= i < |cs| :: cs[i].slot
  }

  /** Own records of the children in cs whose link ID is not -1: the only
      children the second walk may rename. */
  function LinkedChildSlots(cs: seq<SceneObject>): set<Slot>
  {
    set i | 0 <= i < |cs| && cs[i].linkId != NoLink :: cs[i].slot
  }

  /** The children pass writes each of its distinct, not yet logged records
      at most once, and only those of children with a link ID. */
  lemma {:induction false} RenameChildrenFaithful(cs: seq<SceneObject>, idMap: LinkTable, st: RenameState, ids0: IdTable)
    requires Faithful(st, ids0)
    requires forall i :: 0 <= i < |cs| ==> cs[i].slot in ids0
    requires forall i, j :: 0 <= i < j < |cs| ==> cs[i].slot != cs[j].slot
    requires ChildSlots(cs) !! Logged(st.log)
    ensures var r := RenameChildren(cs, idMap, st);
            Faithful(r, ids0) && Logged(st.log) <= Logged(r.log) <= Logged(st.log) + LinkedChildSlots(cs) &&
            st.log <= r.log && forall s :: s in Logged(st.log) ==> r.ids[s] == st.ids[s]
  {
    if cs != [] {
      var n := |cs| - 1;
      assert ChildSlots(cs[..n]) <= ChildSlots(cs) by {
        forall s | s in ChildSlots(cs[..n]) ensures s in ChildSlots(cs) {
          var k :| 0 <= k < n && cs[..n][k].slot == s;
          assert cs[k].slot == s;
        }
      }
      assert LinkedChildSlots(cs[..n]) <= LinkedChildSlots(cs) by {
        forall s | s in LinkedChildSlots(cs[..n]) ensures s in LinkedChildSlots(cs) {
          var k :| 0 <= k < n && cs[..n][k].linkId != NoLink && cs[..n][k].slot == s;
          assert cs[k].slot == s && cs[k].linkId != NoLink;
        }
      }
      RenameChildrenFaithful(cs[..n], idMap, st, ids0);
      var prev := RenameChildren(cs[..n], idMap, st);
      assert cs[n].slot !in ChildSlots(cs[..n]);
      assert cs[n].slot in ChildSlots(cs);
      if cs[n].linkId != NoLink && cs[n].linkId in idMap {
        assert cs[n].slot in LinkedChildSlots(cs);
        RenameSlotFaithful(prev, cs[n].slot, idMap[cs[n].linkId], ids0);
      }
    }
  }

  // ---------------------------------------------------------------------
  // Where the second walk's IDs come from.

  lemma LoggedPrefix(a: seq<RenamedGameObject>, b: seq<RenamedGameObject>)
    requires a <= b
    ensures Logged(a) <= Logged(b)
  {
    assert forall e :: e in a ==> e in b by {
      forall e | e in a ensures e in b {
        var k :| 0 <= k < |a| && a[k] == e;
        assert b[k] == e;
      }
    }
  }

  /** Overwriting one record logs it and keeps every other record. */
  lemma RenameSlotEffect(st: RenameState, slot: Slot, newId: InstanceId)
    requires slot in st.ids
    ensures var r := RenameSlot(st, slot, newId);
            r.ids[slot] == newId && st.log <= r.log && Logged(r.log) == Logged(st.log) + {slot} &&
            forall s :: s in st.ids && s != slot ==> r.ids[s] == st.ids[s]
  {
    var r := RenameSlot(st, slot, newId);
    assert r.log == st.log + [RenamedGameObject(slot, st.ids[slot])];
    assert Logged(r.log) == Logged(st.log) + {slot};
  }

  /** Records of the components whose link ID idMap knows. */
  function MappedComponentSlots(cs: seq<Component>, idMap: LinkTable): set<Slot>
  {
    set i | 0 <= i < |cs| && cs[i].linkId in idMap :: cs[i].slot
  }

  /** The component pass logs only the records it overwrites, leaves records
      outside the components alone, and only ever extends the log. */
  lemma {:induction false} RenameComponentsFrame(cs: seq<Component>, idMap: LinkTable, st: RenameState)
    requires forall c :: c in cs ==> c.slot in st.ids
    ensures var r := RenameComponents(cs, idMap, st);
            st.log <= r.log && Logged(st.log) <= Logged(r.log) <= Logged(st.log) + MappedComponentSlots(cs, idMap) &&
            forall s :: s in st.ids && s !in ComponentSlots(cs) ==> r.ids[s] == st.ids[s]
  {
    if cs != [] {
      var n := |cs| - 1;
      assert forall c :: c in cs[..n] ==> c in cs;
      RenameComponentsFrame(cs[..n], idMap, st);
      var prev := RenameComponents(cs[..n], idMap, st);
      assert MappedComponentSlots(cs[..n], idMap) <= MappedComponentSlots(cs, idMap) by {
        forall x | x in MappedComponentSlots(cs[..n], idMap) ensures x in MappedComponentSlots(cs, idMap) {
          var k :| 0 <= k < n && cs[..n][k].linkId in idMap && cs[..n][k].slot == x;
          assert cs[k].slot == x;
        }
      }
      assert ComponentSlots(cs[..n]) <= ComponentSlots(cs) by {
        forall x | x in ComponentSlots(cs[..n]) ensures x in ComponentSlots(cs) {
          var c :| c in cs[..n] && c.slot == x;
        }
      }
      assert cs[n] in cs;
      if cs[n].linkId in idMap {
        RenameSlotEffect(prev, cs[n].slot, idMap[cs[n].linkId]);
        assert cs[n].slot in MappedComponentSlots(cs, idMap);
      }
    }
  }

  /** A record no component owns keeps its ID through the component pass. */
  lemma {:induction false} RenameComponentsKeeps(cs: seq<Component>, idMap: LinkTable, st: RenameState, s: Slot)
    requires forall c :: c in cs ==> c.slot in st.ids
    requires s in st.ids && forall j :: 0 <= j < |cs| ==> cs[j].slot != s
    ensures RenameComponents(cs, idMap, st).ids[s] == st.ids[s]
  {
    if cs != [] {
      var n := |cs| - 1;
      assert forall c :: c in cs[..n] ==> c in cs;
      RenameComponentsKeeps(cs[..n], idMap, st, s);
      assert cs[n] in cs;
    }
  }

  /** A component takes the ID its link maps to, and is logged, exactly when
      idMap knows its link ID; otherwise it keeps its ID. */
  lemma {:induction false} RenameComponentAt(cs: seq<Component>, idMap: LinkTable, st: RenameState, i: nat)
    requires forall c :: c in cs ==> c.slot in st.ids
    requires forall a, b :: 0 <= a < b < |cs| ==> cs[a].slot != cs[b].slot
    requires i < |cs|
    ensures var r := RenameComponents(cs, idMap, st);
            (cs[i].linkId in idMap ==> r.ids[cs[i].slot] == idMap[cs[i].linkId] && cs[i].slot in Logged(r.log)) &&
            (cs[i].linkId !in idMap ==> r.ids[cs[i].slot] == st.ids[cs[i].slot])
  {
    var n := |cs| - 1;
    assert forall c :: c in cs[..n] ==> c in cs;
    var prev := RenameComponents(cs[..n], idMap, st);
    assert cs[n] in cs;
    if i < n {
      assert cs[..n][i] == cs[i];
      RenameComponentAt(cs[..n], idMap, st, i);
      if cs[n].linkId in idMap {
        RenameSlotEffect(prev, cs[n].slot, idMap[cs[n].linkId]);
      }
    } else {
      assert forall k :: 0 <= k < n ==> cs[..n][k].slot != cs[n].slot;
      RenameComponentsKeeps(cs[..n], idMap, st, cs[n].slot);
      if cs[n].linkId in idMap {
        RenameSlotEffect(prev, cs[n].slot, idMap[cs[n].linkId]);
      }
    }
  }

  /** The component pass of one visit: with distinct records, every
      component whose link ID the scope's map knows takes the mapped ID and
      is logged, every other component keeps its ID, nothing outside the
      components changes, and only the overwritten records are logged. */
  lemma RenameComponentsMaps(cs: seq<Component>, idMap: LinkTable, st: RenameState)
    requires forall c :: c in cs ==> c.slot in st.ids
    requires forall a, b :: 0 <= a < b < |cs| ==> cs[a].slot != cs[b].slot
    ensures var r := RenameComponents(cs, idMap, st);
            (forall i :: 0 <= i < |cs| && cs[i].linkId in idMap ==>
               r.ids[cs[i].slot] == idMap[cs[i].linkId] && cs[i].slot in Logged(r.log)) &&
            (forall i :: 0 <= i < |cs| && cs[i].linkId !in idMap ==> r.ids[cs[i].slot] == st.ids[cs[i].slot]) &&
            (forall s :: s in st.ids && s !in ComponentSlots(cs) ==> r.ids[s] == st.ids[s]) &&
            st.log <= r.log && Logged(st.log) <= Logged(r.log) <= Logged(st.log) + MappedComponentSlots(cs, idMap)
  {
    RenameComponentsFrame(cs, idMap, st);
    forall i | 0 <= i < |cs|
      ensures var r := RenameComponents(cs, idMap, st);
              (cs[i].linkId in idMap ==> r.ids[cs[i].slot] == idMap[cs[i].linkId] && cs[i].slot in Logged(r.log)) &&
              (cs[i].linkId !in idMap ==> r.ids[cs[i].slot] == st.ids[cs[i].slot])
    {
      RenameComponentAt(cs, idMap, st, i);
    }
  }

  /** Records of the children with a link ID other than -1 that idMap
      knows. */
  function MappedChildSlots(cs: seq<SceneObject>, idMap: LinkTable): set<Slot>
  {
    set i | 0 <= i < |cs| && cs[i].linkId != NoLink && cs[i].linkId in idMap :: cs[i].slot
  }

  /** The children pass logs only the records it overwrites, leaves records
      outside the children alone, and only ever extends the log. */
  lemma {:induction false} RenameChildrenFrame(cs: seq<SceneObject>, idMap: LinkTable, st: RenameState)
    requires forall i :: 0 <= i < |cs| ==> cs[i].slot in st.ids
    ensures var r := RenameChildren(cs, idMap, st);
            st.log <= r.log && Logged(st.log) <= Logged(r.log) <= Logged(st.log) + MappedChildSlots(cs, idMap) &&
            forall s :: s in st.ids && s !in ChildSlots(cs) ==> r.ids[s] == st.ids[s]
  {
    if cs != [] {
      var n := |cs| - 1;
      RenameChildrenFrame(cs[..n], idMap, st);
      var prev := RenameChildren(cs[..n], idMap, st);
      assert MappedChildSlots(cs[..n], idMap) <= MappedChildSlots(cs, idMap) by {
        forall x | x in MappedChildSlots(cs[..n], idMap) ensures x in MappedChildSlots(cs, idMap) {
          var k :| 0 <= k < n && cs[..n][k].linkId != NoLink && cs[..n][k].linkId in idMap && cs[..n][k].slot == x;
          assert cs[k].slot == x;
        }
      }
      assert ChildSlots(cs[..n]) <= ChildSlots(cs) by {
        forall x | x in ChildSlots(cs[..n]) ensures x in ChildSlots(cs) {
          var k :| 0 <= k < n && cs[..n][k].slot == x;
          assert cs[k].slot == x;
        }
      }
      assert cs[n].slot in ChildSlots(cs);
      if cs[n].linkId != NoLink && cs[n].linkId in idMap {
        RenameSlotEffect(prev, cs[n].slot, idMap[cs[n].linkId]);
        assert cs[n].slot in MappedChildSlots(cs, idMap);
      }
    }
  }

  /** A record no child owns keeps its ID through the children pass. */
  lemma {:induction false} RenameChildrenKeeps(cs: seq<SceneObject>, idMap: LinkTable, st: RenameState, s: Slot)
    requires forall j :: 0 <= j < |cs| ==> cs[j].slot in st.ids
    requires s in st.ids && forall j :: 0 <= j < |cs| ==> cs[j].slot != s
    ensures RenameChildren(cs, idMap, st).ids[s] == st.ids[s]
  {
    if cs != [] {
      var n := |cs| - 1;
      RenameChildrenKeeps(cs[..n], idMap, st, s);
    }
  }

  /** A child takes the ID its link maps to, and is logged, exactly when
      its link ID is not -1 and idMap knows it; otherwise it keeps its ID. */
  lemma {:induction false} RenameChildAt(cs: seq<SceneObject>, idMap: LinkTable, st: RenameState, i: nat)
    requires forall j :: 0 <= j < |cs| ==> cs[j].slot in st.ids
    requires forall a, b :: 0 <= a < b < |cs| ==> cs[a].slot != cs[b].slot
    requires i < |cs|
    ensures var r := RenameChildren(cs, idMap, st);
            (cs[i].linkId != NoLink && cs[i].linkId in idMap ==>
               r.ids[cs[i].slot] == idMap[cs[i].linkId] && cs[i].slot in Logged(r.log)) &&
            (cs[i].linkId == NoLink || cs[i].linkId !in idMap ==> r.ids[cs[i].slot] == st.ids[cs[i].slot])
  {
    var n := |cs| - 1;
    var prev := RenameChildren(cs[..n], idMap, st);
    if i < n {
      assert cs[..n][i] == cs[i];
      RenameChildAt(cs[..n], idMap, st, i);
      if cs[n].linkId != NoLink && cs[n].linkId in idMap {
        RenameSlotEffect(prev, cs[n].slot, idMap[cs[n].linkId]);
      }
    } else {
      assert forall k :: 0 <= k < n ==> cs[..n][k].slot != cs[n].slot;
      RenameChildrenKeeps(cs[..n], idMap, st, cs[n].slot);
      if cs[n].linkId != NoLink && cs[n].linkId in idMap {
        RenameSlotEffect(prev, cs[n].slot, idMap[cs[n].linkId]);
      }
    }
  }

  /** The children pass of one visit: with distinct records, every child
      whose link ID is not -1 and is known to the scope's map takes the
      mapped ID and is logged, every other child keeps its ID, nothing
      outside the children changes, and only the overwritten records are
      logged. */
  lemma RenameChildrenMaps(cs: seq<SceneObject>, idMap: LinkTable, st: RenameState)
    requires forall j :: 0 <= j < |cs| ==> cs[j].slot in st.ids
    requires forall a, b :: 0 <= a < b < |cs| ==> cs[a].slot != cs[b].slot
    ensures var r := RenameChildren(cs, idMap, st);
            (forall i :: 0 <= i < |cs| && cs[i].linkId != NoLink && cs[i].linkId in idMap ==>
               r.ids[cs[i].slot] == idMap[cs[i].linkId] && cs[i].slot in Logged(r.log)) &&
            (forall i :: 0 <= i < |cs| && (cs[i].linkId == NoLink || cs[i].linkId !in idMap) ==>
               r.ids[cs[i].slot] == st.ids[cs[i].slot]) &&
            (forall s :: s in st.ids && s !in ChildSlots(cs) ==> r.ids[s] == st.ids[s]) &&
            st.log <= r.log && Logged(st.log) <= Logged(r.log) <= Logged(st.log) + MappedChildSlots(cs, idMap)
  {
    RenameChildrenFrame(cs, idMap, st);
    forall i | 0 <= i < |cs|
      ensures var r := RenameChildren(cs, idMap, st);
              (cs[i].linkId != NoLink && cs[i].linkId in idMap ==>
                 r.ids[cs[i].slot] == idMap[cs[i].linkId] && cs[i].slot in Logged(r.log)) &&
              (cs[i].linkId == NoLink || cs[i].linkId !in idMap ==> r.ids[cs[i].slot] == st.ids[cs[i].slot])
    {
      RenameChildAt(cs, idMap, st, i);
    }
  }

  // ---------------------------------------------------------------------
  // Which records the second walk may touch.

  /** Records one visit may overwrite: the node's components and its
      children that carry a link ID. */
  function NodeSlots(t: SceneObject): set<Slot>
  {
    ComponentSlots(t.components) + LinkedChildSlots(t.children)
  }

  /** Records the second walk may overwrite below t (t's own record
      excluded): components and linked children, at every depth. */
  function Renameable(t: SceneObject): set<Slot>
  {
    NodeSlots(t) + (set i, s | 0 <= i < |t.children| && s in Renameable(t.children[i]) :: s)
  }

  lemma {:induction false} RenameableWithin(t: SceneObject)
    ensures Renameable(t) <= PendingSlots(t)
  {
    forall i | 0 <= i < |t.children|
      ensures t.children[i].slot in PendingSlots(t) && Renameable(t.children[i]) <= PendingSlots(t)
    {
      RenameableWithin(t.children[i]);
      assert t.children[i].slot in Slots(t.children[i]);
      assert PendingSlots(t.children[i]) <= Slots(t.children[i]);
    }
  }

  lemma OwnSlotNotPending(t: SceneObject)
    requires DistinctSlots(t)
    ensures t.slot !in PendingSlots(t)
  {
  }

  /** The children's own records are distinct, lie below t and are not
      among its components' records. */
  lemma ChildSlotsOf(t: SceneObject)
    requires DistinctSlots(t)
    ensures ChildSlots(t.children) <= PendingSlots(t)
    ensures ChildSlots(t.children) !! ComponentSlots(t.components)
    ensures forall i, j :: 0 <= i < j < |t.children| ==> t.children[i].slot != t.children[j].slot
    ensures NodeSlots(t) <= PendingSlots(t)
  {
    forall i | 0 <= i < |t.children|
      ensures t.children[i].slot in Slots(t.children[i])
    {
    }
  }

  /** What the walk needs of an entry: registered records, distinct
      records, nothing below it logged yet, and within the bound. */
  ghost predicate Pending(t: SceneObject, logged: set<Slot>, keys: set<Slot>, bound: set<Slot>)
  {
    Registered(t, keys) && DistinctSlots(t) && PendingSlots(t) !! logged && Renameable(t) <= bound
  }

  /** What lies below a child lies below its parent. */
  lemma ChildBelow(t: SceneObject, k: nat)
    requires k < |t.children|
    ensures Slots(t.children[k]) <= PendingSlots(t)
    ensures PendingSlots(t.children[k]) <= Slots(t.children[k])
    ensures Renameable(t.children[k]) <= Renameable(t)
  {
  }

  /** Visiting t touches nothing below any of its children. */
  lemma ChildClearOfNode(t: SceneObject, k: nat)
    requires DistinctSlots(t) && k < |t.children|
    ensures PendingSlots(t.children[k]) !! NodeSlots(t)
  {
    var c := t.children[k];
    ChildBelow(t, k);
    OwnSlotNotPending(c);
    forall j | 0 <= j < |t.children|
      ensures t.children[j].slot !in PendingSlots(c)
    {
      if j != k {
        assert t.children[j].slot in Slots(t.children[j]);
      }
    }
    assert PendingSlots(c) !! LinkedChildSlots(t.children);
  }

  /** A child of a pending node is pending once the node has been visited,
      and what lies below it lies below the node. */
  lemma ChildPending(t: SceneObject, k: nat, logged: set<Slot>, keys: set<Slot>, bound: set<Slot>)
    requires Pending(t, logged, keys, bound) && k < |t.children|
    ensures Pending(t.children[k], logged + NodeSlots(t), keys, bound)
    ensures PendingSlots(t.children[k]) <= PendingSlots(t)
  {
    ChildBelow(t, k);
    ChildClearOfNode(t, k);
  }

  /** The walk invariant: the state is faithful, the log stays within the
      bound, every entry is pending, and the entries' subtrees are
      disjoint. */
  ghost predicate WalkInv(todo: seq<StackEntry>, st: RenameState, ids0: IdTable, bound: set<Slot>)
  {
    Faithful(st, ids0) && Logged(st.log) <= bound &&
    (forall i :: 0 <= i < |todo| ==> Pending(todo[i].so, Logged(st.log), ids0.Keys, bound)) &&
    Apart(todo)
  }

  /** One visit keeps the state faithful and logs only records of the node. */
  lemma ProcessNodeFaithful(e: StackEntry, table: ScopeTable, st: RenameState, ids0: IdTable, bound: set<Slot>)
    requires Faithful(st, ids0) && Pending(e.so, Logged(st.log), ids0.Keys, bound)
    ensures var r := ProcessNode(e, table, st);
            Faithful(r, ids0) && Logged(st.log) <= Logged(r.log) <= Logged(st.log) + NodeSlots(e.so) &&
            st.log <= r.log && forall s :: s in Logged(st.log) ==> r.ids[s] == st.ids[s]
  {
    var t := e.so;
    var scope := ChildScope(e);
    ChildSlotsOf(t);
    if scope in table {
      RenameComponentsFaithful(t.components, table[scope], st, ids0);
      var mid := RenameComponents(t.components, table[scope], st);
      forall i | 0 <= i < |t.children|
        ensures t.children[i].slot in ids0
      {
        assert Registered(t.children[i], ids0.Keys);
      }
      RenameChildrenFaithful(t.children, table[scope], mid, ids0);
    }
  }

  /** Two children of a node with distinct records share nothing below. */
  lemma ChildrenApart(t: SceneObject, a: nat, b: nat)
    requires DistinctSlots(t) && a < b < |t.children|
    ensures PendingSlots(t.children[a]) !! PendingSlots(t.children[b])
  {
    ChildBelow(t, a);
    ChildBelow(t, b);
  }

  /** Entries apart from one another below. */
  ghost predicate Apart(todo: seq<StackEntry>)
  {
    forall i, j :: 0 <= i < j < |todo| ==> PendingSlots(todo[i].so) !! PendingSlots(todo[j].so)
  }

  /** After a visit that logs only records of the visited node, every entry
      of the new stack is pending. */
  lemma PoppedPending(todo: seq<StackEntry>, uuid: string, logged: set<Slot>, logged': set<Slot>,
                      keys: set<Slot>, bound: set<Slot>)
    requires todo != [] && Apart(todo)
    requires forall i :: 0 <= i < |todo| ==> Pending(todo[i].so, logged, keys, bound)
    requires logged' <= logged + NodeSlots(todo[|todo| - 1].so)
    ensures var next := todo[..|todo| - 1] + ChildEntries(todo[|todo| - 1].so.children, uuid);
            forall i :: 0 <= i < |next| ==> Pending(next[i].so, logged', keys, bound)
  {
    var n := |todo| - 1;
    var t := todo[n].so;
    var next := todo[..n] + ChildEntries(t.children, uuid);
    assert Pending(t, logged, keys, bound);
    ChildSlotsOf(t);
    forall i | 0 <= i < |next|
      ensures Pending(next[i].so, logged', keys, bound)
    {
      if i < n {
        assert next[i] == todo[i];
        assert PendingSlots(todo[i].so) !! PendingSlots(t);
      } else {
        assert next[i].so == t.children[i - n];
        ChildPending(t, i - n, logged, keys, bound);
      }
    }
  }

  /** The children's subtrees lie below t and apart from one another. */
  ghost predicate Layered(t: SceneObject)
  {
    (forall k :: 0 <= k < |t.children| ==> PendingSlots(t.children[k]) <= PendingSlots(t)) &&
    (forall a, b :: 0 <= a < b < |t.children| ==> PendingSlots(t.children[a]) !! PendingSlots(t.children[b]))
  }

  lemma DistinctLayered(t: SceneObject)
    requires DistinctSlots(t)
    ensures Layered(t)
  {
    forall k | 0 <= k < |t.children|
      ensures PendingSlots(t.children[k]) <= PendingSlots(t)
    {
      ChildBelow(t, k);
    }
    forall a, b | 0 <= a < b < |t.children|
      ensures PendingSlots(t.children[a]) !! PendingSlots(t.children[b])
    {
      ChildrenApart(t, a, b);
    }
  }

  /** The new stack's entries are apart from one another. */
  lemma PoppedApart(todo: seq<StackEntry>, uuid: string)
    requires todo != [] && Apart(todo) && Layered(todo[|todo| - 1].so)
    ensures Apart(todo[..|todo| - 1] + ChildEntries(todo[|todo| - 1].so.children, uuid))
  {
    var n := |todo| - 1;
    var t := todo[n].so;
    var next := todo[..n] + ChildEntries(t.children, uuid);
    forall i, j | 0 <= i < j < |next|
      ensures PendingSlots(next[i].so) !! PendingSlots(next[j].so)
    {
      if j < n {
        assert next[i] == todo[i] && next[j] == todo[j];
      } else if i < n {
        assert next[i] == todo[i] && next[j].so == t.children[j - n];
        assert PendingSlots(todo[i].so) !! PendingSlots(t);
      } else {
        assert next[i].so == t.children[i - n] && next[j].so == t.children[j - n];
      }
    }
  }

  /** One iteration of the second walk keeps the walk invariant and leaves
      already logged records alone. */
  lemma WalkStep(todo: seq<StackEntry>, table: ScopeTable, st: RenameState, ids0: IdTable, bound: set<Slot>)
    requires todo != [] && WalkInv(todo, st, ids0, bound)
    ensures Registered(todo[|todo| - 1].so, st.ids.Keys)
    ensures var e := todo[|todo| - 1];
            var r := ProcessNode(e, table, st);
            WalkInv(todo[..|todo| - 1] + ChildEntries(e.so.children, ChildScope(e)), r, ids0, bound) &&
            st.log <= r.log && forall s :: s in Logged(st.log) ==> r.ids[s] == st.ids[s]
  {
    var n := |todo| - 1;
    var e := todo[n];
    assert Pending(e.so, Logged(st.log), ids0.Keys, bound);
    ProcessNodeFaithful(e, table, st, ids0, bound);
    var r := ProcessNode(e, table, st);
    ChildSlotsOf(e.so);
    assert Apart(todo);
    PoppedPending(todo, ChildScope(e), Logged(st.log), Logged(r.log), ids0.Keys, bound);
    DistinctLayered(e.so);
    PoppedApart(todo, ChildScope(e));
  }

  /** The whole second walk keeps the state faithful, logs only records
      within the bound and leaves already logged records alone. */
  lemma {:induction false} WalkFaithful(todo: seq<StackEntry>, table: ScopeTable, st: RenameState, ids0: IdTable, bound: set<Slot>)
    requires WalkInv(todo, st, ids0, bound)
    ensures AllRegistered(todo, st.ids.Keys)
    ensures var r := RenameWalk(todo, table, st);
            Faithful(r, ids0) && Logged(r.log) <= bound &&
            st.log <= r.log && forall s :: s in Logged(st.log) ==> r.ids[s] == st.ids[s]
    decreases StackSize(todo)
  {
    assert AllRegistered(todo, st.ids.Keys) by {
      forall i | 0 <= i < |todo| ensures Registered(todo[i].so, st.ids.Keys) {
        assert Pending(todo[i].so, Logged(st.log), ids0.Keys, bound);
      }
    }
    if todo != [] {
      var n := |todo| - 1;
      var e := todo[n];
      WalkStep(todo, table, st, ids0, bound);
      PopShrinks(todo, ChildScope(e));
      WalkFaithful(todo[..n] + ChildEntries(e.so.children, ChildScope(e)), table, ProcessNode(e, table, st), ids0, bound);
    }
  }

  /** Records one visit overwrites: the components and linked children
      whose link ID the scope's map knows. */
  function NodeRenamedSlots(t: SceneObject, scope: string, table: ScopeTable): set<Slot>
  {
    if scope in table then MappedComponentSlots(t.components, table[scope]) + MappedChildSlots(t.children, table[scope])
    else {}
  }

  /** Every component of t, and every child of t with a link ID other than
      -1, whose link ID the scope's map knows holds the mapped ID in ids. */
  ghost predicate NodeMapped(t: SceneObject, scope: string, table: ScopeTable, ids: IdTable)
  {
    scope in table ==>
      (forall i :: 0 <= i < |t.components| && t.components[i].linkId in table[scope] ==>
         t.components[i].slot in ids && ids[t.components[i].slot] == table[scope][t.components[i].linkId]) &&
      (forall i :: 0 <= i < |t.children| && t.children[i].linkId != NoLink && t.children[i].linkId in table[scope] ==>
         t.children[i].slot in ids && ids[t.children[i].slot] == table[scope][t.children[i].linkId])
  }

  /** NodeMapped at t and, with the scope t hands down, at every node
      below it. */
  ghost predicate MappedBelow(t: SceneObject, uuid: string, table: ScopeTable, ids: IdTable)
  {
    var scope := ChildScope(StackEntry(t, uuid));
    NodeMapped(t, scope, table, ids) &&
    forall k :: 0 <= k < |t.children| ==> MappedBelow(t.children[k], scope, table, ids)
  }

  /** One visit: every component and linked child whose link ID the map of
      the children's scope knows takes the mapped ID and is logged; only
      those records are logged. */
  lemma ProcessNodeMaps(e: StackEntry, table: ScopeTable, st: RenameState)
    requires Registered(e.so, st.ids.Keys) && DistinctSlots(e.so)
    ensures var r := ProcessNode(e, table, st);
            NodeMapped(e.so, ChildScope(e), table, r.ids) &&
            Logged(st.log) + NodeRenamedSlots(e.so, ChildScope(e), table) <= Logged(r.log) &&
            Logged(r.log) <= Logged(st.log) + NodeRenamedSlots(e.so, ChildScope(e), table)
  {
    var t := e.so;
    var scope := ChildScope(e);
    if scope in table {
      var m := table[scope];
      ChildSlotsOf(t);
      RenameComponentsMaps(t.components, m, st);
      var mid := RenameComponents(t.components, m, st);
      forall i | 0 <= i < |t.children|
        ensures t.children[i].slot in mid.ids
      {
        assert Registered(t.children[i], st.ids.Keys);
      }
      RenameChildrenMaps(t.children, m, mid);
      var r := RenameChildren(t.children, m, mid);
      assert r == ProcessNode(e, table, st);
      forall i | 0 <= i < |t.components| && t.components[i].linkId in m
        ensures r.ids[t.components[i].slot] == m[t.components[i].linkId]
      {
        assert t.components[i] in t.components;
        assert t.components[i].slot !in ChildSlots(t.children);
      }
      assert MappedComponentSlots(t.components, m) <= Logged(mid.log);
      assert MappedChildSlots(t.children, m) <= Logged(r.log);
    }
  }

  /** NodeMapped survives any later change that leaves the overwritten
      records alone. */
  lemma NodeMappedKept(t: SceneObject, scope: string, table: ScopeTable, ids: IdTable, ids': IdTable)
    requires NodeMapped(t, scope, table, ids)
    requires forall s :: s in NodeRenamedSlots(t, scope, table) ==> s in ids' && ids'[s] == ids[s]
    ensures NodeMapped(t, scope, table, ids')
  {
    if scope in table {
      var m := table[scope];
      forall i | 0 <= i < |t.components| && t.components[i].linkId in m
        ensures t.components[i].slot in NodeRenamedSlots(t, scope, table)
      {
        assert t.components[i].slot in MappedComponentSlots(t.components, m);
      }
      forall i | 0 <= i < |t.children| && t.children[i].linkId != NoLink && t.children[i].linkId in m
        ensures t.children[i].slot in NodeRenamedSlots(t, scope, table)
      {
        assert t.children[i].slot in MappedChildSlots(t.children, m);
      }
    }
  }

  /** What one visit maps stays mapped for the rest of the walk. */
  lemma VisitMapsKept(todo: seq<StackEntry>, table: ScopeTable, st: RenameState, ids0: IdTable, bound: set<Slot>)
    requires todo != [] && WalkInv(todo, st, ids0, bound)
    ensures var e := todo[|todo| - 1];
            Registered(e.so, st.ids.Keys) &&
            var mid := ProcessNode(e, table, st);
            var next := todo[..|todo| - 1] + ChildEntries(e.so.children, ChildScope(e));
            WalkInv(next, mid, ids0, bound) && AllRegistered(next, mid.ids.Keys) &&
            NodeMapped(e.so, ChildScope(e), table, RenameWalk(next, table, mid).ids)
  {
    var n := |todo| - 1;
    var e := todo[n];
    var next := todo[..n] + ChildEntries(e.so.children, ChildScope(e));
    WalkStep(todo, table, st, ids0, bound);
    var mid := ProcessNode(e, table, st);
    WalkFaithful(next, table, mid, ids0, bound);
    assert Pending(e.so, Logged(st.log), ids0.Keys, bound);
    ProcessNodeMaps(e, table, st);
    NodeMappedKept(e.so, ChildScope(e), table, mid.ids, RenameWalk(next, table, mid).ids);
  }

  /** A popped node that is mapped, above a new stack that is mapped, leaves
      the old stack mapped. */
  lemma PoppedMapped(todo: seq<StackEntry>, table: ScopeTable, ids: IdTable)
    requires todo != []
    requires var e := todo[|todo| - 1];
             var next := todo[..|todo| - 1] + ChildEntries(e.so.children, ChildScope(e));
             NodeMapped(e.so, ChildScope(e), table, ids) &&
             forall i :: 0 <= i < |next| ==> MappedBelow(next[i].so, next[i].uuid, table, ids)
    ensures forall i :: 0 <= i < |todo| ==> MappedBelow(todo[i].so, todo[i].uuid, table, ids)
  {
    var n := |todo| - 1;
    var e := todo[n];
    var next := todo[..n] + ChildEntries(e.so.children, ChildScope(e));
    forall i | 0 <= i < |todo|
      ensures MappedBelow(todo[i].so, todo[i].uuid, table, ids)
    {
      if i < n {
        assert next[i] == todo[i];
      } else {
        assert e == StackEntry(e.so, e.uuid);
        forall k | 0 <= k < |e.so.children|
          ensures MappedBelow(e.so.children[k], ChildScope(e), table, ids)
        {
          assert next[n + k] == StackEntry(e.so.children[k], ChildScope(e));
        }
      }
    }
  }

  /** The second walk leaves every entry of the stack mapped: each component
      and linked child whose link ID its scope's map knows ends up holding
      the mapped ID, at every depth. */
  lemma {:induction false} WalkMaps(todo: seq<StackEntry>, table: ScopeTable, st: RenameState, ids0: IdTable, bound: set<Slot>)
    requires WalkInv(todo, st, ids0, bound)
    ensures AllRegistered(todo, st.ids.Keys)
    ensures var r := RenameWalk(todo, table, st);
            forall i :: 0 <= i < |todo| ==> MappedBelow(todo[i].so, todo[i].uuid, table, r.ids)
    decreases StackSize(todo)
  {
    WalkFaithful(todo, table, st, ids0, bound);
    if todo != [] {
      var n := |todo| - 1;
      var e := todo[n];
      var next := todo[..n] + ChildEntries(e.so.children, ChildScope(e));
      VisitMapsKept(todo, table, st, ids0, bound);
      var mid := ProcessNode(e, table, st);
      PopShrinks(todo, ChildScope(e));
      WalkMaps(next, table, mid, ids0, bound);
      assert RenameWalk(next, table, mid) == RenameWalk(todo, table, st);
      PoppedMapped(todo, table, RenameWalk(todo, table, st).ids);
    }
  }

  /** Records the second walk overwrites at t and below, with the scope t
      hands down at each level. */
  function RenamedBelow(t: SceneObject, uuid: string, table: ScopeTable): set<Slot>
  {
    var scope := ChildScope(StackEntry(t, uuid));
    NodeRenamedSlots(t, scope, table) +
    (set k, s | 0 <= k < |t.children| && s in RenamedBelow(t.children[k], scope, table) :: s)
  }

  /** Records the second walk overwrites below the entries of a stack. */
  function StackRenamed(todo: seq<StackEntry>, table: ScopeTable): set<Slot>
  {
    set i, s | 0 <= i < |todo| && s in RenamedBelow(todo[i].so, todo[i].uuid, table) :: s
  }

  lemma StackRenamedSingle(e: StackEntry, table: ScopeTable)
    ensures StackRenamed([e], table) == RenamedBelow(e.so, e.uuid, table)
  {
    assert [e][0] == e;
  }

  /** An entry's subtree is part of what its stack overwrites. */
  lemma EntryRenamed(todo: seq<StackEntry>, i: nat, table: ScopeTable)
    requires i < |todo|
    ensures RenamedBelow(todo[i].so, todo[i].uuid, table) <= StackRenamed(todo, table)
  {
  }

  /** Popping a node: what the node and the new stack overwrite, the old
      stack overwrites. */
  lemma PoppedRenamed(todo: seq<StackEntry>, table: ScopeTable)
    requires todo != []
    ensures var e := todo[|todo| - 1];
            var next := todo[..|todo| - 1] + ChildEntries(e.so.children, ChildScope(e));
            NodeRenamedSlots(e.so, ChildScope(e), table) + StackRenamed(next, table) <= StackRenamed(todo, table)
  {
    var n := |todo| - 1;
    var e := todo[n];
    var next := todo[..n] + ChildEntries(e.so.children, ChildScope(e));
    assert e == StackEntry(e.so, e.uuid);
    EntryRenamed(todo, n, table);
    forall i | 0 <= i < |next|
      ensures RenamedBelow(next[i].so, next[i].uuid, table) <= StackRenamed(todo, table)
    {
      if i < n {
        assert next[i] == todo[i];
        EntryRenamed(todo, i, table);
      } else {
        assert next[i] == StackEntry(e.so.children[i - n], ChildScope(e));
        assert RenamedBelow(next[i].so, next[i].uuid, table) <= RenamedBelow(e.so, e.uuid, table);
      }
    }
  }

  /** The second walk logs nothing but the records it maps below the
      entries of the stack. */
  lemma {:induction false} WalkLogsMapped(todo: seq<StackEntry>, table: ScopeTable, st: RenameState, ids0: IdTable, bound: set<Slot>)
    requires WalkInv(todo, st, ids0, bound)
    ensures AllRegistered(todo, st.ids.Keys)
    ensures Logged(RenameWalk(todo, table, st).log) <= Logged(st.log) + StackRenamed(todo, table)
    decreases StackSize(todo)
  {
    WalkFaithful(todo, table, st, ids0, bound);
    if todo != [] {
      var n := |todo| - 1;
      var e := todo[n];
      var next := todo[..n] + ChildEntries(e.so.children, ChildScope(e));
      WalkStep(todo, table, st, ids0, bound);
      var mid := ProcessNode(e, table, st);
      assert Pending(e.so, Logged(st.log), ids0.Keys, bound);
      ProcessNodeMaps(e, table, st);
      PopShrinks(todo, ChildScope(e));
      WalkLogsMapped(next, table, mid, ids0, bound);
      assert RenameWalk(next, table, mid) == RenameWalk(todo, table, st);
      PoppedRenamed(todo, table);
    }
  }

  /** The walk starts faithful, with the instance root logged and
      nothing below it. */
  lemma WalkStarts(prefab: SceneObject, instance: SceneObject, ids0: IdTable)
    requires Registered(prefab, ids0.Keys) && Registered(instance, ids0.Keys) && DistinctSlots(instance)
    ensures WalkInv([StackEntry(instance, RootScope)], RootRenamed(prefab, instance, ids0), ids0,
                    {instance.slot} + Renameable(instance))
  {
    var start := RootRenamed(prefab, instance, ids0);
    RenameSlotFaithful(RenameState(ids0, []), instance.slot, ids0[prefab.slot], ids0);
    OwnSlotNotPending(instance);
    assert Logged(start.log) == {instance.slot};
    assert Pending(instance, Logged(start.log), ids0.Keys, {instance.slot} + Renameable(instance));
  }

  lemma {:induction false} RegisteredSlots(t: SceneObject, keys: set<Slot>)
    requires Registered(t, keys)
    ensures Slots(t) <= keys
  {
    forall i | 0 <= i < |t.children|
      ensures Slots(t.children[i]) <= keys
    {
      RegisteredSlots(t.children[i], keys);
    }
  }

  /** The second walk from the renamed root, whatever table it consults. */
  lemma InstanceWalk(prefab: SceneObject, instance: SceneObject, ids0: IdTable, table: ScopeTable)
    requires Registered(prefab, ids0.Keys) && Registered(instance, ids0.Keys) && DistinctSlots(instance)
    ensures var start := RootRenamed(prefab, instance, ids0);
            AllRegistered([StackEntry(instance, RootScope)], start.ids.Keys) &&
            var r := RenameWalk([StackEntry(instance, RootScope)], table, start);
            Faithful(r, ids0) && Logged(r.log) <= {instance.slot} + Renameable(instance) &&
            start.log <= r.log && r.ids[instance.slot] == ids0[prefab.slot]
  {
    var bound := {instance.slot} + Renameable(instance);
    var start := RootRenamed(prefab, instance, ids0);
    WalkStarts(prefab, instance, ids0);
    WalkFaithful([StackEntry(instance, RootScope)], table, start, ids0, bound);
    assert instance.slot in Logged(start.log);
  }

  /** The second walk from the renamed root maps the whole instance tree,
      whatever table it consults. */
  lemma InstanceWalkMaps(prefab: SceneObject, instance: SceneObject, ids0: IdTable, table: ScopeTable)
    requires Registered(prefab, ids0.Keys) && Registered(instance, ids0.Keys) && DistinctSlots(instance)
    ensures var start := RootRenamed(prefab, instance, ids0);
            AllRegistered([StackEntry(instance, RootScope)], start.ids.Keys) &&
            MappedBelow(instance, RootScope, table, RenameWalk([StackEntry(instance, RootScope)], table, start).ids)
  {
    WalkStarts(prefab, instance, ids0);
    WalkMaps([StackEntry(instance, RootScope)], table, RootRenamed(prefab, instance, ids0), ids0,
             {instance.slot} + Renameable(instance));
  }

  /** renameInstanceIds gives every instance component, and every instance
      child with a link ID other than -1, whose link ID the map recorded for
      its scope by the first walk knows, the instance ID recorded there: the
      instance ID of the prefab entity with that link ID in that scope. */
  lemma RenameMapsLinkedEntities(prefab: SceneObject, instance: SceneObject, ids0: IdTable)
    requires Registered(prefab, ids0.Keys) && Registered(instance, ids0.Keys) && DistinctSlots(instance)
    ensures MappedBelow(instance, RootScope, CollectedScopes(prefab, ids0), Renamed(prefab, instance, ids0).ids)
  {
    InstanceWalkMaps(prefab, instance, ids0, CollectedScopes(prefab, ids0));
  }

  /** The second walk from the renamed root changes nothing but the root
      and the records it maps, whatever table it consults. */
  lemma InstanceWalkLogs(prefab: SceneObject, instance: SceneObject, ids0: IdTable, table: ScopeTable)
    requires Registered(prefab, ids0.Keys) && Registered(instance, ids0.Keys) && DistinctSlots(instance)
    ensures var start := RootRenamed(prefab, instance, ids0);
            AllRegistered([StackEntry(instance, RootScope)], start.ids.Keys) &&
            var r := RenameWalk([StackEntry(instance, RootScope)], table, start);
            forall s :: s in ids0 && s != instance.slot && s !in RenamedBelow(instance, RootScope, table) ==>
              s in r.ids && r.ids[s] == ids0[s]
  {
    var start := RootRenamed(prefab, instance, ids0);
    var r := RenameWalk([StackEntry(instance, RootScope)], table, start);
    InstanceWalk(prefab, instance, ids0, table);
    InstanceWalkLogged(prefab, instance, ids0, table);
    UnloggedKept(r, ids0, {instance.slot} + RenamedBelow(instance, RootScope, table));
  }

  /** The second walk from the renamed root logs only the root and the
      records it maps. */
  lemma InstanceWalkLogged(prefab: SceneObject, instance: SceneObject, ids0: IdTable, table: ScopeTable)
    requires Registered(prefab, ids0.Keys) && Registered(instance, ids0.Keys) && DistinctSlots(instance)
    ensures var start := RootRenamed(prefab, instance, ids0);
            AllRegistered([StackEntry(instance, RootScope)], start.ids.Keys) &&
            Logged(RenameWalk([StackEntry(instance, RootScope)], table, start).log) <=
              {instance.slot} + RenamedBelow(instance, RootScope, table)
  {
    var start := RootRenamed(prefab, instance, ids0);
    var todo := [StackEntry(instance, RootScope)];
    WalkStarts(prefab, instance, ids0);
    WalkLogsMapped(todo, table, start, ids0, {instance.slot} + Renameable(instance));
    StackRenamedSingle(StackEntry(instance, RootScope), table);
    RootLogged(prefab, instance, ids0);
    var logged := Logged(RenameWalk(todo, table, start).log);
    var mapped := RenamedBelow(instance, RootScope, table);
    assert logged <= Logged(start.log) + StackRenamed(todo, table);
    assert logged <= {instance.slot} + mapped;
  }

  lemma RootLogged(prefab: SceneObject, instance: SceneObject, ids0: IdTable)
    requires prefab.slot in ids0 && instance.slot in ids0
    ensures Logged(RootRenamed(prefab, instance, ids0).log) == {instance.slot}
  {
    assert RootRenamed(prefab, instance, ids0).log == [RenamedGameObject(instance.slot, ids0[instance.slot])];
  }

  /** A faithful state holds the original ID of every record outside what
      its log may mention. */
  lemma UnloggedKept(st: RenameState, ids0: IdTable, allowed: set<Slot>)
    requires Faithful(st, ids0) && Logged(st.log) <= allowed
    ensures forall s :: s in ids0 && s !in allowed ==> s in st.ids && st.ids[s] == ids0[s]
  {
  }

  /** renameInstanceIds changes no instance ID but the instance root's and
      those of the entities whose link ID the map of their scope knows. */
  lemma RenameTouchesOnlyMapped(prefab: SceneObject, instance: SceneObject, ids0: IdTable)
    requires Registered(prefab, ids0.Keys) && Registered(instance, ids0.Keys) && DistinctSlots(instance)
    ensures var r := Renamed(prefab, instance, ids0);
            forall s :: s in ids0 && s != instance.slot && s !in RenamedBelow(instance, RootScope, CollectedScopes(prefab, ids0)) ==>
              r.ids[s] == ids0[s]
  {
    InstanceWalkLogs(prefab, instance, ids0, CollectedScopes(prefab, ids0));
  }

  /** What the second walk guarantees about the whole rename. */
  lemma RenamedFaithful(prefab: SceneObject, instance: SceneObject, ids0: IdTable)
    requires Registered(prefab, ids0.Keys) && Registered(instance, ids0.Keys) && DistinctSlots(instance)
    ensures var r := Renamed(prefab, instance, ids0);
            Faithful(r, ids0) && Logged(r.log) <= {instance.slot} + Renameable(instance) &&
            RootRenamed(prefab, instance, ids0).log <= r.log &&
            r.ids[instance.slot] == ids0[prefab.slot]
  {
    InstanceWalk(prefab, instance, ids0, CollectedScopes(prefab, ids0));
  }

  /** Rename followed by restore gives back every instance ID. Rename only
      ever changes the instance root's record and the records of instance
      components and linked instance children; nothing outside the instance
      tree (the prefab tree in particular) changes. */
  lemma RenameRestoreRoundTrip(prefab: SceneObject, instance: SceneObject, ids0: IdTable)
    requires Registered(prefab, ids0.Keys) && Registered(instance, ids0.Keys) && DistinctSlots(instance)
    ensures var r := Renamed(prefab, instance, ids0);
            Restored(r.ids, r.log) == ids0 &&
            (forall s :: s in ids0 && r.ids[s] != ids0[s] ==> s == instance.slot || s in Renameable(instance)) &&
            (forall s :: s in ids0 && s !in Slots(instance) ==> r.ids[s] == ids0[s])
  {
    var r := Renamed(prefab, instance, ids0);
    RenamedFaithful(prefab, instance, ids0);
    RestoreUndoes(r, ids0);
    RenameableWithin(instance);
    assert {instance.slot} + Renameable(instance) <= Slots(instance);
  }

  /** The prefab's instance IDs survive a rename whenever the two trees
      share no instance data. */
  lemma PrefabUntouched(prefab: SceneObject, instance: SceneObject, ids0: IdTable)
    requires Registered(prefab, ids0.Keys) && Registered(instance, ids0.Keys) && DistinctSlots(instance)
    requires Slots(prefab) !! Slots(instance)
    ensures forall s :: s in Slots(prefab) ==> s in Renamed(prefab, instance, ids0).ids &&
                                               Renamed(prefab, instance, ids0).ids[s] == ids0[s]
  {
    RegisteredSlots(prefab, ids0.Keys);
    RenameRestoreRoundTrip(prefab, instance, ids0);
  }

  /** Records of the children with link ID -1, at every depth below t. */
  function NoLinkSlots(t: SceneObject): set<Slot>
  {
    (set i | 0 <= i < |t.children| && t.children[i].linkId == NoLink :: t.children[i].slot) +
    (set i, s | 0 <= i < |t.children| && s in NoLinkSlots(t.children[i]) :: s)
  }

  /** A record below child i of t is not a record rename may touch at t's
      level or below any other child, once it is not renameable below
      child i itself. */
  lemma BelowChildNotRenameable(t: SceneObject, i: nat, s: Slot)
    requires DistinctSlots(t) && i < |t.children|
    requires s in Slots(t.children[i]) && s !in Renameable(t.children[i])
    requires s != t.children[i].slot || t.children[i].linkId == NoLink
    ensures s !in Renameable(t)
  {
    forall j | 0 <= j < |t.children|
      ensures s != t.children[j].slot || t.children[j].linkId == NoLink
      ensures s !in Renameable(t.children[j])
    {
      RenameableWithin(t.children[j]);
      ChildBelow(t, j);
      if j != i {
        assert t.children[j].slot in Slots(t.children[j]);
      }
    }
    assert s !in LinkedChildSlots(t.children);
  }

  /** With distinct records, no child with link ID -1, at any depth, has a
      record rename may touch. */
  lemma {:induction false} NoLinkNotRenameable(t: SceneObject)
    requires DistinctSlots(t)
    ensures NoLinkSlots(t) !! Renameable(t)
    ensures NoLinkSlots(t) <= PendingSlots(t)
  {
    forall s | s in NoLinkSlots(t)
      ensures s !in Renameable(t) && s in PendingSlots(t)
    {
      var i :| 0 <= i < |t.children| &&
               ((t.children[i].linkId == NoLink && t.children[i].slot == s) || s in NoLinkSlots(t.children[i]));
      var c := t.children[i];
      ChildBelow(t, i);
      if c.linkId == NoLink && c.slot == s {
        OwnSlotNotPending(c);
        RenameableWithin(c);
        assert s in Slots(c);
      } else {
        NoLinkNotRenameable(c);
        OwnSlotNotPending(c);
      }
      BelowChildNotRenameable(t, i, s);
    }
  }

  /** Rename never changes the ID of an instance child whose link ID is -1,
      at any depth. */
  lemma NoLinkChildrenKeepIds(prefab: SceneObject, instance: SceneObject, ids0: IdTable)
    requires Registered(prefab, ids0.Keys) && Registered(instance, ids0.Keys) && DistinctSlots(instance)
    ensures forall s :: s in NoLinkSlots(instance) ==>
                          s in Renamed(prefab, instance, ids0).ids && Renamed(prefab, instance, ids0).ids[s] == ids0[s]
  {
    NoLinkNotRenameable(instance);
    OwnSlotNotPending(instance);
    RegisteredSlots(instance, ids0.Keys);
    RenameRestoreRoundTrip(prefab, instance, ids0);
  }

  /** The instance root is logged first, with its original ID, and ends up
      holding the prefab root's ID whatever its link ID. */
  lemma RootRenamedFirst(prefab: SceneObject, instance: SceneObject, ids0: IdTable)
    requires Registered(prefab, ids0.Keys) && Registered(instance, ids0.Keys) && DistinctSlots(instance)
    ensures var r := Renamed(prefab, instance, ids0);
            |r.log| > 0 && r.log[0] == RenamedGameObject(instance.slot, ids0[instance.slot]) &&
            r.ids[instance.slot] == ids0[prefab.slot]
  {
    RenamedFaithful(prefab, instance, ids0);
    assert RootRenamed(prefab, instance, ids0).log == [RenamedGameObject(instance.slot, ids0[instance.slot])];
  }

  // ---------------------------------------------------------------------
  // What the first walk records.

  /** The first walk only ever adds scopes and link IDs. */
  lemma {:induction false} ScopesGrow(todo: seq<StackEntry>, table: ScopeTable, ids: IdTable)
    requires AllRegistered(todo, ids.Keys)
    ensures var r := Scopes(todo, table, ids);
            table.Keys <= r.Keys && forall s :: s in table ==> table[s].Keys <= r[s].Keys
    decreases StackSize(todo)
  {
    if todo != [] {
      var n := |todo| - 1;
      var e := todo[n];
      PopShrinks(todo, ChildScope(e));
      PopRegistered(todo, ChildScope(e), ids.Keys);
      ScopesGrow(todo[..n] + ChildEntries(e.so.children, ChildScope(e)), Record(e, table, ids), ids);
    }
  }

  /** The prefab root's scope is in the table, with the link IDs of all the
      root's components and children; an instance root with the same prefab
      link UUID looks up that very scope in the second walk. */
  lemma RootScopeRecorded(prefab: SceneObject, instance: SceneObject, ids: IdTable)
    requires Registered(prefab, ids.Keys)
    requires prefab.prefabLinkUUID == instance.prefabLinkUUID
    ensures var table := CollectedScopes(prefab, ids);
            var scope := ChildScope(StackEntry(instance, RootScope));
            scope in table &&
            (forall c :: c in prefab.components ==> c.linkId in table[scope]) &&
            (forall c :: c in prefab.children ==> c.linkId in table[scope])
  {
    var e := StackEntry(prefab, RootScope);
    var todo := [e];
    PopShrinks(todo, ChildScope(e));
    PopRegistered(todo, ChildScope(e), ids.Keys);
    assert todo[..0] + ChildEntries(prefab.children, ChildScope(e)) == ChildEntries(prefab.children, ChildScope(e));
    ScopesGrow(ChildEntries(prefab.children, ChildScope(e)), Record(e, map[], ids), ids);
  }

  lemma {:induction false} RecordComponentsLast(m: LinkTable, cs: seq<Component>, ids: IdTable, i: nat)
    requires forall c :: c in cs ==> c.slot in ids
    requires i < |cs| && forall j :: i < j < |cs| ==> cs[j].linkId != cs[i].linkId
    ensures var r := RecordComponents(m, cs, ids);
            cs[i].linkId in r && r[cs[i].linkId] == ids[cs[i].slot]
  {
    var n := |cs| - 1;
      assert forall c :: c in cs[..n] ==> c in cs;
    var prev := RecordComponents(m, cs[..n], ids);
    assert RecordComponents(m, cs, ids) == prev[cs[n].linkId := ids[cs[n].slot]];
    if i < n {
      assert cs[..n][i] == cs[i];
      assert forall j :: i < j < n ==> cs[..n][j].linkId != cs[..n][i].linkId;
      RecordComponentsLast(m, cs[..n], ids, i);
    }
  }

  lemma {:induction false} RecordComponentsUntouched(m: LinkTable, cs: seq<Component>, ids: IdTable, k: LinkId)
    requires forall c :: c in cs ==> c.slot in ids
    requires k in m && forall j :: 0 <= j < |cs| ==> cs[j].linkId != k
    ensures var r := RecordComponents(m, cs, ids);
            k in r && r[k] == m[k]
  {
    if cs != [] {
      var n := |cs| - 1;
      assert forall c :: c in cs[..n] ==> c in cs;
      assert forall j :: 0 <= j < n ==> cs[..n][j].linkId != k;
      RecordComponentsUntouched(m, cs[..n], ids, k);
    }
  }

  /** Each component's link ID maps to the instance ID of the last component
      carrying it; every other key keeps its value from m. */
  lemma RecordComponentsValues(m: LinkTable, cs: seq<Component>, ids: IdTable)
    requires forall c :: c in cs ==> c.slot in ids
    ensures var r := RecordComponents(m, cs, ids);
            (forall i :: 0 <= i < |cs| && (forall j :: i < j < |cs| ==> cs[j].linkId != cs[i].linkId) ==>
               cs[i].linkId in r && r[cs[i].linkId] == ids[cs[i].slot]) &&
            (forall k :: k in m && (forall j :: 0 <= j < |cs| ==> cs[j].linkId != k) ==> k in r && r[k] == m[k])
  {
    forall i | 0 <= i < |cs| && (forall j :: i < j < |cs| ==> cs[j].linkId != cs[i].linkId)
      ensures var r := RecordComponents(m, cs, ids); cs[i].linkId in r && r[cs[i].linkId] == ids[cs[i].slot]
    {
      RecordComponentsLast(m, cs, ids, i);
    }
    forall k | k in m && (forall j :: 0 <= j < |cs| ==> cs[j].linkId != k)
      ensures var r := RecordComponents(m, cs, ids); k in r && r[k] == m[k]
    {
      RecordComponentsUntouched(m, cs, ids, k);
    }
  }

  lemma {:induction false} RecordChildrenLast(m: LinkTable, cs: seq<SceneObject>, ids: IdTable, i: nat)
    requires forall i :: 0 <= i < |cs| ==> cs[i].slot in ids
    requires i < |cs| && forall j :: i < j < |cs| ==> cs[j].linkId != cs[i].linkId
    ensures var r := RecordChildren(m, cs, ids);
            cs[i].linkId in r && r[cs[i].linkId] == ids[cs[i].slot]
  {
    var n := |cs| - 1;
    var prev := RecordChildren(m, cs[..n], ids);
    assert RecordChildren(m, cs, ids) == prev[cs[n].linkId := ids[cs[n].slot]];
    if i < n {
      assert cs[..n][i] == cs[i];
      assert forall j :: i < j < n ==> cs[..n][j].linkId != cs[..n][i].linkId;
      RecordChildrenLast(m, cs[..n], ids, i);
    }
  }

  lemma {:induction false} RecordChildrenUntouched(m: LinkTable, cs: seq<SceneObject>, ids: IdTable, k: LinkId)
    requires forall i :: 0 <= i < |cs| ==> cs[i].slot in ids
    requires k in m && forall j :: 0 <= j < |cs| ==> cs[j].linkId != k
    ensures var r := RecordChildren(m, cs, ids);
            k in r && r[k] == m[k]
  {
    if cs != [] {
      var n := |cs| - 1;
      assert forall j :: 0 <= j < n ==> cs[..n][j].linkId != k;
      RecordChildrenUntouched(m, cs[..n], ids, k);
    }
  }

  /** Each child's link ID maps to the instance ID of the last child
      carrying it; every other key keeps its value from m. */
  lemma RecordChildrenValues(m: LinkTable, cs: seq<SceneObject>, ids: IdTable)
    requires forall i :: 0 <= i < |cs| ==> cs[i].slot in ids
    ensures var r := RecordChildren(m, cs, ids);
            (forall i :: 0 <= i < |cs| && (forall j :: i < j < |cs| ==> cs[j].linkId != cs[i].linkId) ==>
               cs[i].linkId in r && r[cs[i].linkId] == ids[cs[i].slot]) &&
            (forall k :: k in m && (forall j :: 0 <= j < |cs| ==> cs[j].linkId != k) ==> k in r && r[k] == m[k])
  {
    forall i | 0 <= i < |cs| && (forall j :: i < j < |cs| ==> cs[j].linkId != cs[i].linkId)
      ensures var r := RecordChildren(m, cs, ids); cs[i].linkId in r && r[cs[i].linkId] == ids[cs[i].slot]
    {
      RecordChildrenLast(m, cs, ids, i);
    }
    forall k | k in m && (forall j :: 0 <= j < |cs| ==> cs[j].linkId != k)
      ensures var r := RecordChildren(m, cs, ids); k in r && r[k] == m[k]
    {
      RecordChildrenUntouched(m, cs, ids, k);
    }
  }

  /** One visit of the first walk: in the children's scope, a child's link
      ID maps to the instance ID of the last child carrying it. */
  lemma RecordChildValue(e: StackEntry, table: ScopeTable, ids: IdTable, i: nat)
    requires Registered(e.so, ids.Keys)
    requires i < |e.so.children|
    requires forall j :: i < j < |e.so.children| ==> e.so.children[j].linkId != e.so.children[i].linkId
    ensures e.so.children[i].slot in ids
    ensures var r := Record(e, table, ids);
            var scope := ChildScope(e);
            scope in r && e.so.children[i].linkId in r[scope] &&
            r[scope][e.so.children[i].linkId] == ids[e.so.children[i].slot]
  {
    var scope := ChildScope(e);
    var m := if scope in table then table[scope] else map[];
    assert forall j :: 0 <= j < |e.so.children| ==> Registered(e.so.children[j], ids.Keys);
    var m1 := RecordComponents(m, e.so.components, ids);
    assert Record(e, table, ids)[scope] == RecordChildren(m1, e.so.children, ids);
    RecordChildrenLast(m1, e.so.children, ids, i);
  }

  /** One visit of the first walk: in the children's scope, a component's
      link ID maps to the instance ID of the last component carrying it
      unless a child carries it too. */
  lemma RecordComponentValue(e: StackEntry, table: ScopeTable, ids: IdTable, i: nat)
    requires Registered(e.so, ids.Keys)
    requires i < |e.so.components|
    requires forall j :: i < j < |e.so.components| ==> e.so.components[j].linkId != e.so.components[i].linkId
    requires forall j :: 0 <= j < |e.so.children| ==> e.so.children[j].linkId != e.so.components[i].linkId
    ensures var r := Record(e, table, ids);
            var scope := ChildScope(e);
            scope in r && e.so.components[i].linkId in r[scope] &&
            r[scope][e.so.components[i].linkId] == ids[e.so.components[i].slot]
  {
    var scope := ChildScope(e);
    var m := if scope in table then table[scope] else map[];
    assert forall j :: 0 <= j < |e.so.children| ==> Registered(e.so.children[j], ids.Keys);
    var m1 := RecordComponents(m, e.so.components, ids);
    assert Record(e, table, ids)[scope] == RecordChildren(m1, e.so.children, ids);
    RecordComponentsLast(m, e.so.components, ids, i);
    RecordChildrenUntouched(m1, e.so.children, ids, e.so.components[i].linkId);
  }

  /** One visit of the first walk leaves every other scope alone, and in the
      children's scope every key no component or child carries. */
  lemma RecordKeepsOthers(e: StackEntry, table: ScopeTable, ids: IdTable, scope: string, k: LinkId)
    requires Registered(e.so, ids.Keys)
    requires scope in table && k in table[scope]
    requires scope == ChildScope(e) ==>
               (forall j :: 0 <= j < |e.so.components| ==> e.so.components[j].linkId != k) &&
               (forall j :: 0 <= j < |e.so.children| ==> e.so.children[j].linkId != k)
    ensures var r := Record(e, table, ids);
            scope in r && k in r[scope] && r[scope][k] == table[scope][k]
  {
    if scope == ChildScope(e) {
      assert forall j :: 0 <= j < |e.so.children| ==> Registered(e.so.children[j], ids.Keys);
      var m1 := RecordComponents(table[scope], e.so.components, ids);
      assert Record(e, table, ids)[scope] == RecordChildren(m1, e.so.children, ids);
      RecordComponentsUntouched(table[scope], e.so.components, ids, k);
      RecordChildrenUntouched(m1, e.so.children, ids, k);
    }
  }

  /** Whether visiting t, handed scope uuid, or anything below it records
      link ID k into the map of scope. */
  predicate Writes(t: SceneObject, uuid: string, scope: string, k: LinkId)
  {
    var s := ChildScope(StackEntry(t, uuid));
    (s == scope && (k in ComponentLinks(t.components) || k in ChildLinks(t.children))) ||
    exists i :: 0 <= i < |t.children| && Writes(t.children[i], s, scope, k)
  }

  /** A visit that does not write k into scope leaves its value there. */
  lemma RecordKeeps(e: StackEntry, table: ScopeTable, ids: IdTable, scope: string, k: LinkId)
    requires Registered(e.so, ids.Keys)
    requires scope in table && k in table[scope]
    requires !Writes(e.so, e.uuid, scope, k)
    ensures var r := Record(e, table, ids);
            scope in r && k in r[scope] && r[scope][k] == table[scope][k]
  {
    assert e == StackEntry(e.so, e.uuid);
    if ChildScope(e) == scope {
      forall j | 0 <= j < |e.so.components| ensures e.so.components[j].linkId != k {
        assert ComponentLinks(e.so.components)[j] == e.so.components[j].linkId;
      }
      forall j | 0 <= j < |e.so.children| ensures e.so.children[j].linkId != k {
        assert ChildLinks(e.so.children)[j] == e.so.children[j].linkId;
      }
    }
    RecordKeepsOthers(e, table, ids, scope, k);
  }

  /** When no entry writes k into scope, no entry of the stack after a pop
      does either. */
  lemma PoppedNoWrites(todo: seq<StackEntry>, scope: string, k: LinkId)
    requires todo != []
    requires forall i :: 0 <= i < |todo| ==> !Writes(todo[i].so, todo[i].uuid, scope, k)
    ensures var e := todo[|todo| - 1];
            var next := todo[..|todo| - 1] + ChildEntries(e.so.children, ChildScope(e));
            forall i :: 0 <= i < |next| ==> !Writes(next[i].so, next[i].uuid, scope, k)
  {
    var n := |todo| - 1;
    var e := todo[n];
    var next := todo[..n] + ChildEntries(e.so.children, ChildScope(e));
    assert e == StackEntry(e.so, e.uuid);
    assert !Writes(e.so, e.uuid, scope, k);
    forall i | 0 <= i < |next|
      ensures !Writes(next[i].so, next[i].uuid, scope, k)
    {
      if i < n {
        assert next[i] == todo[i];
      } else {
        assert next[i] == StackEntry(e.so.children[i - n], ChildScope(e));
      }
    }
  }

  /** A value the rest of the first walk never writes again survives it. */
  lemma {:induction false} ScopesKeep(todo: seq<StackEntry>, table: ScopeTable, ids: IdTable, scope: string, k: LinkId)
    requires AllRegistered(todo, ids.Keys)
    requires scope in table && k in table[scope]
    requires forall i :: 0 <= i < |todo| ==> !Writes(todo[i].so, todo[i].uuid, scope, k)
    ensures var r := Scopes(todo, table, ids);
            scope in r && k in r[scope] && r[scope][k] == table[scope][k]
    decreases StackSize(todo)
  {
    if todo != [] {
      var n := |todo| - 1;
      var e := todo[n];
      var next := todo[..n] + ChildEntries(e.so.children, ChildScope(e));
      PopShrinks(todo, ChildScope(e));
      PopRegistered(todo, ChildScope(e), ids.Keys);
      var table' := Record(e, table, ids);
      RecordKeeps(e, table, ids, scope, k);
      PoppedNoWrites(todo, scope, k);
      ScopesKeep(next, table', ids, scope, k);
    }
  }

  /** The first walk's table after it has visited the prefab root: the
      root's record, with the root's children still to visit. */
  lemma CollectedAfterRoot(prefab: SceneObject, ids: IdTable)
    requires Registered(prefab, ids.Keys)
    ensures var e := StackEntry(prefab, RootScope);
            AllRegistered(ChildEntries(prefab.children, ChildScope(e)), ids.Keys) &&
            CollectedScopes(prefab, ids) == Scopes(ChildEntries(prefab.children, ChildScope(e)), Record(e, map[], ids), ids)
  {
    var e := StackEntry(prefab, RootScope);
    var todo := [e];
    PopShrinks(todo, ChildScope(e));
    PopRegistered(todo, ChildScope(e), ids.Keys);
    assert todo[..0] + ChildEntries(prefab.children, ChildScope(e)) == ChildEntries(prefab.children, ChildScope(e));
  }

  /** The prefab root's component with link ID k, the last one carrying it,
      is what the root's scope maps k to, provided no prefab child carries k
      and nothing below the root writes k into that scope again. */
  lemma RootComponentRecorded(prefab: SceneObject, ids: IdTable, j: nat)
    requires Registered(prefab, ids.Keys)
    requires j < |prefab.components|
    requires var k := prefab.components[j].linkId;
             (forall m :: j < m < |prefab.components| ==> prefab.components[m].linkId != k) &&
             k !in ChildLinks(prefab.children) &&
             forall c :: 0 <= c < |prefab.children| ==>
               !Writes(prefab.children[c], ChildScope(StackEntry(prefab, RootScope)), ChildScope(StackEntry(prefab, RootScope)), k)
    ensures var scope := ChildScope(StackEntry(prefab, RootScope));
            var table := CollectedScopes(prefab, ids);
            scope in table && prefab.components[j].linkId in table[scope] &&
            table[scope][prefab.components[j].linkId] == ids[prefab.components[j].slot]
  {
    var e := StackEntry(prefab, RootScope);
    var scope := ChildScope(e);
    var k := prefab.components[j].linkId;
    CollectedAfterRoot(prefab, ids);
    forall m | 0 <= m < |prefab.children| ensures prefab.children[m].linkId != k {
      assert ChildLinks(prefab.children)[m] == prefab.children[m].linkId;
    }
    RecordComponentValue(e, map[], ids, j);
    var todo := ChildEntries(prefab.children, scope);
    forall i | 0 <= i < |todo| ensures !Writes(todo[i].so, todo[i].uuid, scope, k) {
      assert todo[i] == StackEntry(prefab.children[i], scope);
    }
    ScopesKeep(todo, Record(e, map[], ids), ids, scope, k);
  }

  /** The prefab root's child with link ID k, the last one carrying it, is
      what the root's scope maps k to, provided nothing below the root
      writes k into that scope again. */
  lemma RootChildRecorded(prefab: SceneObject, ids: IdTable, j: nat)
    requires Registered(prefab, ids.Keys)
    requires j < |prefab.children|
    requires var k := prefab.children[j].linkId;
             (forall m :: j < m < |prefab.children| ==> prefab.children[m].linkId != k) &&
             forall c :: 0 <= c < |prefab.children| ==>
               !Writes(prefab.children[c], ChildScope(StackEntry(prefab, RootScope)), ChildScope(StackEntry(prefab, RootScope)), k)
    ensures prefab.children[j].slot in ids
    ensures var scope := ChildScope(StackEntry(prefab, RootScope));
            var table := CollectedScopes(prefab, ids);
            scope in table && prefab.children[j].linkId in table[scope] &&
            table[scope][prefab.children[j].linkId] == ids[prefab.children[j].slot]
  {
    var e := StackEntry(prefab, RootScope);
    var scope := ChildScope(e);
    var k := prefab.children[j].linkId;
    CollectedAfterRoot(prefab, ids);
    RecordChildValue(e, map[], ids, j);
    var todo := ChildEntries(prefab.children, scope);
    forall i | 0 <= i < |todo| ensures !Writes(todo[i].so, todo[i].uuid, scope, k) {
      assert todo[i] == StackEntry(prefab.children[i], scope);
    }
    ScopesKeep(todo, Record(e, map[], ids), ids, scope, k);
  }

  /** An instance root linked to the same prefab as the prefab root: each
      of its components takes the instance ID of the prefab root's component
      with the same link ID (the last such, when no prefab root child
      carries that ID and nothing deeper writes it into the root's scope). */
  lemma RootComponentTakesPrefabId(prefab: SceneObject, instance: SceneObject, ids0: IdTable, i: nat, j: nat)
    requires Registered(prefab, ids0.Keys) && Registered(instance, ids0.Keys) && DistinctSlots(instance)
    requires instance.prefabLinkUUID == prefab.prefabLinkUUID
    requires i < |instance.components| && j < |prefab.components|
    requires instance.components[i].linkId == prefab.components[j].linkId
    requires var k := prefab.components[j].linkId;
             (forall m :: j < m < |prefab.components| ==> prefab.components[m].linkId != k) &&
             k !in ChildLinks(prefab.children) &&
             forall c :: 0 <= c < |prefab.children| ==>
               !Writes(prefab.children[c], ChildScope(StackEntry(prefab, RootScope)), ChildScope(StackEntry(prefab, RootScope)), k)
    ensures Renamed(prefab, instance, ids0).ids[instance.components[i].slot] == ids0[prefab.components[j].slot]
  {
    RootComponentRecorded(prefab, ids0, j);
    RenameMapsLinkedEntities(prefab, instance, ids0);
    assert ChildScope(StackEntry(instance, RootScope)) == ChildScope(StackEntry(prefab, RootScope));
  }

  /** An instance root linked to the same prefab as the prefab root: each
      of its children with a link ID other than -1 takes the instance ID of
      the prefab root's child with the same link ID (the last such, when
      nothing deeper writes it into the root's scope). */
  lemma RootChildTakesPrefabId(prefab: SceneObject, instance: SceneObject, ids0: IdTable, i: nat, j: nat)
    requires Registered(prefab, ids0.Keys) && Registered(instance, ids0.Keys) && DistinctSlots(instance)
    requires instance.prefabLinkUUID == prefab.prefabLinkUUID
    requires i < |instance.children| && j < |prefab.children|
    requires instance.children[i].linkId != NoLink && instance.children[i].linkId == prefab.children[j].linkId
    requires var k := prefab.children[j].linkId;
             (forall m :: j < m < |prefab.children| ==> prefab.children[m].linkId != k) &&
             forall c :: 0 <= c < |prefab.children| ==>
               !Writes(prefab.children[c], ChildScope(StackEntry(prefab, RootScope)), ChildScope(StackEntry(prefab, RootScope)), k)
    ensures prefab.children[j].slot in ids0 && instance.children[i].slot in ids0
    ensures Renamed(prefab, instance, ids0).ids[instance.children[i].slot] == ids0[prefab.children[j].slot]
  {
    assert Registered(prefab.children[j], ids0.Keys) && Registered(instance.children[i], ids0.Keys);
    RootChildRecorded(prefab, ids0, j);
    RenameMapsLinkedEntities(prefab, instance, ids0);
    assert ChildScope(StackEntry(instance, RootScope)) == ChildScope(StackEntry(prefab, RootScope));
  }

  // ---------------------------------------------------------------------
  // The instance-data records and the two operations on them.

  /** The shared GameObjectInstanceData records, keyed by slot. */
  class InstanceStore {
    var ids: IdTable

    constructor (ids: IdTable)
      ensures this.ids == ids
    {
      this.ids := ids;
    }

    /** The component loop of the first walk. */
    method RecordComponentIds(idMap: LinkTable, components: seq<Component>) returns (r: LinkTable)
      requires forall c :: c in components ==> c.slot in ids
      ensures r == RecordComponents(idMap, components, ids)
    {
      r := idMap;
      var i := 0;
      while i < |components|
        invariant 0 <= i <= |components|
        invariant forall c :: c in components[..i] ==> c.slot in ids
        invariant r == RecordComponents(idMap, components[..i], ids)
      {
        RecordComponentsStep(idMap, components, i, ids);
        r := r[components[i].linkId := ids[components[i].slot]];
        i := i + 1;
      }
      assert components[..i] == components;
    }

    /** The child loop of the first walk: record and push each child. */
    method RecordChildIds(idMap: LinkTable, children: seq<SceneObject>, uuid: string, todo: seq<StackEntry>)
      returns (r: LinkTable, todo': seq<StackEntry>)
      requires forall i :: 0 <= i < |children| ==> children[i].slot in ids
      ensures r == RecordChildren(idMap, children, ids)
      ensures todo' == todo + ChildEntries(children, uuid)
    {
      r := idMap;
      todo' := todo;
      var i := 0;
      while i < |children|
        invariant 0 <= i <= |children|
        invariant r == RecordChildren(idMap, children[..i], ids)
        invariant todo' == todo + ChildEntries(children[..i], uuid)
      {
        RecordChildrenStep(idMap, children, i, ids);
        r := r[children[i].linkId := ids[children[i].slot]];
        todo' := todo' + [StackEntry(children[i], uuid)];
        ChildEntriesSnoc(children, i, uuid);
        i := i + 1;
      }
      assert children[..i] == children;
    }

    /** One iteration of the first walk, after the pop. */
    method VisitPrefabObject(current: StackEntry, linkToInstanceId: ScopeTable, todo: seq<StackEntry>)
      returns (table: ScopeTable, todo': seq<StackEntry>)
      requires Registered(current.so, ids.Keys)
      ensures table == Record(current, linkToInstanceId, ids)
      ensures todo' == todo + ChildEntries(current.so.children, ChildScope(current))
    {
      assert forall i :: 0 <= i < |current.so.children| ==> Registered(current.so.children[i], ids.Keys);
      var childParentUUID := if current.so.prefabLinkUUID == "" then current.uuid else current.so.prefabLinkUUID;
      var idMap := if childParentUUID in linkToInstanceId then linkToInstanceId[childParentUUID] else map[];
      idMap := RecordComponentIds(idMap, current.so.components);
      idMap, todo' := RecordChildIds(idMap, current.so.children, childParentUUID, todo);
      table := linkToInstanceId[childParentUUID := idMap];
    }

    /** The first walk of renameInstanceIds. */
    method CollectScopes(prefab: SceneObject) returns (linkToInstanceId: ScopeTable)
      requires Registered(prefab, ids.Keys)
      ensures linkToInstanceId == CollectedScopes(prefab, ids)
    {
      var todo := [StackEntry(prefab, RootScope)];
      linkToInstanceId := map[];
      while todo != []
        invariant AllRegistered(todo, ids.Keys)
        invariant Scopes(todo, linkToInstanceId, ids) == CollectedScopes(prefab, ids)
        decreases StackSize(todo)
      {
        var current := todo[|todo| - 1];
        PopShrinks(todo, ChildScope(current));
        PopRegistered(todo, ChildScope(current), ids.Keys);
        linkToInstanceId, todo := VisitPrefabObject(current, linkToInstanceId, todo[..|todo| - 1]);
      }
    }

    /** The original is logged before the record is overwritten. */
    method Rename(slot: Slot, newId: InstanceId, log: seq<RenamedGameObject>) returns (log': seq<RenamedGameObject>)
      requires slot in ids
      modifies this
      ensures RenameState(ids, log') == RenameSlot(RenameState(old(ids), log), slot, newId)
    {
      log' := log + [RenamedGameObject(slot, ids[slot])];
      ids := ids[slot := newId];
    }

    /** The component loop of the second walk. */
    method RenameComponentIds(components: seq<Component>, idMap: LinkTable, log: seq<RenamedGameObject>)
      returns (log': seq<RenamedGameObject>)
      requires forall c :: c in components ==> c.slot in ids
      modifies this
      ensures RenameState(ids, log') == RenameComponents(components, idMap, RenameState(old(ids), log))
    {
      log' := log;
      var i := 0;
      while i < |components|
        invariant 0 <= i <= |components|
        invariant RenameState(ids, log') == RenameComponents(components[..i], idMap, RenameState(old(ids), log))
        invariant ids.Keys == old(ids).Keys
      {
        var component := components[i];
        assert components[..i + 1][..i] == components[..i];
        if component.linkId in idMap {
          log' := Rename(component.slot, idMap[component.linkId], log');
        }
        i := i + 1;
      }
      assert components[..i] == components;
    }

    /** The child loop of the second walk: rename each linked child the
        scope's map knows (only when the scope was found) and push every
        child. */
    method RenameChildIds(children: seq<SceneObject>, idMap: Option<LinkTable>, uuid: string,
                          todo: seq<StackEntry>, log: seq<RenamedGameObject>)
      returns (todo': seq<StackEntry>, log': seq<RenamedGameObject>)
      requires forall i :: 0 <= i < |children| ==> children[i].slot in ids
      modifies this
      ensures idMap.Some? ==> RenameState(ids, log') == RenameChildren(children, idMap.value, RenameState(old(ids), log))
      ensures idMap.None? ==> ids == old(ids) && log' == log
      ensures todo' == todo + ChildEntries(children, uuid)
    {
      log' := log;
      todo' := todo;
      var i := 0;
      while i < |children|
        invariant 0 <= i <= |children|
        invariant idMap.Some? ==> RenameState(ids, log') == RenameChildren(children[..i], idMap.value, RenameState(old(ids), log))
        invariant idMap.None? ==> ids == old(ids) && log' == log
        invariant ids.Keys == old(ids).Keys
        invariant todo' == todo + ChildEntries(children[..i], uuid)
      {
        var child := children[i];
        assert children[..i + 1][..i] == children[..i];
        if idMap.Some? {
          if child.linkId != NoLink {
            if child.linkId in idMap.value {
              log' := Rename(child.slot, idMap.value[child.linkId], log');
            }
          }
        }
        todo' := todo' + [StackEntry(child, uuid)];
        ChildEntriesSnoc(children, i, uuid);
        i := i + 1;
      }
      assert children[..i] == children;
    }

    /** One iteration of the second walk, after the pop. */
    method VisitInstanceObject(current: StackEntry, linkToInstanceId: ScopeTable, todo: seq<StackEntry>,
                               log: seq<RenamedGameObject>)
      returns (todo': seq<StackEntry>, log': seq<RenamedGameObject>)
      requires Registered(current.so, ids.Keys)
      modifies this
      ensures RenameState(ids, log') == ProcessNode(current, linkToInstanceId, RenameState(old(ids), log))
      ensures todo' == todo + ChildEntries(current.so.children, ChildScope(current))
    {
      assert forall i :: 0 <= i < |current.so.children| ==> Registered(current.so.children[i], ids.Keys);
      var childParentUUID := if current.so.prefabLinkUUID == "" then current.uuid else current.so.prefabLinkUUID;
      var idMap := if childParentUUID in linkToInstanceId then Some(linkToInstanceId[childParentUUID]) else None;
      log' := log;
      if idMap.Some? {
        log' := RenameComponentIds(current.so.components, idMap.value, log');
      }
      todo', log' := RenameChildIds(current.so.children, idMap, childParentUUID, todo, log');
    }

    /** PrefabDiff::renameInstanceIds: returns the log of overwritten
        records (renamedObjects). */
    method RenameInstanceIds(prefab: SceneObject, instance: SceneObject) returns (output: seq<RenamedGameObject>)
      requires Registered(prefab, ids.Keys) && Registered(instance, ids.Keys)
      modifies this
      ensures RenameState(ids, output) == Renamed(prefab, instance, old(ids))
    {
      var linkToInstanceId := CollectScopes(prefab);
      output := Rename(instance.slot, ids[prefab.slot], []);
      var todo := [StackEntry(instance, RootScope)];
      while todo != []
        invariant ids.Keys == old(ids).Keys
        invariant AllRegistered(todo, ids.Keys)
        invariant RenameWalk(todo, linkToInstanceId, RenameState(ids, output)) == Renamed(prefab, instance, old(ids))
        decreases StackSize(todo)
      {
        var current := todo[|todo| - 1];
        PopShrinks(todo, ChildScope(current));
        PopRegistered(todo, ChildScope(current), ids.Keys);
        todo, output := VisitInstanceObject(current, linkToInstanceId, todo[..|todo| - 1], output);
      }
    }

    /** PrefabDiff::restoreInstanceIds. */
    method RestoreInstanceIds(renamedObjects: seq<RenamedGameObject>)
      modifies this
      ensures ids == Restored(old(ids), renamedObjects)
    {
      var i := 0;
      while i < |renamedObjects|
        invariant 0 <= i <= |renamedObjects|
        invariant ids == Restored(old(ids), renamedObjects[..i])
      {
        ids := ids[renamedObjects[i].slot := renamedObjects[i].originalId];
        assert renamedObjects[..i + 1][..i] == renamedObjects[..i];
        i := i + 1;
      }
      assert renamedObjects[..i] == renamedObjects;
    }
  }
}
