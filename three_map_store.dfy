/**
 * The `threeMap` store module: the same slot tables as the map service,
 * held in application state, plus the selected tile's `name-id` string.
 * The store's slots carry no orientation.
 */
module ThreeMapStore {
  import opened Wrappers
  import opened Geometry
  import opened Js
  import opened Helpers
  import opened Objects
  import opened Slots

  /** The selection string the `selectTile` action commits: `${name}-${instanceId}`. */
  function SelectionString(name: string, instanceId: nat): string {
    name + "-" + NatToString(instanceId)
  }

  /** `deconstructTileStringId` recovers the type name and the index from a selection string when the name has no `-`. */
  lemma SelectionRoundTrip(name: string, instanceId: nat)
    requires '-' !in name
    ensures DeconstructTileStringId(SelectionString(name, instanceId)) == TileStringId(name, Some(NatToString(instanceId)))
    ensures ParseIndex(NatToString(instanceId)) == Some(instanceId)
  {
    var id := NatToString(instanceId);
    assert '-' !in id by {
      assert forall i | 0 <= i < |id| :: IsDigit(id[i]);
    }
    DeconstructTileStringIdRoundTrip(name, id);
    ParseIndexOfNatToString(instanceId);
  }

  /** Different tiles (with `-`-free type names) get different selection strings. */
  lemma SelectionStringInjective(n1: string, i1: nat, n2: string, i2: nat)
    requires '-' !in n1 && '-' !in n2
    requires SelectionString(n1, i1) == SelectionString(n2, i2)
    ensures n1 == n2 && i1 == i2
  {
    SelectionRoundTrip(n1, i1);
    SelectionRoundTrip(n2, i2);
  }

  class ThreeMapState {
    var instancedMeshes: Option<Dict<TileEntry>>
    var selectedTile: Option<string>

    /** The initial state: an empty table object, nothing selected. */
    constructor ()
      ensures instancedMeshes == Some([]) && selectedTile == None
    {
      instancedMeshes := Some([]);
      selectedTile := None;
    }

    /** `setMeshes`: replaces the whole table; `null` is accepted and makes the next table mutation a TypeError. */
    method SetMeshes(meshes: Option<Dict<TileEntry>>)
      modifies this
      ensures instancedMeshes == meshes && selectedTile == old(selectedTile)
    {
      instancedMeshes := meshes;
    }

    /** `rotateInstance`: one quarter turn; an unknown type or slot is a TypeError. */
    method RotateInstance(name: string, instanceId: nat) returns (o: Outcome)
      modifies this
      ensures selectedTile == old(selectedTile)
      ensures var t := TableRotate(old(instancedMeshes), name, instanceId, 1);
              if t.Err? then o == Fail(TypeError) && instancedMeshes == old(instancedMeshes)
              else o == Pass && instancedMeshes == Some(t.value)
    {
      if instancedMeshes.None? {
        return Fail(TypeError);
      }
      var e := Get(instancedMeshes.value, name);
      if e.None? {
        return Fail(TypeError);
      }
      var r := RotateSlot(e.value, instanceId, 1);
      if r.Err? {
        return Fail(TypeError);
      }
      instancedMeshes := Some(Put(instancedMeshes.value, name, r.value));
      o := Pass;
    }

    /** `addInstance`: the slot `{exists: true, isActive: false, rotation: rotation || 0}` at the old counter; both counters grow. */
    method AddInstance(position: Vec3, name: string, rotation: Option<int>) returns (o: Outcome)
      modifies this
      ensures selectedTile == old(selectedTile)
      ensures var t := TableAdd(old(instancedMeshes), name, position, rotation, None);
              if t.Err? then o == Fail(TypeError) && instancedMeshes == old(instancedMeshes)
              else o == Pass && instancedMeshes == Some(t.value)
    {
      if instancedMeshes.None? {
        return Fail(TypeError);
      }
      var e := Get(instancedMeshes.value, name);
      if e.None? {
        return Fail(TypeError);
      }
      instancedMeshes := Some(Put(instancedMeshes.value, name, AddSlot(e.value, position, rotation, None)));
      o := Pass;
    }

    /** `deleteInstance`: tombstones the slot; no counter moves. */
    method DeleteInstance(name: string, instanceId: nat) returns (o: Outcome)
      modifies this
      ensures selectedTile == old(selectedTile)
      ensures var t := TableDelete(old(instancedMeshes), name, instanceId);
              if t.Err? then o == Fail(TypeError) && instancedMeshes == old(instancedMeshes)
              else o == Pass && instancedMeshes == Some(t.value)
    {
      if instancedMeshes.None? {
        return Fail(TypeError);
      }
      var e := Get(instancedMeshes.value, name);
      if e.None? {
        return Fail(TypeError);
      }
      var r := DeleteSlot(e.value, instanceId);
      if r.Err? {
        return Fail(TypeError);
      }
      instancedMeshes := Some(Put(instancedMeshes.value, name, r.value));
      o := Pass;
    }

    /** The `selectTile` mutation. */
    method SelectTile(tileString: Option<string>)
      modifies this
      ensures selectedTile == tileString && instancedMeshes == old(instancedMeshes)
    {
      selectedTile := tileString;
    }

    /** `clearTileSelection`. */
    method ClearTileSelection()
      modifies this
      ensures selectedTile == None && instancedMeshes == old(instancedMeshes)
    {
      selectedTile := None;
    }

    /** The `selectTile` action: commits `${name}-${instanceId}`. */
    method SelectTileAction(name: string, instanceId: nat)
      modifies this
      ensures selectedTile == Some(SelectionString(name, instanceId)) && instancedMeshes == old(instancedMeshes)
      ensures '-' !in name ==> DeconstructTileStringId(selectedTile.value) == TileStringId(name, Some(NatToString(instanceId)))
    {
      var s := SelectionString(name, instanceId);
      SelectTile(Some(s));
      if '-' !in name {
        SelectionRoundTrip(name, instanceId);
      }
    }
  }
}
