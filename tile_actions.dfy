/**
 * tileActions.js: reading a tile's state back out of the slot tables
 * (active-state toggle guard, rotation, instance position, the position
 * of the selected tile) and the two rollover-highlight setters.
 */
module TileActions {
  import opened Wrappers
  import opened Geometry
  import opened Js
  import opened Helpers
  import opened Objects
  import opened Slots

  /** What `toggleTileActiveState` asks of the tween: nothing, or a tween towards `active`. */
  datatype ToggleRequest = NoToggle | TweenTo(active: bool)

  /**
   * `toggleTileActiveState`: a slot that is animating is left alone;
   * otherwise the tween is asked for the opposite of `isActive`.
   * A missing slot is a TypeError (`undefined.isAnimating`).
   */
  function ToggleTileActiveState(mesh: Mesh, instanceId: nat): (r: Result<ToggleRequest>)
    ensures r.Err? <==> instanceId !in mesh.userData
    ensures r == Ok(NoToggle) <==> instanceId in mesh.userData && mesh.userData[instanceId].isAnimating
    ensures r.Ok? && !mesh.userData[instanceId].isAnimating ==>
              r.value == TweenTo(!mesh.userData[instanceId].isActive)
  {
    if instanceId !in mesh.userData then Err(TypeError)
    else
      var slot := mesh.userData[instanceId];
      if slot.isAnimating then Ok(NoToggle)
      else if !slot.isActive then Ok(TweenTo(true))
      else Ok(TweenTo(false))
  }

  /** A tile just added is inactive and not animating, so the toggle switches it on. */
  lemma NewTileTogglesOn(entry: TileEntry, position: Vec3, rotation: Option<int>, orientation: Option<string>)
    ensures ToggleTileActiveState(AddSlot(entry, position, rotation, orientation).mesh, entry.count) == Ok(TweenTo(true))
  {
  }

  /** The toggle reads neither `exists` nor `rotation`: deleting or rotating a slot leaves the request unchanged. */
  lemma ToggleIgnoresRotateAndDelete(entry: TileEntry, id: nat, step: int)
    requires id in entry.mesh.userData
    ensures ToggleTileActiveState(DeleteSlot(entry, id).value.mesh, id) == ToggleTileActiveState(entry.mesh, id)
    ensures ToggleTileActiveState(RotateSlot(entry, id, step).value.mesh, id) == ToggleTileActiveState(entry.mesh, id)
  {
  }

  /** `getTileRotation`: the stored rotation; an unknown type or slot is a TypeError. */
  function GetTileRotation(name: string, instanceId: nat, instancedMeshes: Dict<TileEntry>): (r: Result<int>)
    ensures r.Ok? <==> Get(instancedMeshes, name).Some? && instanceId in Get(instancedMeshes, name).value.mesh.userData
    ensures r.Ok? ==> r.value == Get(instancedMeshes, name).value.mesh.userData[instanceId].rotation
  {
    match Get(instancedMeshes, name)
    case None => Err(TypeError)
    case Some(entry) =>
      if instanceId in entry.mesh.userData then Ok(entry.mesh.userData[instanceId].rotation) else Err(TypeError)
  }

  /** Reading the rotation of a tile just added gives `rotation || 0`; after one more rotation step it has turned by that step, modulo 4. */
  lemma TileRotationAfterAddAndRotate(d: Dict<TileEntry>, name: string, position: Vec3, rotation: Option<int>, orientation: Option<string>)
    requires Get(d, name).Some?
    ensures var id := Get(d, name).value.count;
            var added := TableAdd(Some(d), name, position, rotation, orientation).value;
            && GetTileRotation(name, id, added) == Ok(rotation.GetOr(0))
            && TableRotate(Some(added), name, id, 1).Ok?
            && GetTileRotation(name, id, TableRotate(Some(added), name, id, 1).value) == Ok(Rem4(rotation.GetOr(0) + 1))
  {
    var id := Get(d, name).value.count;
    TableAddEffect(d, name, position, rotation, orientation, name);
    var added := TableAdd(Some(d), name, position, rotation, orientation).value;
    var entry := Get(added, name).value;
    var r := RotateSlot(entry, id, 1).value;
    GetPut(added, name, r, name);
  }

  /** `getTilePosition`: the translation of instance `instanceId`; an unknown type is a TypeError. */
  function TilePositionOf(name: string, instanceId: nat, instancedMeshes: Dict<TileEntry>): (r: Result<Vec3>)
    ensures r.Ok? <==> Get(instancedMeshes, name).Some?
    ensures r.Ok? ==> r.value == SlotPosition(Get(instancedMeshes, name).value.mesh, instanceId)
  {
    match Get(instancedMeshes, name)
    case None => Err(TypeError)
    case Some(entry) => Ok(SlotPosition(entry.mesh, instanceId))
  }

  /**
   * The index `getMatrixAt` reads for a string id: JavaScript multiplies it
   * by 16, so a string of decimal digits (the empty string included) stands
   * for its value; any other string gives NaN and no position (None).
   */
  function StringIndex(s: string): (r: Option<nat>)
    ensures AllDigits(s) <==> r.Some?
    ensures IsCanonicalDecimal(s) ==> r == ParseIndex(s)
  {
    if AllDigits(s) then Some(DecimalValue(s)) else None
  }

  /**
   * `getSelectedTilePosition`: splits the selection with `deconstructTileStringId`
   * and reads that instance's translation. A null selection (`null.split`) and an
   * unknown type are TypeErrors; an id that is missing or not a number yields no position.
   */
  function SelectedTilePositionOf(selectedTile: Option<string>, instancedMeshes: Dict<TileEntry>): (r: Result<Option<Vec3>>)
    ensures selectedTile.None? ==> r.Err?
    ensures selectedTile.Some? ==>
              var id := DeconstructTileStringId(selectedTile.value);
              && (r.Ok? <==> Get(instancedMeshes, id.name).Some?)
              && (r.Ok? && id.instanceId.Some? && StringIndex(id.instanceId.value).Some? ==>
                    r.value == Some(TilePositionOf(id.name, StringIndex(id.instanceId.value).value, instancedMeshes).value))
              && (r.Ok? && (id.instanceId.None? || StringIndex(id.instanceId.value).None?) ==> r.value.None?)
  {
    match selectedTile
    case None => Err(TypeError)
    case Some(s) =>
      var id := DeconstructTileStringId(s);
      match Get(instancedMeshes, id.name)
      case None => Err(TypeError)
      case Some(entry) =>
        var index := if id.instanceId.Some? then StringIndex(id.instanceId.value) else None;
        if index.None? then Ok(None) else Ok(Some(SlotPosition(entry.mesh, index.value)))
  }

  /** The selection string `${name}-${instanceId}` leads back to the selected instance's position. */
  lemma SelectedTileRoundTrip(name: string, instanceId: nat, instancedMeshes: Dict<TileEntry>)
    requires '-' !in name && Get(instancedMeshes, name).Some?
    ensures SelectedTilePositionOf(Some(name + "-" + NatToString(instanceId)), instancedMeshes)
            == Ok(Some(SlotPosition(Get(instancedMeshes, name).value.mesh, instanceId)))
  {
    var s := NatToString(instanceId);
    assert '-' !in s by {
      assert forall i | 0 <= i < |s| :: IsDigit(s[i]);
    }
    DeconstructTileStringIdRoundTrip(name, s);
    ParseIndexOfNatToString(instanceId);
  }

  /** A three.js `Vector3`: a mutable object. */
  class Vector3 {
    var x: real
    var y: real
    var z: real

    constructor ()
      ensures x == 0.0 && y == 0.0 && z == 0.0
    {
      x, y, z := 0.0, 0.0, 0.0;
    }

    function Value(): Vec3
      reads this
    {
      Vec3(x, y, z)
    }
  }

  /** The module-level scratch vector `vec` that `getTilePosition` writes and returns. */
  class TileActionsModule {
    const vec: Vector3

    constructor ()
      ensures fresh(vec)
    {
      vec := new Vector3();
    }

    /** `getTilePosition`: overwrites the shared `vec` with the instance's translation and returns that same object. */
    method GetTilePosition(name: string, instanceId: nat, instancedMeshes: Dict<TileEntry>) returns (r: Result<Vector3>)
      modifies vec
      ensures TilePositionOf(name, instanceId, instancedMeshes).Err? ==> r.Err? && unchanged(vec)
      ensures TilePositionOf(name, instanceId, instancedMeshes).Ok? ==>
                r == Ok(vec) && vec.Value() == TilePositionOf(name, instanceId, instancedMeshes).value
    {
      var e := Get(instancedMeshes, name);
      if e.None? {
        return Err(TypeError);
      }
      var p := SlotPosition(e.value.mesh, instanceId);
      vec.x, vec.y, vec.z := p.x, p.y, p.z;
      r := Ok(vec);
    }

    /**
     * `getSelectedTilePosition`: delegates to `getTilePosition`. The result is
     * the shared `vec`; None stands for the NaN position three.js computes
     * from an id that is not a number.
     */
    method GetSelectedTilePosition(selectedTile: Option<string>, instancedMeshes: Dict<TileEntry>)
      returns (r: Result<Option<Vector3>>)
      modifies vec
      ensures SelectedTilePositionOf(selectedTile, instancedMeshes).Err? ==> r.Err? && unchanged(vec)
      ensures SelectedTilePositionOf(selectedTile, instancedMeshes) == Ok(None) ==> r == Ok(None)
      ensures SelectedTilePositionOf(selectedTile, instancedMeshes).Ok? && SelectedTilePositionOf(selectedTile, instancedMeshes).value.Some? ==>
                r == Ok(Some(vec)) && vec.Value() == SelectedTilePositionOf(selectedTile, instancedMeshes).value.value
    {
      if selectedTile.None? {
        return Err(TypeError);
      }
      var id := DeconstructTileStringId(selectedTile.value);
      if Get(instancedMeshes, id.name).None? {
        return Err(TypeError);
      }
      var index := if id.instanceId.Some? then StringIndex(id.instanceId.value) else None;
      if index.None? {
        return Ok(None);
      }
      var p := GetTilePosition(id.name, index.value, instancedMeshes);
      r := Ok(Some(p.value));
    }
  }

  /** The rollover highlight: its position and the red, green and blue channels of its material colour. */
  class RollOverMesh {
    var position: Vec3
    var colorR: real
    var colorG: real
    var colorB: real

    constructor (position: Vec3, r: real, g: real, b: real)
      ensures this.position == position && colorR == r && colorG == g && colorB == b
    {
      this.position, colorR, colorG, colorB := position, r, g, b;
    }
  }

  /** `hideRollOver`: parks the rollover below the board, at (0, -2, 0). */
  method HideRollOver(rollOverMesh: RollOverMesh)
    modifies rollOverMesh
    ensures rollOverMesh.position == Vec3(0.0, -2.0, 0.0)
    ensures rollOverMesh.colorR == old(rollOverMesh.colorR) && rollOverMesh.colorG == old(rollOverMesh.colorG)
            && rollOverMesh.colorB == old(rollOverMesh.colorB)
  {
    rollOverMesh.position := Vec3(0.0, -2.0, 0.0);
  }

  /** `setRolloverIsValid`: blue for a valid placement, red for an invalid one; green and the position are kept. */
  method SetRolloverIsValid(rollOverMesh: RollOverMesh, isValid: bool)
    modifies rollOverMesh
    ensures isValid ==> rollOverMesh.colorR == 0.0 && rollOverMesh.colorB == 1.0
    ensures !isValid ==> rollOverMesh.colorR == 1.0 && rollOverMesh.colorB == 0.0
    ensures rollOverMesh.colorG == old(rollOverMesh.colorG) && rollOverMesh.position == old(rollOverMesh.position)
  {
    rollOverMesh.colorR := if isValid then 0.0 else 1.0;
    rollOverMesh.colorB := if isValid then 1.0 else 0.0;
  }
}
