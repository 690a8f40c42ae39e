/**
 * The per-type instance-slot tables behind the instanced tile meshes
 * (threeMapService.js addInstance/rotateInstance/deleteInstance and the
 * threeMap store module). Each tile type owns a counter and a table of
 * slots keyed by instance index; a slot is written once at the current
 * counter, rotated in quarter turns, and deleted by tombstoning it, so an
 * index is never handed out twice.
 *
 * The instance matrix of a slot is represented by its translation only:
 * rotating multiplies the matrix on the right by a rotation and deleting
 * by a zero scale, and neither changes the translation column.
 */
module Slots {
  import opened Wrappers
  import opened Geometry
  import opened Js
  import opened Helpers
  import opened Objects

  /** One `mesh.userData[i]`: `{exists, isActive, rotation, orientation}`; `isAnimating` is set by the tweens. */
  datatype Slot = Slot(present: bool, isActive: bool, rotation: int, orientation: Option<string>, isAnimating: bool)

  /** An instanced mesh: its drawn `count`, its `userData` slots and the translation of each instance matrix. */
  datatype Mesh = Mesh(count: nat, userData: map<nat, Slot>, matrices: map<nat, Vec3>)

  /** One `tileInstancedMeshes[name]`: `{count, size, mesh}`. */
  datatype TileEntry = TileEntry(count: nat, size: Size, mesh: Mesh)

  const Origin: Vec3 := Vec3(0.0, 0.0, 0.0)

  /** The translation of instance `id` (`getMatrixAt` + `setFromMatrixPosition`); an instance never written holds the identity. */
  function SlotPosition(mesh: Mesh, id: nat): Vec3 {
    if id in mesh.matrices then mesh.matrices[id] else Origin
  }

  /** The footprint a slot occupies: the type's size, transposed unless the orientation is exactly `'default'`. */
  function EffectiveSize(size: Size, orientation: Option<string>): Size {
    if orientation == Some("default") then size else TransformSize(size)
  }

  /** The table invariant: every slot index is below the type's counter. */
  predicate Wf(entry: TileEntry) {
    forall k | k in entry.mesh.userData :: k < entry.count
  }

  predicate IsLive(entry: TileEntry, id: nat) {
    id in entry.mesh.userData && entry.mesh.userData[id].present
  }

  /** The slot `addInstance` writes: `{exists: true, isActive: false, rotation: rotation || 0, orientation}`. */
  function NewSlot(rotation: Option<int>, orientation: Option<string>): Slot {
    Slot(true, false, rotation.GetOr(0), orientation, false)
  }

  /** Writing a new instance at index `count` and bumping both counters. */
  function AddSlot(entry: TileEntry, position: Vec3, rotation: Option<int>, orientation: Option<string>): (r: TileEntry)
    ensures r.count == entry.count + 1 && r.mesh.count == entry.mesh.count + 1 && r.size == entry.size
    ensures r.mesh.userData.Keys == entry.mesh.userData.Keys + {entry.count}
    ensures r.mesh.userData[entry.count] == NewSlot(rotation, orientation)
    ensures SlotPosition(r.mesh, entry.count) == position
    ensures forall k | k in entry.mesh.userData && k != entry.count :: r.mesh.userData[k] == entry.mesh.userData[k]
    ensures forall k: nat | k != entry.count :: SlotPosition(r.mesh, k) == SlotPosition(entry.mesh, k)
  {
    var mesh := entry.mesh;
    TileEntry(entry.count + 1, entry.size,
              Mesh(mesh.count + 1, mesh.userData[entry.count := NewSlot(rotation, orientation)],
                   mesh.matrices[entry.count := position]))
  }

  /** The rotation step of `rotateInstance`: two quarter turns for `'half'`, one otherwise. */
  function RotationStep(kind: string): (step: int)
    ensures step == 1 || step == 2
    ensures step == 2 <==> kind == "half"
  {
    if kind == "half" then 2 else 1
  }

  /** `userData[id].rotation = (rotation + step) % 4`; a missing slot is a TypeError. */
  function RotateSlot(entry: TileEntry, id: nat, step: int): (r: Result<TileEntry>)
    ensures r.Ok? <==> id in entry.mesh.userData
    ensures r.Ok? ==> r.value.count == entry.count && r.value.size == entry.size
                      && r.value.mesh.count == entry.mesh.count && r.value.mesh.matrices == entry.mesh.matrices
                      && r.value.mesh.userData.Keys == entry.mesh.userData.Keys
    ensures r.Ok? ==> var old_ := entry.mesh.userData[id]; var new_ := r.value.mesh.userData[id];
                      new_.present == old_.present && new_.isActive == old_.isActive
                      && new_.orientation == old_.orientation && new_.isAnimating == old_.isAnimating
                      && (new_.rotation - (old_.rotation + step)) % 4 == 0
                      && (old_.rotation + step >= 0 ==> 0 <= new_.rotation < 4)
    ensures r.Ok? ==> forall k | k in entry.mesh.userData && k != id :: r.value.mesh.userData[k] == entry.mesh.userData[k]
  {
    if id !in entry.mesh.userData then Err(TypeError)
    else
      var slot := entry.mesh.userData[id];
      var mesh := entry.mesh.(userData := entry.mesh.userData[id := slot.(rotation := Rem4(slot.rotation + step))]);
      Ok(entry.(mesh := mesh))
  }

  /** `userData[id].exists = false`: the slot stays in the table as a tombstone; a missing slot is a TypeError. */
  function DeleteSlot(entry: TileEntry, id: nat): (r: Result<TileEntry>)
    ensures r.Ok? <==> id in entry.mesh.userData
    ensures r.Ok? ==> r.value.count == entry.count && r.value.size == entry.size
                      && r.value.mesh.count == entry.mesh.count && r.value.mesh.matrices == entry.mesh.matrices
                      && r.value.mesh.userData.Keys == entry.mesh.userData.Keys
    ensures r.Ok? ==> !IsLive(r.value, id) && r.value.mesh.userData[id] == entry.mesh.userData[id].(present := false)
    ensures r.Ok? ==> forall k | k in entry.mesh.userData && k != id :: r.value.mesh.userData[k] == entry.mesh.userData[k]
  {
    if id !in entry.mesh.userData then Err(TypeError)
    else
      var slot := entry.mesh.userData[id];
      Ok(entry.(mesh := entry.mesh.(userData := entry.mesh.userData[id := slot.(present := false)])))
  }

  /** Adding keeps the table invariant, and the index it uses was never in use. */
  lemma AddNeverReusesIndex(entry: TileEntry, position: Vec3, rotation: Option<int>, orientation: Option<string>)
    requires Wf(entry)
    ensures entry.count !in entry.mesh.userData
    ensures Wf(AddSlot(entry, position, rotation, orientation))
  {
  }

  /** Rotating and deleting keep the table invariant. */
  lemma RotateDeleteKeepWf(entry: TileEntry, id: nat, step: int)
    requires Wf(entry)
    ensures RotateSlot(entry, id, step).Ok? ==> Wf(RotateSlot(entry, id, step).value)
    ensures DeleteSlot(entry, id).Ok? ==> Wf(DeleteSlot(entry, id).value)
  {
  }

  function Rotated(entry: TileEntry, id: nat, step: int, times: nat): Result<TileEntry>
    decreases times
  {
    if times == 0 then Ok(entry)
    else match RotateSlot(entry, id, step)
      case Err(e) => Err(e)
      case Ok(e') => Rotated(e', id, step, times - 1)
  }

  /** Two rotations of a slot with a non-negative rotation add up. */
  lemma RotateTwice(entry: TileEntry, id: nat, a: nat, b: nat)
    requires id in entry.mesh.userData && 0 <= entry.mesh.userData[id].rotation
    ensures RotateSlot(entry, id, a).Ok?
    ensures RotateSlot(RotateSlot(entry, id, a).value, id, b) == RotateSlot(entry, id, a + b)
  {
    var ud, slot := entry.mesh.userData, entry.mesh.userData[id];
    var x := slot.rotation;
    assert Rem4(Rem4(x + a) + b) == Rem4(x + a + b);
    var e1 := RotateSlot(entry, id, a).value;
    assert e1.mesh.userData == ud[id := slot.(rotation := Rem4(x + a))];
    var e2 := RotateSlot(e1, id, b).value;
    assert e2.mesh.userData == ud[id := slot.(rotation := Rem4(x + a + b))];
  }

  /** Adding four to a rotation in 0..3 gives it back. */
  lemma RotateByFour(entry: TileEntry, id: nat)
    requires id in entry.mesh.userData && 0 <= entry.mesh.userData[id].rotation < 4
    ensures RotateSlot(entry, id, 4) == Ok(entry)
  {
    var slot := entry.mesh.userData[id];
    assert Rem4(slot.rotation + 4) == slot.rotation;
    assert entry.mesh.userData[id := slot] == entry.mesh.userData;
  }

  lemma RotatedStep(entry: TileEntry, id: nat, step: int, n: nat)
    requires id in entry.mesh.userData
    ensures Rotated(entry, id, step, n + 1) == Rotated(RotateSlot(entry, id, step).value, id, step, n)
  {
  }

  /** Four quarter turns bring a slot whose rotation is in 0..3 back to where it was. */
  lemma FourQuarterTurns(entry: TileEntry, id: nat)
    requires id in entry.mesh.userData && 0 <= entry.mesh.userData[id].rotation < 4
    ensures RotationStep("quarter") == 1 && Rotated(entry, id, 1, 4) == Ok(entry)
  {
    RotateByFour(entry, id);
    RotateTwice(entry, id, 1, 1);
    RotateTwice(entry, id, 2, 1);
    RotateTwice(entry, id, 3, 1);
    var e1 := RotateSlot(entry, id, 1).value;
    var e2 := RotateSlot(entry, id, 2).value;
    var e3 := RotateSlot(entry, id, 3).value;
    RotatedStep(entry, id, 1, 3);
    RotatedStep(e1, id, 1, 2);
    RotatedStep(e2, id, 1, 1);
    RotatedStep(e3, id, 1, 0);
  }

  /** Two half turns bring a slot whose rotation is in 0..3 back to where it was. */
  lemma TwoHalfTurns(entry: TileEntry, id: nat)
    requires id in entry.mesh.userData && 0 <= entry.mesh.userData[id].rotation < 4
    ensures Rotated(entry, id, RotationStep("half"), 2) == Ok(entry)
  {
    RotateByFour(entry, id);
    RotateTwice(entry, id, 2, 2);
    var e2 := RotateSlot(entry, id, 2).value;
    assert Rotated(e2, id, 2, 1) == Ok(entry);
  }

  /** Delete never frees an index: after add, delete, add the second instance gets the next index and the first stays a tombstone. */
  lemma TombstoneKeepsIndex(entry: TileEntry, p1: Vec3, p2: Vec3, r1: Option<int>, r2: Option<int>, o: Option<string>)
    requires Wf(entry)
    ensures var e1 := AddSlot(entry, p1, r1, o);
            var e2 := DeleteSlot(e1, entry.count);
            e2.Ok? && var e3 := AddSlot(e2.value, p2, r2, o);
            e3.count == entry.count + 2 && Wf(e3)
            && e3.mesh.userData[entry.count] == NewSlot(r1, o).(present := false)
            && e3.mesh.userData[entry.count + 1] == NewSlot(r2, o)
            && SlotPosition(e3.mesh, entry.count) == p1
  {
  }

  /*
   * Whole tables: `tileInstancedMeshes` / `state.instancedMeshes`, keyed by tile type.
   */

  /** `addInstance` on the tables alone: the type must exist; its table gains a slot. */
  function TableAdd(meshes: Option<Dict<TileEntry>>, name: string, position: Vec3, rotation: Option<int>, orientation: Option<string>)
    : (r: Result<Dict<TileEntry>>)
    ensures r.Ok? <==> meshes.Some? && Get(meshes.value, name).Some?
  {
    if meshes.None? then Err(TypeError)
    else match Get(meshes.value, name)
      case None => Err(TypeError)
      case Some(entry) => Ok(Put(meshes.value, name, AddSlot(entry, position, rotation, orientation)))
  }

  /** `rotateInstance` on the tables: the type and the slot must exist. */
  function TableRotate(meshes: Option<Dict<TileEntry>>, name: string, id: nat, step: int): (r: Result<Dict<TileEntry>>)
    ensures r.Ok? <==> meshes.Some? && Get(meshes.value, name).Some? && id in Get(meshes.value, name).value.mesh.userData
  {
    if meshes.None? then Err(TypeError)
    else match Get(meshes.value, name)
      case None => Err(TypeError)
      case Some(entry) =>
        match RotateSlot(entry, id, step)
        case Err(e) => Err(e)
        case Ok(entry') => Ok(Put(meshes.value, name, entry'))
  }

  /** `deleteInstance` on the tables: the type and the slot must exist; the slot becomes a tombstone. */
  function TableDelete(meshes: Option<Dict<TileEntry>>, name: string, id: nat): (r: Result<Dict<TileEntry>>)
    ensures r.Ok? <==> meshes.Some? && Get(meshes.value, name).Some? && id in Get(meshes.value, name).value.mesh.userData
  {
    if meshes.None? then Err(TypeError)
    else match Get(meshes.value, name)
      case None => Err(TypeError)
      case Some(entry) =>
        match DeleteSlot(entry, id)
        case Err(e) => Err(e)
        case Ok(entry') => Ok(Put(meshes.value, name, entry'))
  }

  /** The footprint a tile of type `name` covers in the given orientation, when that type exists. */
  function FootprintOf(meshes: Option<Dict<TileEntry>>, name: string, orientation: Option<string>): Option<Size> {
    if meshes.None? then None
    else match Get(meshes.value, name)
      case None => None
      case Some(entry) => Some(EffectiveSize(entry.size, orientation))
  }

  /** The stored orientation of slot `id` of type `name`, when that slot exists. */
  function StoredOrientation(meshes: Option<Dict<TileEntry>>, name: string, id: nat): Option<Option<string>> {
    if meshes.None? then None
    else match Get(meshes.value, name)
      case None => None
      case Some(entry) => if id in entry.mesh.userData then Some(entry.mesh.userData[id].orientation) else None
  }

  /** Adding changes only the named type: its counter grows by one, it gains the slot at the old counter, every other type reads the same. */
  lemma TableAddEffect(d: Dict<TileEntry>, name: string, position: Vec3, rotation: Option<int>, orientation: Option<string>, other: string)
    requires Get(d, name).Some?
    ensures var entry := Get(d, name).value;
            var r := TableAdd(Some(d), name, position, rotation, orientation).value;
            && KeysOf(r) == KeysOf(d)
            && Get(r, name).Some? && Get(r, name).value.count == entry.count + 1
            && Get(r, name).value.mesh.userData[entry.count] == NewSlot(rotation, orientation)
            && SlotPosition(Get(r, name).value.mesh, entry.count) == position
            && (other != name ==> Get(r, other) == Get(d, other))
  {
    var entry := Get(d, name).value;
    GetPut(d, name, AddSlot(entry, position, rotation, orientation), name);
    GetPut(d, name, AddSlot(entry, position, rotation, orientation), other);
    PutKeys(d, name, AddSlot(entry, position, rotation, orientation));
  }

  /** Deleting keeps every counter, so a deleted index is never handed out again, and the keys of the table. */
  lemma TableDeleteKeepsCounters(d: Dict<TileEntry>, name: string, id: nat, other: string)
    requires TableDelete(Some(d), name, id).Ok?
    ensures var r := TableDelete(Some(d), name, id).value;
            && KeysOf(r) == KeysOf(d)
            && Get(r, name).Some? && Get(r, name).value.count == Get(d, name).value.count
            && !IsLive(Get(r, name).value, id)
            && (other != name ==> Get(r, other) == Get(d, other))
  {
    var entry' := DeleteSlot(Get(d, name).value, id).value;
    GetPut(d, name, entry', name);
    GetPut(d, name, entry', other);
    PutKeys(d, name, entry');
  }

  /*
   * Enumerating the live slots in the order Object.keys reports integer
   * keys: ascending.
   */

  /** The live instance indices below `b`, ascending. */
  function LiveIdsBelow(entry: TileEntry, b: nat): (ids: seq<nat>)
    ensures forall i | 0 <= i < |ids| :: ids[i] < b && IsLive(entry, ids[i])
    ensures forall i, j | 0 <= i < j < |ids| :: ids[i] < ids[j]
    ensures forall k: nat | k < b && IsLive(entry, k) :: k in ids
  {
    if b == 0 then []
    else LiveIdsBelow(entry, b - 1) + (if IsLive(entry, b - 1) then [b - 1] else [])
  }

  /** A number above every key of a table. */
  ghost function KeyBound(keys: set<nat>): (b: nat)
    ensures forall k | k in keys :: k < b
  {
    if keys == {} then 0
    else
      var k :| k in keys;
      var r := KeyBound(keys - {k});
      assert forall j | j in keys :: j == k || j in keys - {k};
      if k < r then r else k + 1
  }

  /** The live indices of a table, ascending. */
  ghost function LiveIds(entry: TileEntry): seq<nat> {
    LiveIdsBelow(entry, KeyBound(entry.mesh.userData.Keys))
  }

  /** Any bound above every key enumerates the same indices. */
  lemma {:induction false} LiveIdsBelowStable(entry: TileEntry, b1: nat, b2: nat)
    requires forall k | k in entry.mesh.userData :: k < b1
    requires b1 <= b2
    ensures LiveIdsBelow(entry, b2) == LiveIdsBelow(entry, b1)
    decreases b2
  {
    if b2 > b1 {
      LiveIdsBelowStable(entry, b1, b2 - 1);
    }
  }

  lemma LiveIdsAnyBound(entry: TileEntry, b: nat)
    requires forall k | k in entry.mesh.userData :: k < b
    ensures LiveIdsBelow(entry, b) == LiveIds(entry)
  {
    var kb := KeyBound(entry.mesh.userData.Keys);
    if b <= kb { LiveIdsBelowStable(entry, b, kb); } else { LiveIdsBelowStable(entry, kb, b); }
  }

  /** The enumeration lists every live slot once and nothing else. */
  lemma LiveIdsExactly(entry: TileEntry, k: nat)
    ensures k in LiveIds(entry) <==> IsLive(entry, k)
    ensures forall i, j | 0 <= i < j < |LiveIds(entry)| :: LiveIds(entry)[i] != LiveIds(entry)[j]
  {
  }

  /** A key bound for `Object.keys(userData)`. */
  method ComputeKeyBound(entry: TileEntry) returns (b: nat)
    ensures forall k | k in entry.mesh.userData :: k < b
  {
    b := 0;
    var keys := entry.mesh.userData.Keys;
    while keys != {}
      invariant keys <= entry.mesh.userData.Keys
      invariant forall k | k in entry.mesh.userData && k !in keys :: k < b
      decreases |keys|
    {
      var k :| k in keys;
      if b <= k {
        b := k + 1;
      }
      keys := keys - {k};
    }
  }

  /** A live slot of one tile type, as the serialisers visit it. */
  datatype SlotRef = SlotRef(name: string, entry: TileEntry, id: nat)

  predicate RefLive(r: SlotRef) {
    IsLive(r.entry, r.id)
  }

  function RefsOf(name: string, entry: TileEntry, ids: seq<nat>): (refs: seq<SlotRef>)
    ensures |refs| == |ids|
    ensures forall i | 0 <= i < |ids| :: refs[i] == SlotRef(name, entry, ids[i])
  {
    seq(|ids|, i requires 0 <= i < |ids| => SlotRef(name, entry, ids[i]))
  }

  /** Every live slot of every type, in type-key order, then ascending index. */
  ghost function LiveRefs(d: Dict<TileEntry>): (refs: seq<SlotRef>)
    ensures forall i | 0 <= i < |refs| :: RefLive(refs[i])
  {
    if |d| == 0 then []
    else
      var last := d[|d| - 1];
      LiveRefs(d[..|d| - 1]) + RefsOf(last.key, last.value, LiveIds(last.value))
  }

  /** A slot is visited iff it is live and its type is in the table. */
  lemma {:induction false} LiveRefsExactly(d: Dict<TileEntry>, r: SlotRef)
    ensures r in LiveRefs(d) <==> RefLive(r) && Entry(r.name, r.entry) in d
  {
    if |d| > 0 {
      var init, last := d[..|d| - 1], d[|d| - 1];
      assert d == init + [last];
      LiveRefsExactly(init, r);
      LiveIdsExactly(last.value, r.id);
      var tail := RefsOf(last.key, last.value, LiveIds(last.value));
      if r in tail {
        var i :| 0 <= i < |tail| && tail[i] == r;
        assert r.id == LiveIds(last.value)[i];
      }
    }
  }

  /** With distinct type keys, no slot is visited twice. */
  lemma {:induction false} LiveRefsDistinct(d: Dict<TileEntry>)
    requires UniqueKeys(d)
    ensures forall i, j | 0 <= i < j < |LiveRefs(d)| :: LiveRefs(d)[i] != LiveRefs(d)[j]
  {
    if |d| > 0 {
      var init, last := d[..|d| - 1], d[|d| - 1];
      LiveRefsDistinct(init);
      var head := LiveRefs(init);
      var tail := RefsOf(last.key, last.value, LiveIds(last.value));
      LiveIdsExactly(last.value, 0);
      forall i | 0 <= i < |head|
        ensures head[i].name != last.key
      {
        LiveRefsExactly(init, head[i]);
        var j :| 0 <= j < |init| && init[j] == Entry(head[i].name, head[i].entry);
        assert d[j] == init[j];
      }
      assert LiveRefs(d) == head + tail;
    }
  }
}
