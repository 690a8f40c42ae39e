/**
 * The `threeMap` service object (threeMapService.js): the board, the
 * per-type tile tables and the per-type actor registries, the operations
 * that keep them in step, and the two serialisers that turn them into
 * saved-map records.
 *
 * Scene objects (renderer, camera, scene graph, controls, animation
 * mixers) are not part of this model; an actor group is represented by
 * the state kept in its `userData` plus its position and action names.
 */
module ThreeMapService {
  import opened Wrappers
  import opened Geometry
  import opened Js
  import opened Helpers
  import opened Objects
  import opened Occupancy
  import opened Boards
  import opened Slots

  /*
   * Actor registries
   */

  /** One `groups[name]`: the actor's position, `userData.rotation`, `userData.currentAction` and the names of its actions. */
  datatype Group = Group(position: Vec3, rotation: int, currentAction: Option<string>, actions: set<string>)

  /** One `characterInstances[modelKey]`: `{count, size, groups}`. */
  datatype CharacterType = CharacterType(count: nat, size: Size, groups: Dict<Group>)

  /** `${modelKey}-${n}`. */
  function ModelName(modelKey: string, n: nat): string {
    modelKey + "-" + NatToString(n)
  }

  /** `name` is `${modelKey}-${n}` for some `n` below `bound`. */
  predicate IssuedBelow(modelKey: string, name: string, bound: nat) {
    var p := |modelKey| + 1;
    |name| > p && name[..p] == modelKey + "-" && ParseIndex(name[p..]).Some? && ParseIndex(name[p..]).value < bound
  }

  /** The registry invariant: every actor of this type carries a name issued before the current counter. */
  predicate NamesIssued(modelKey: string, ct: CharacterType) {
    forall i | 0 <= i < |ct.groups| :: IssuedBelow(modelKey, ct.groups[i].key, ct.count)
  }

  /** JavaScript truthiness of an optional string: present and non-empty. */
  predicate TruthyString(s: Option<string>) {
    s.Some? && s.value != ""
  }

  /** `initializeNewModelBase`: a fresh registry `{count: 0, size, groups: {}}`. */
  function InitializeModelBase(ci: Dict<CharacterType>, modelKey: string, size: Size): (r: Dict<CharacterType>)
    ensures Get(r, modelKey) == Some(CharacterType(0, size, []))
    ensures forall k | k != modelKey :: Get(r, k) == Get(ci, k)
  {
    GetPut(ci, modelKey, CharacterType(0, size, []), modelKey);
    assert forall k | k != modelKey :: Get(Put(ci, modelKey, CharacterType(0, size, [])), k) == Get(ci, k) by {
      forall k | k != modelKey
        ensures Get(Put(ci, modelKey, CharacterType(0, size, [])), k) == Get(ci, k)
      {
        GetPut(ci, modelKey, CharacterType(0, size, []), k);
      }
    }
    Put(ci, modelKey, CharacterType(0, size, []))
  }

  /** The registry `addModelItem` works on: the existing one, or a fresh one. */
  function EnsureModelBase(ci: Dict<CharacterType>, modelKey: string, size: Size): Dict<CharacterType> {
    if Get(ci, modelKey).Some? then ci else InitializeModelBase(ci, modelKey, size)
  }

  /** The group `addModelItem` stores for an actor placed at `coords`. */
  function NewGroup(coords: Coords, size: Size, animations: seq<string>, defaultAction: Option<string>, rotation: int): Group {
    var p := CharacterPositionFromBoardCoords(coords.q, coords.s, size);
    Group(Vec3(p.x, 0.0, p.z), rotation, if TruthyString(defaultAction) then defaultAction else None,
          set i | 0 <= i < |animations| :: animations[i])
  }

  /** The counter step of `addModelItem`: the name is taken from the counter, which is then incremented. */
  function CountModel(ci: Dict<CharacterType>, modelKey: string, size: Size): Dict<CharacterType> {
    var base := EnsureModelBase(ci, modelKey, size);
    var ct := Get(base, modelKey).GetOr(CharacterType(0, size, []));
    Put(base, modelKey, ct.(count := ct.count + 1))
  }

  /** The rest of `addModelItem`: the group is stored under `${modelKey}-${count}`. */
  function StoreModel(ci: Dict<CharacterType>, modelKey: string, size: Size, coords: Coords, animations: seq<string>,
                      defaultAction: Option<string>, rotation: int): Dict<CharacterType> {
    var base := EnsureModelBase(ci, modelKey, size);
    var ct := Get(base, modelKey).GetOr(CharacterType(0, size, []));
    var name := ModelName(modelKey, ct.count);
    Put(base, modelKey, ct.(count := ct.count + 1,
                             groups := Put(ct.groups, name, NewGroup(coords, size, animations, defaultAction, rotation))))
  }

  /** A fresh name: the name `addModelItem` issues is not in use, and the registry invariant holds afterwards. */
  lemma {:induction false} AddModelIssuesFreshName(modelKey: string, ct: CharacterType, g: Group)
    requires NamesIssued(modelKey, ct)
    ensures !HasKey(ct.groups, ModelName(modelKey, ct.count))
    ensures NamesIssued(modelKey, ct.(count := ct.count + 1, groups := Put(ct.groups, ModelName(modelKey, ct.count), g)))
  {
    var name := ModelName(modelKey, ct.count);
    var p := |modelKey| + 1;
    assert name[..p] == modelKey + "-";
    assert name[p..] == NatToString(ct.count);
    ParseIndexOfNatToString(ct.count);
    assert IssuedBelow(modelKey, name, ct.count + 1);
    var groups' := Put(ct.groups, name, g);
    assert groups' == ct.groups + [Entry(name, g)];
    forall i | 0 <= i < |groups'|
      ensures IssuedBelow(modelKey, groups'[i].key, ct.count + 1)
    {
      if i < |ct.groups| {
        assert groups'[i] == ct.groups[i];
        assert IssuedBelow(modelKey, ct.groups[i].key, ct.count);
      }
    }
  }

  /** `deleteModel` keeps the registry invariant and the counter, so a deleted actor's name is never issued again. */
  lemma DeleteModelKeepsNames(modelKey: string, ct: CharacterType, name: string)
    requires NamesIssued(modelKey, ct)
    ensures NamesIssued(modelKey, ct.(groups := Remove(ct.groups, name)))
  {
    var i := IndexOfKey(ct.groups, name);
    if i >= 0 {
      var groups' := Remove(ct.groups, name);
      assert forall j | 0 <= j < |groups'| :: groups'[j] == if j < i then ct.groups[j] else ct.groups[j + 1];
    }
  }

  /** `rotateModel` on the registries: a quarter turn for an existing actor, nothing otherwise. */
  function RotateModelIn(ci: Dict<CharacterType>, modelType: string, instanceNumber: string): Dict<CharacterType> {
    var name := modelType + "-" + instanceNumber;
    match Get(ci, modelType)
    case None => ci
    case Some(ct) =>
      match Get(ct.groups, name)
      case None => ci
      case Some(g) => Put(ci, modelType, ct.(groups := Put(ct.groups, name, g.(rotation := Rem4(g.rotation + 1)))))
  }

  /** `setModelAction` on the registries: the actor must exist; its current action becomes `action`, null included. */
  function SetModelActionIn(ci: Dict<CharacterType>, modelString: string, action: Option<string>): Result<Dict<CharacterType>> {
    var id := DeconstructModelStringId(modelString);
    var name := id.modelType + "-" + id.instanceNumber.GetOr("undefined");
    match Get(ci, id.modelType)
    case None => Err(TypeError)
    case Some(ct) =>
      match Get(ct.groups, name)
      case None => Err(TypeError)
      case Some(g) => Ok(Put(ci, id.modelType, ct.(groups := Put(ct.groups, name, g.(currentAction := action)))))
  }

  /** `deleteModel` on the registries: the group's type is the part of its name before the first `-`. */
  function DeleteModelIn(ci: Dict<CharacterType>, groupName: string): Result<Dict<CharacterType>> {
    var modelType := DeconstructModelStringId(groupName).modelType;
    match Get(ci, modelType)
    case None => Err(TypeError)
    case Some(ct) => Ok(Put(ci, modelType, ct.(groups := Remove(ct.groups, groupName))))
  }

  /** `getCharacterGroup` on the registries. */
  function CharacterGroupIn(ci: Dict<CharacterType>, modelType: string, instanceNumber: string): (r: Option<Group>)
    ensures r.Some? <==> Get(ci, modelType).Some? && Get(Get(ci, modelType).value.groups, modelType + "-" + instanceNumber).Some?
    ensures r.Some? ==> r == Get(Get(ci, modelType).value.groups, modelType + "-" + instanceNumber)
  {
    match Get(ci, modelType)
    case None => None
    case Some(ct) => Get(ct.groups, modelType + "-" + instanceNumber)
  }

  /** Placed then looked up by its own name, an actor is found with the state `addModelItem` gave it. */
  lemma AddedModelIsFound(ci: Dict<CharacterType>, modelKey: string, size: Size, coords: Coords, animations: seq<string>,
                          defaultAction: Option<string>, rotation: int)
    ensures var base := EnsureModelBase(ci, modelKey, size);
            var n := Get(base, modelKey).value.count;
            CharacterGroupIn(StoreModel(ci, modelKey, size, coords, animations, defaultAction, rotation), modelKey, NatToString(n))
              == Some(NewGroup(coords, size, animations, defaultAction, rotation))
  {
    var base := EnsureModelBase(ci, modelKey, size);
    var ct := Get(base, modelKey).value;
    var name := ModelName(modelKey, ct.count);
    var g := NewGroup(coords, size, animations, defaultAction, rotation);
    var ct' := ct.(count := ct.count + 1, groups := Put(ct.groups, name, g));
    GetPut(base, modelKey, ct', modelKey);
    GetPut(ct.groups, name, g, name);
  }

  /** After a rotation an existing actor's rotation is the next quarter turn, and stays in 0..3 when it started non-negative. */
  lemma RotateModelTurns(ci: Dict<CharacterType>, modelType: string, instanceNumber: string)
    requires CharacterGroupIn(ci, modelType, instanceNumber).Some?
    ensures var g := CharacterGroupIn(ci, modelType, instanceNumber).value;
            var g' := CharacterGroupIn(RotateModelIn(ci, modelType, instanceNumber), modelType, instanceNumber);
            && g' == Some(g.(rotation := Rem4(g.rotation + 1)))
            && (g.rotation >= 0 ==> 0 <= g'.value.rotation < 4)
  {
    var ct := Get(ci, modelType).value;
    var name := modelType + "-" + instanceNumber;
    var g := Get(ct.groups, name).value;
    var g' := g.(rotation := Rem4(g.rotation + 1));
    var groups' := Put(ct.groups, name, g');
    var ci' := Put(ci, modelType, ct.(groups := groups'));
    assert RotateModelIn(ci, modelType, instanceNumber) == ci';
    GetPut(ci, modelType, ct.(groups := groups'), modelType);
    GetPut(ct.groups, name, g', name);
    assert CharacterGroupIn(ci', modelType, instanceNumber) == Get(groups', name) == Some(g');
  }

  /** Rotating an unknown actor changes nothing. */
  lemma RotateUnknownModel(ci: Dict<CharacterType>, modelType: string, instanceNumber: string)
    requires CharacterGroupIn(ci, modelType, instanceNumber).None?
    ensures RotateModelIn(ci, modelType, instanceNumber) == ci
  {
  }

  /** Setting an action on an existing actor makes it the current action (null included); on a missing actor it is a TypeError. */
  lemma SetModelActionEffect(ci: Dict<CharacterType>, modelType: string, instanceNumber: string, action: Option<string>)
    requires '-' !in modelType && '-' !in instanceNumber
    ensures var r := SetModelActionIn(ci, modelType + "-" + instanceNumber, action);
            && (r.Ok? <==> CharacterGroupIn(ci, modelType, instanceNumber).Some?)
            && (r.Ok? ==> (CharacterGroupIn(r.value, modelType, instanceNumber)
                           == Some(CharacterGroupIn(ci, modelType, instanceNumber).value.(currentAction := action))))
  {
    DeconstructModelStringIdIgnoresRest(modelType, instanceNumber, "");
    var name := modelType + "-" + instanceNumber;
    if CharacterGroupIn(ci, modelType, instanceNumber).Some? {
      var ct := Get(ci, modelType).value;
      var g := Get(ct.groups, name).value;
      var groups' := Put(ct.groups, name, g.(currentAction := action));
      GetPut(ci, modelType, ct.(groups := groups'), modelType);
      GetPut(ct.groups, name, g.(currentAction := action), name);
    }
  }

  /** Deleting an actor removes exactly that name from its type's registry and keeps the counter. */
  lemma DeleteModelEffect(ci: Dict<CharacterType>, modelType: string, instanceNumber: string, other: string)
    requires '-' !in modelType && '-' !in instanceNumber
    requires UniqueKeys(Get(ci, modelType).GetOr(CharacterType(0, Size(0, 0), [])).groups)
    ensures var r := DeleteModelIn(ci, modelType + "-" + instanceNumber);
            && (r.Ok? <==> Get(ci, modelType).Some?)
            && (r.Ok? ==> (Get(r.value, modelType).Some?
                           && Get(r.value, modelType).value.count == Get(ci, modelType).value.count
                           && Get(Get(r.value, modelType).value.groups, modelType + "-" + instanceNumber).None?
                           && (other != modelType + "-" + instanceNumber ==>
                                 Get(Get(r.value, modelType).value.groups, other) == Get(Get(ci, modelType).value.groups, other))))
  {
    DeconstructModelStringIdIgnoresRest(modelType, instanceNumber, "");
    var name := modelType + "-" + instanceNumber;
    if Get(ci, modelType).Some? {
      var ct := Get(ci, modelType).value;
      GetPut(ci, modelType, ct.(groups := Remove(ct.groups, name)), modelType);
      GetRemove(ct.groups, name, name);
      GetRemove(ct.groups, name, other);
    }
  }

  /*
   * Saved-map records
   */

  /** One record of `generateTilesJson`. */
  datatype TileJson = TileJson(tileType: string, coords: RealCoords, rotation: int, orientation: Option<string>)

  /** One record of `generateCharactersJson`. */
  datatype CharacterJson = CharacterJson(modelType: string, coords: RealCoords, rotation: int, defaultAction: Option<string>)

  /** The record of one live slot: its anchor recovered from its position with the orientation-adjusted size. */
  function TileRecord(r: SlotRef): TileJson
    requires RefLive(r)
  {
    var slot := r.entry.mesh.userData[r.id];
    var p := SlotPosition(r.entry.mesh, r.id);
    TileJson(r.name, AnchorCoordsFromTilePosition(Position(p.x, p.z), EffectiveSize(r.entry.size, slot.orientation)),
             slot.rotation, slot.orientation)
  }

  function TileRecords(refs: seq<SlotRef>): (t: seq<TileJson>)
    requires forall i | 0 <= i < |refs| :: RefLive(refs[i])
    ensures |t| == |refs| && forall i | 0 <= i < |refs| :: t[i] == TileRecord(refs[i])
  {
    seq(|refs|, i requires 0 <= i < |refs| => TileRecord(refs[i]))
  }

  /**
   * `generateTilesJson`: a null table throws; otherwise one record per live
   * slot, in type-key then index order; recovering coordinates dereferences
   * the board, so a missing board throws as soon as there is a record.
   */
  ghost function TilesJson(meshes: Option<Dict<TileEntry>>, hasBoard: bool): Result<seq<TileJson>> {
    match meshes
    case None => Err(TypeError)
    case Some(d) =>
      var t := TileRecords(LiveRefs(d));
      if !hasBoard && |t| > 0 then Err(TypeError) else Ok(t)
  }

  /**
   * The serialiser as written: `getTileOrientation` is imported from
   * tileActions.js, which does not define it, so the call throws as soon
   * as a live slot is reached.
   */
  ghost function TilesJsonAsWritten(meshes: Option<Dict<TileEntry>>, hasBoard: bool): Result<seq<TileJson>> {
    match meshes
    case None => Err(TypeError)
    case Some(d) => if |LiveRefs(d)| > 0 then Err(TypeError) else Ok([])
  }

  /** A slot placed at the centre of the footprint anchored at `c` serialises back to `c`. */
  lemma TileRecordRoundTrip(r: SlotRef, c: Coords, y: real)
    requires RefLive(r)
    requires var size := EffectiveSize(r.entry.size, r.entry.mesh.userData[r.id].orientation);
             var p := TilePositionFromBoardCoords(c.q, c.s, size);
             SlotPosition(r.entry.mesh, r.id) == Vec3(p.x, y, p.z)
    ensures TileRecord(r).coords == ToReal(c)
  {
    var size := EffectiveSize(r.entry.size, r.entry.mesh.userData[r.id].orientation);
    TileAnchorRoundTrip(c.q, c.s, size);
  }

  /** The tile `addInstance` places at `coords` is serialised with those coordinates, its rotation and its orientation. */
  lemma AddedTileSerialises(d: Dict<TileEntry>, name: string, coords: Coords, y: real, rotation: Option<int>, orientation: string)
    requires Get(d, name).Some?
    ensures var entry := Get(d, name).value;
            var p := TilePositionFromBoardCoords(coords.q, coords.s, EffectiveSize(entry.size, Some(orientation)));
            var d' := TableAdd(Some(d), name, Vec3(p.x, y, p.z), rotation, Some(orientation)).value;
            var r := SlotRef(name, AddSlot(entry, Vec3(p.x, y, p.z), rotation, Some(orientation)), entry.count);
            && r in LiveRefs(d')
            && TileRecord(r) == TileJson(name, ToReal(coords), rotation.GetOr(0), Some(orientation))
  {
    var entry := Get(d, name).value;
    var p := TilePositionFromBoardCoords(coords.q, coords.s, EffectiveSize(entry.size, Some(orientation)));
    var e' := AddSlot(entry, Vec3(p.x, y, p.z), rotation, Some(orientation));
    var r := SlotRef(name, e', entry.count);
    PutHasEntry(d, name, e');
    LiveRefsExactly(Put(d, name, e'), r);
    TileRecordRoundTrip(r, coords, y);
  }

  /** With a board present the corrected serialiser emits a record for exactly the live slots. */
  lemma TilesJsonExactly(d: Dict<TileEntry>, r: SlotRef)
    ensures TilesJson(Some(d), true).Ok?
    ensures RefLive(r) && Entry(r.name, r.entry) in d ==> TileRecord(r) in TilesJson(Some(d), true).value
    ensures forall t | t in TilesJson(Some(d), true).value :: exists i | 0 <= i < |LiveRefs(d)| :: t == TileRecord(LiveRefs(d)[i])
  {
    LiveRefsExactly(d, r);
    if RefLive(r) && Entry(r.name, r.entry) in d {
      var refs := LiveRefs(d);
      var i :| 0 <= i < |refs| && refs[i] == r;
      assert TileRecords(refs)[i] == TileRecord(r);
    }
  }

  /** The as-written serialiser fails on every table with a live slot, where the corrected one succeeds. */
  lemma TilesJsonAsWrittenFails(d: Dict<TileEntry>, r: SlotRef)
    requires RefLive(r) && Entry(r.name, r.entry) in d
    ensures TilesJsonAsWritten(Some(d), true) == Err(TypeError)
    ensures TilesJson(Some(d), true).Ok? && |TilesJson(Some(d), true).value| > 0
  {
    LiveRefsExactly(d, r);
  }

  /** Concretely: one `first` tile at index 0 of an otherwise empty table. */
  lemma TilesJsonAsWrittenExample()
    ensures var slot := NewSlot(None, Some("default"));
            var entry := TileEntry(1, Size(1, 1), Mesh(1, map[0 := slot], map[0 := Vec3(0.5, 0.0, 0.5)]));
            var d := [Entry("first", entry)];
            && TilesJsonAsWritten(Some(d), true) == Err(TypeError)
            && TilesJson(Some(d), true) == Ok([TileJson("first", RealCoords(0.0, 0.0), 0, Some("default"))])
  {
    var slot := NewSlot(None, Some("default"));
    var entry := TileEntry(1, Size(1, 1), Mesh(1, map[0 := slot], map[0 := Vec3(0.5, 0.0, 0.5)]));
    var d := [Entry("first", entry)];
    LiveIdsAnyBound(entry, 1);
    assert LiveIdsBelow(entry, 1) == [0];
    assert d[..0] == [];
    assert LiveRefs(d) == [SlotRef("first", entry, 0)];
    var t := TileRecords(LiveRefs(d));
    assert EffectiveSize(Size(1, 1), Some("default")) == Size(1, 1);
    assert TileRecord(SlotRef("first", entry, 0)) == TileJson("first", RealCoords(0.0, 0.0), 0, Some("default"));
    assert t == [TileJson("first", RealCoords(0.0, 0.0), 0, Some("default"))];
  }

  /** The record of one actor: its anchor recovered from its position with its type's size. */
  function CharacterRecord(modelType: string, ct: CharacterType, g: Group): CharacterJson {
    CharacterJson(modelType, AnchorCoordsFromCharacterPosition(Position(g.position.x, g.position.z), ct.size),
                  g.rotation, g.currentAction)
  }

  function GroupRecords(modelType: string, ct: CharacterType, groups: Dict<Group>): (t: seq<CharacterJson>)
    ensures |t| == |groups|
    ensures forall i | 0 <= i < |groups| :: t[i] == CharacterRecord(modelType, ct, groups[i].value)
  {
    seq(|groups|, i requires 0 <= i < |groups| => CharacterRecord(modelType, ct, groups[i].value))
  }

  /** Every actor of every type, in type-key order then insertion order. */
  function CharacterRecords(ci: Dict<CharacterType>): seq<CharacterJson> {
    if |ci| == 0 then []
    else
      var last := ci[|ci| - 1];
      CharacterRecords(ci[..|ci| - 1]) + GroupRecords(last.key, last.value, last.value.groups)
  }

  /** The number of actors over all types. */
  function ActorCount(ci: Dict<CharacterType>): nat {
    if |ci| == 0 then 0 else ActorCount(ci[..|ci| - 1]) + |ci[|ci| - 1].value.groups|
  }

  /** `generateCharactersJson`: one record per actor; a missing board throws as soon as there is one. */
  function CharactersJson(ci: Dict<CharacterType>, hasBoard: bool): Result<seq<CharacterJson>> {
    var t := CharacterRecords(ci);
    if !hasBoard && |t| > 0 then Err(TypeError) else Ok(t)
  }

  /** Exactly one record per actor. */
  lemma {:induction false} CharacterRecordsCount(ci: Dict<CharacterType>)
    ensures |CharacterRecords(ci)| == ActorCount(ci)
    decreases |ci|
  {
    if |ci| > 0 {
      CharacterRecordsCount(ci[..|ci| - 1]);
    }
  }

  /** An actor placed at `coords` by `addModelItem` serialises back to `coords`, with its rotation and (truthy) default action. */
  lemma AddedModelSerialises(modelType: string, ct: CharacterType, coords: Coords, animations: seq<string>,
                             defaultAction: Option<string>, rotation: int)
    ensures CharacterRecord(modelType, ct, NewGroup(coords, ct.size, animations, defaultAction, rotation))
            == CharacterJson(modelType, ToReal(coords), rotation, if TruthyString(defaultAction) then defaultAction else None)
  {
    CharacterAnchorRoundTrip(coords.q, coords.s, ct.size);
  }

  lemma TileRecordsAppend(a: seq<SlotRef>, b: seq<SlotRef>)
    requires forall i | 0 <= i < |a| :: RefLive(a[i])
    requires forall i | 0 <= i < |b| :: RefLive(b[i])
    ensures TileRecords(a + b) == TileRecords(a) + TileRecords(b)
  {
  }

  /** The inner loop of `generateTilesJson`: the records of one type's live slots, by ascending index. */
  method EntryTilesJson(name: string, entry: TileEntry) returns (tiles: seq<TileJson>)
    ensures forall i | 0 <= i < |LiveIds(entry)| :: RefLive(SlotRef(name, entry, LiveIds(entry)[i]))
    ensures tiles == TileRecords(RefsOf(name, entry, LiveIds(entry)))
  {
    var b := ComputeKeyBound(entry);
    tiles := [];
    var i := 0;
    while i < b
      invariant 0 <= i <= b
      invariant tiles == TileRecords(RefsOf(name, entry, LiveIdsBelow(entry, i)))
    {
      ghost var ids := LiveIdsBelow(entry, i);
      if i in entry.mesh.userData && entry.mesh.userData[i].present {
        assert RefsOf(name, entry, ids + [i]) == RefsOf(name, entry, ids) + [SlotRef(name, entry, i)];
        TileRecordsAppend(RefsOf(name, entry, ids), [SlotRef(name, entry, i)]);
        tiles := tiles + [TileRecord(SlotRef(name, entry, i))];
      }
      i := i + 1;
    }
    LiveIdsAnyBound(entry, b);
  }

  /*
   * The service object
   */

  class ThreeMap {
    var boardClass: Board?
    var tileInstancedMeshes: Option<Dict<TileEntry>>
    var characterInstances: Dict<CharacterType>
    /** Whether `boardGroup`, the scene group that holds the actors, is set; the group itself is not modelled. */
    var hasBoardGroup: bool

    /** The cells a board operation may change. */
    ghost function BoardCells(): set<object>
      reads this
    {
      if boardClass == null then {} else boardClass.CellSet()
    }

    ghost predicate BoardValid()
      reads this
    {
      boardClass != null ==> boardClass.Valid()
    }

    /** The initial object: no board, no tile tables, no actors. */
    constructor ()
      ensures boardClass == null && tileInstancedMeshes == None && characterInstances == [] && !hasBoardGroup
    {
      boardClass := null;
      tileInstancedMeshes := None;
      characterInstances := [];
      hasBoardGroup := false;
    }

    /** `setBoardGroup`: the renderer hands over the group the actors are added to (or null). */
    method SetBoardGroup(present: bool)
      modifies this
      ensures hasBoardGroup == present
      ensures boardClass == old(boardClass) && tileInstancedMeshes == old(tileInstancedMeshes)
      ensures characterInstances == old(characterInstances)
    {
      hasBoardGroup := present;
    }

    /** `threeMap.boardClass = board`, done by the renderer when it builds the board. */
    method SetBoardClass(board: Board?)
      modifies this
      ensures hasBoardGroup == old(hasBoardGroup)
      ensures boardClass == board
      ensures tileInstancedMeshes == old(tileInstancedMeshes) && characterInstances == old(characterInstances)
    {
      boardClass := board;
    }

    /** `setMeshes`: replaces the whole tile table. */
    method SetMeshes(meshes: Option<Dict<TileEntry>>)
      modifies this
      ensures hasBoardGroup == old(hasBoardGroup)
      ensures tileInstancedMeshes == meshes
      ensures boardClass == old(boardClass) && characterInstances == old(characterInstances)
    {
      tileInstancedMeshes := meshes;
    }

    /** The footprint of a new tile lies on the board (outside it the source throws halfway through marking). */
    predicate AddFits(name: string, coords: Coords, orientation: string)
      reads this
    {
      var fp := FootprintOf(tileInstancedMeshes, name, Some(orientation));
      boardClass != null && fp.Some? ==> boardClass.FootprintInBoard(coords.q, coords.s, fp.value)
    }

    /** `addInstance`: writes the slot, bumps the counters, then occupies the footprint on the board. */
    method AddInstance(position: Vec3, name: string, rotation: Option<int>, coords: Coords, orientation: string)
      returns (o: Outcome)
      requires BoardValid() && AddFits(name, coords, orientation)
      modifies this, BoardCells()
      ensures hasBoardGroup == old(hasBoardGroup)
      ensures boardClass == old(boardClass) && characterInstances == old(characterInstances)
      ensures TableAdd(old(tileInstancedMeshes), name, position, rotation, Some(orientation)).Err? ==>
                o == Fail(TypeError) && tileInstancedMeshes == old(tileInstancedMeshes)
                && (boardClass != null ==> boardClass.Cells() == old(boardClass.Cells()))
      ensures TableAdd(old(tileInstancedMeshes), name, position, rotation, Some(orientation)).Ok? ==>
                tileInstancedMeshes == Some(TableAdd(old(tileInstancedMeshes), name, position, rotation, Some(orientation)).value)
                && (boardClass == null <==> o == Fail(TypeError))
      ensures TableAdd(old(tileInstancedMeshes), name, position, rotation, Some(orientation)).Ok? && boardClass != null ==>
                o == Pass
                && boardClass.Cells() == Occupy(old(boardClass.Cells()), coords,
                                                FootprintOf(old(tileInstancedMeshes), name, Some(orientation)).value)
    {
      var t := TableAdd(tileInstancedMeshes, name, position, rotation, Some(orientation));
      if t.Err? {
        return Fail(TypeError);
      }
      var size := FootprintOf(tileInstancedMeshes, name, Some(orientation)).value;
      tileInstancedMeshes := Some(t.value);
      if boardClass == null {
        return Fail(TypeError);
      }
      ghost var before := boardClass.Cells();
      assert before == old(boardClass.Cells());
      assert boardClass.FootprintInBoard(coords.q, coords.s, size);
      boardClass.SetBoardTile(coords.q, coords.s, size);
      assert boardClass.Cells() == Occupy(before, coords, size);
      o := Pass;
    }

    /** `rotateInstance`: a quarter turn, or a half turn for `'half'`; occupancy is untouched. */
    method RotateInstance(name: string, instanceId: nat, kind: string) returns (o: Outcome)
      modifies this
      ensures hasBoardGroup == old(hasBoardGroup)
      ensures boardClass == old(boardClass) && characterInstances == old(characterInstances)
      ensures var t := TableRotate(old(tileInstancedMeshes), name, instanceId, RotationStep(kind));
              if t.Err? then o == Fail(TypeError) && tileInstancedMeshes == old(tileInstancedMeshes)
              else o == Pass && tileInstancedMeshes == Some(t.value)
    {
      if tileInstancedMeshes.None? {
        return Fail(TypeError);
      }
      var d := tileInstancedMeshes.value;
      var e := Get(d, name);
      if e.None? {
        return Fail(TypeError);
      }
      var r := RotateSlot(e.value, instanceId, RotationStep(kind));
      if r.Err? {
        return Fail(TypeError);
      }
      tileInstancedMeshes := Some(Put(d, name, r.value));
      o := Pass;
    }

    /** The footprint of a deleted tile lies on the board. */
    predicate DeleteFits(name: string, instanceId: nat, coords: Coords)
      reads this
    {
      var orientation := StoredOrientation(tileInstancedMeshes, name, instanceId);
      boardClass != null && orientation.Some? ==>
        boardClass.FootprintInBoard(coords.q, coords.s, FootprintOf(tileInstancedMeshes, name, orientation.value).value)
    }

    /** `deleteInstance`: tombstones the slot, then vacates the footprint given by the slot's stored orientation. */
    method DeleteInstance(name: string, instanceId: nat, coords: Coords) returns (o: Outcome)
      requires BoardValid() && DeleteFits(name, instanceId, coords)
      modifies this, BoardCells()
      ensures hasBoardGroup == old(hasBoardGroup)
      ensures boardClass == old(boardClass) && characterInstances == old(characterInstances)
      ensures TableDelete(old(tileInstancedMeshes), name, instanceId).Err? ==>
                o == Fail(TypeError) && tileInstancedMeshes == old(tileInstancedMeshes)
                && (boardClass != null ==> boardClass.Cells() == old(boardClass.Cells()))
      ensures TableDelete(old(tileInstancedMeshes), name, instanceId).Ok? ==>
                tileInstancedMeshes == Some(TableDelete(old(tileInstancedMeshes), name, instanceId).value)
                && (boardClass == null <==> o == Fail(TypeError))
      ensures TableDelete(old(tileInstancedMeshes), name, instanceId).Ok? && boardClass != null ==>
                o == Pass
                && boardClass.Cells() == Vacate(old(boardClass.Cells()), coords,
                                                FootprintOf(old(tileInstancedMeshes), name,
                                                            StoredOrientation(old(tileInstancedMeshes), name, instanceId).value).value)
    {
      var t := TableDelete(tileInstancedMeshes, name, instanceId);
      if t.Err? {
        return Fail(TypeError);
      }
      var orientation := StoredOrientation(tileInstancedMeshes, name, instanceId).value;
      var size := FootprintOf(tileInstancedMeshes, name, orientation).value;
      tileInstancedMeshes := Some(t.value);
      if boardClass == null {
        return Fail(TypeError);
      }
      ghost var before := boardClass.Cells();
      assert before == old(boardClass.Cells());
      assert boardClass.FootprintInBoard(coords.q, coords.s, size);
      boardClass.UnsetBoardTile(coords.q, coords.s, size);
      assert boardClass.Cells() == Vacate(before, coords, size);
      o := Pass;
    }

    /** `initializeNewModelBase`, with `getModelSize(modelKey)` passed in. */
    method InitializeNewModelBase(modelKey: string, size: Size)
      modifies this
      ensures hasBoardGroup == old(hasBoardGroup)
      ensures characterInstances == InitializeModelBase(old(characterInstances), modelKey, size)
      ensures boardClass == old(boardClass) && tileInstancedMeshes == old(tileInstancedMeshes)
    {
      characterInstances := InitializeModelBase(characterInstances, modelKey, size);
    }

    /** `getCharacterGroup`: null for an unknown type, undefined for an unknown actor of a known type; both are `None` here. */
    function GetCharacterGroup(modelType: string, instanceNumber: string): (r: Option<Group>)
      reads this
      ensures r == CharacterGroupIn(characterInstances, modelType, instanceNumber)
    {
      match Get(characterInstances, modelType)
      case None => None
      case Some(ct) => Get(ct.groups, modelType + "-" + instanceNumber)
    }

    /** `getModelActions`: an actor's action names, or null when there is no such actor. */
    function GetModelActions(modelType: string, instanceNumber: string): (r: Option<set<string>>)
      reads this
      ensures r.Some? <==> CharacterGroupIn(characterInstances, modelType, instanceNumber).Some?
      ensures r.Some? ==> r.value == CharacterGroupIn(characterInstances, modelType, instanceNumber).value.actions
    {
      match GetCharacterGroup(modelType, instanceNumber)
      case None => None
      case Some(g) => Some(g.actions)
    }

    /** `getModelCurrentAction`: the actor's current action, or `'none'` when it has none or does not exist. */
    function GetModelCurrentAction(modelType: string, instanceNumber: string): (r: string)
      reads this
      ensures var g := CharacterGroupIn(characterInstances, modelType, instanceNumber);
              if g.Some? && TruthyString(g.value.currentAction) then r == g.value.currentAction.value else r == "none"
    {
      var g := GetCharacterGroup(modelType, instanceNumber);
      if g.Some? && TruthyString(g.value.currentAction) then g.value.currentAction.value else "none"
    }

    /**
     * `addModelItem`: creates the type's registry when missing, takes the
     * name from the counter and increments it, then (needing the board for
     * the position, and `boardGroup` to add the group to the scene) stores
     * the group.
     */
    method AddModelItem(modelKey: string, size: Size, animations: seq<string>, defaultAction: Option<string>,
                        coords: Coords, rotation: int) returns (o: Outcome)
      modifies this
      ensures hasBoardGroup == old(hasBoardGroup)
      ensures boardClass == old(boardClass) && tileInstancedMeshes == old(tileInstancedMeshes)
      ensures boardClass == null || !hasBoardGroup ==>
                o == Fail(TypeError) && characterInstances == CountModel(old(characterInstances), modelKey, size)
      ensures boardClass != null && hasBoardGroup ==>
                o == Pass
                && characterInstances == StoreModel(old(characterInstances), modelKey, size, coords, animations, defaultAction, rotation)
    {
      if Get(characterInstances, modelKey).None? {
        InitializeNewModelBase(modelKey, size);
      }
      ghost var base := characterInstances;
      var ct := Get(characterInstances, modelKey).value;
      var count := ct.count;
      characterInstances := Put(characterInstances, modelKey, ct.(count := count + 1));
      if boardClass == null || !hasBoardGroup {
        return Fail(TypeError);
      }
      var name := ModelName(modelKey, count);
      var group := NewGroup(coords, size, animations, defaultAction, rotation);
      characterInstances := Put(characterInstances, modelKey, ct.(count := count + 1, groups := Put(ct.groups, name, group)));
      PutTwice(base, modelKey, ct.(count := count + 1), ct.(count := count + 1, groups := Put(ct.groups, name, group)));
      o := Pass;
    }

    /** `rotateModel`: a quarter turn of an existing actor whatever the direction asked for; nothing for an unknown one. */
    method RotateModel(modelType: string, instanceNumber: string, isClockwise: bool)
      modifies this
      ensures hasBoardGroup == old(hasBoardGroup)
      ensures characterInstances == RotateModelIn(old(characterInstances), modelType, instanceNumber)
      ensures boardClass == old(boardClass) && tileInstancedMeshes == old(tileInstancedMeshes)
    {
      var g := GetCharacterGroup(modelType, instanceNumber);
      if g.Some? {
        var ct := Get(characterInstances, modelType).value;
        var name := modelType + "-" + instanceNumber;
        characterInstances := Put(characterInstances, modelType,
                                  ct.(groups := Put(ct.groups, name, g.value.(rotation := Rem4(g.value.rotation + 1)))));
      }
    }

    /** `setModelAction`: the named actor must exist; its current action becomes `action`. */
    method SetModelAction(modelString: string, action: Option<string>) returns (o: Outcome)
      modifies this
      ensures hasBoardGroup == old(hasBoardGroup)
      ensures boardClass == old(boardClass) && tileInstancedMeshes == old(tileInstancedMeshes)
      ensures var r := SetModelActionIn(old(characterInstances), modelString, action);
              if r.Err? then o == Fail(TypeError) && characterInstances == old(characterInstances)
              else o == Pass && characterInstances == r.value
    {
      var id := DeconstructModelStringId(modelString);
      var instanceNumber := id.instanceNumber.GetOr("undefined");
      var g := GetCharacterGroup(id.modelType, instanceNumber);
      if g.None? {
        return Fail(TypeError);
      }
      var ct := Get(characterInstances, id.modelType).value;
      var name := id.modelType + "-" + instanceNumber;
      characterInstances := Put(characterInstances, id.modelType, ct.(groups := Put(ct.groups, name, g.value.(currentAction := action))));
      o := Pass;
    }

    /**
     * `deleteModel`: removes the group from its type's registry, leaving the
     * counter alone, then removes it from `boardGroup`, which throws when that
     * is null.
     */
    method DeleteModel(groupName: string) returns (o: Outcome)
      modifies this
      ensures hasBoardGroup == old(hasBoardGroup)
      ensures boardClass == old(boardClass) && tileInstancedMeshes == old(tileInstancedMeshes)
      ensures var r := DeleteModelIn(old(characterInstances), groupName);
              if r.Err? then o == Fail(TypeError) && characterInstances == old(characterInstances)
              else o == (if hasBoardGroup then Pass else Fail(TypeError)) && characterInstances == r.value
    {
      var modelType := DeconstructModelStringId(groupName).modelType;
      var ct := Get(characterInstances, modelType);
      if ct.None? {
        return Fail(TypeError);
      }
      characterInstances := Put(characterInstances, modelType, ct.value.(groups := Remove(ct.value.groups, groupName)));
      if !hasBoardGroup {
        return Fail(TypeError);
      }
      o := Pass;
    }

    /** `generateTilesJson`. */
    method GenerateTilesJson() returns (r: Result<seq<TileJson>>)
      ensures r == TilesJson(tileInstancedMeshes, boardClass != null)
    {
      if tileInstancedMeshes.None? {
        return Err(TypeError);
      }
      var d := tileInstancedMeshes.value;
      var tiles: seq<TileJson> := [];
      var j := 0;
      while j < |d|
        invariant 0 <= j <= |d|
        invariant tiles == TileRecords(LiveRefs(d[..j]))
      {
        var more := EntryTilesJson(d[j].key, d[j].value);
        assert d[..j + 1][..j] == d[..j];
        TileRecordsAppend(LiveRefs(d[..j]), RefsOf(d[j].key, d[j].value, LiveIds(d[j].value)));
        tiles := tiles + more;
        j := j + 1;
      }
      assert d[..|d|] == d;
      if boardClass == null && |tiles| > 0 {
        return Err(TypeError);
      }
      return Ok(tiles);
    }

    /** `generateCharactersJson`. */
    method GenerateCharactersJson() returns (r: Result<seq<CharacterJson>>)
      ensures r == CharactersJson(characterInstances, boardClass != null)
    {
      var ci := characterInstances;
      var characters: seq<CharacterJson> := [];
      var j := 0;
      while j < |ci|
        invariant 0 <= j <= |ci|
        invariant characters == CharacterRecords(ci[..j])
      {
        var modelType, ct := ci[j].key, ci[j].value;
        ghost var before := characters;
        var i := 0;
        while i < |ct.groups|
          invariant 0 <= i <= |ct.groups|
          invariant characters == before + GroupRecords(modelType, ct, ct.groups[..i])
        {
          characters := characters + [CharacterRecord(modelType, ct, ct.groups[i].value)];
          i := i + 1;
        }
        assert ct.groups[..|ct.groups|] == ct.groups;
        assert ci[..j + 1][..j] == ci[..j];
        j := j + 1;
      }
      assert ci[..|ci|] == ci;
      if boardClass == null && |characters| > 0 {
        return Err(TypeError);
      }
      return Ok(characters);
    }

    /** `clearMap`: drops the tile tables, the actors and `boardGroup`; the board is kept. */
    method ClearMap()
      modifies this
      ensures tileInstancedMeshes == None && characterInstances == [] && !hasBoardGroup
      ensures boardClass == old(boardClass)
    {
      tileInstancedMeshes := None;
      characterInstances := [];
      hasBoardGroup := false;
    }
  }
}
