/**
 * The position-based serialisers of mapHelpers.js: the same walk over the
 * tile tables and actor registries as the service's serialisers, emitting
 * world positions instead of recovered board coordinates.
 */
module MapHelpers {
  import opened Wrappers
  import opened Geometry
  import opened Objects
  import opened Slots
  import opened ThreeMapService

  /** One record of `generateTilesJson`: type, position, rotation. */
  datatype TilePositionJson = TilePositionJson(tileType: string, position: Vec3, rotation: int)

  /** One record of `generateCharactersJson`: type, position, rotation, current action. */
  datatype CharacterPositionJson = CharacterPositionJson(modelType: string, position: Vec3, rotation: int, defaultAction: Option<string>)

  function TilePositionRecord(r: SlotRef): TilePositionJson
    requires RefLive(r)
  {
    TilePositionJson(r.name, SlotPosition(r.entry.mesh, r.id), r.entry.mesh.userData[r.id].rotation)
  }

  function TilePositionRecords(refs: seq<SlotRef>): (t: seq<TilePositionJson>)
    requires forall i | 0 <= i < |refs| :: RefLive(refs[i])
    ensures |t| == |refs| && forall i | 0 <= i < |refs| :: t[i] == TilePositionRecord(refs[i])
  {
    seq(|refs|, i requires 0 <= i < |refs| => TilePositionRecord(refs[i]))
  }

  lemma TilePositionRecordsAppend(a: seq<SlotRef>, b: seq<SlotRef>)
    requires forall i | 0 <= i < |a| :: RefLive(a[i])
    requires forall i | 0 <= i < |b| :: RefLive(b[i])
    ensures TilePositionRecords(a + b) == TilePositionRecords(a) + TilePositionRecords(b)
  {
  }

  /** The inner loop: one type's live slots by ascending index. */
  method EntryTilePositions(name: string, entry: TileEntry) returns (tiles: seq<TilePositionJson>)
    ensures forall i | 0 <= i < |LiveIds(entry)| :: RefLive(SlotRef(name, entry, LiveIds(entry)[i]))
    ensures tiles == TilePositionRecords(RefsOf(name, entry, LiveIds(entry)))
  {
    var b := ComputeKeyBound(entry);
    tiles := [];
    var i := 0;
    while i < b
      invariant 0 <= i <= b
      invariant tiles == TilePositionRecords(RefsOf(name, entry, LiveIdsBelow(entry, i)))
    {
      ghost var ids := LiveIdsBelow(entry, i);
      if i in entry.mesh.userData && entry.mesh.userData[i].present {
        assert RefsOf(name, entry, ids + [i]) == RefsOf(name, entry, ids) + [SlotRef(name, entry, i)];
        TilePositionRecordsAppend(RefsOf(name, entry, ids), [SlotRef(name, entry, i)]);
        tiles := tiles + [TilePositionRecord(SlotRef(name, entry, i))];
      }
      i := i + 1;
    }
    LiveIdsAnyBound(entry, b);
  }

  /** `generateTilesJson(instancedMeshes)`: one record per live slot, in type-key then index order. */
  method GenerateTilesJson(instancedMeshes: Dict<TileEntry>) returns (tiles: seq<TilePositionJson>)
    ensures tiles == TilePositionRecords(LiveRefs(instancedMeshes))
  {
    var d := instancedMeshes;
    tiles := [];
    var j := 0;
    while j < |d|
      invariant 0 <= j <= |d|
      invariant tiles == TilePositionRecords(LiveRefs(d[..j]))
    {
      var more := EntryTilePositions(d[j].key, d[j].value);
      assert d[..j + 1][..j] == d[..j];
      TilePositionRecordsAppend(LiveRefs(d[..j]), RefsOf(d[j].key, d[j].value, LiveIds(d[j].value)));
      tiles := tiles + more;
      j := j + 1;
    }
    assert d[..|d|] == d;
  }

  /** A slot gets a record iff it is live; the record carries the slot's type, position and rotation. */
  lemma TilePositionsExactly(d: Dict<TileEntry>, r: SlotRef)
    requires RefLive(r) && Entry(r.name, r.entry) in d
    ensures TilePositionJson(r.name, SlotPosition(r.entry.mesh, r.id), r.entry.mesh.userData[r.id].rotation)
            in TilePositionRecords(LiveRefs(d))
  {
    LiveRefsExactly(d, r);
    var refs := LiveRefs(d);
    var i :| 0 <= i < |refs| && refs[i] == r;
    assert TilePositionRecords(refs)[i] == TilePositionRecord(r);
  }

  /** A tombstoned slot gets no record: every record is the record of some live slot of the table. */
  lemma TilePositionsOnlyLive(d: Dict<TileEntry>, t: TilePositionJson)
    requires t in TilePositionRecords(LiveRefs(d))
    ensures exists r | r in LiveRefs(d) :: RefLive(r) && Entry(r.name, r.entry) in d && t == TilePositionRecord(r)
  {
    var refs := LiveRefs(d);
    var i :| 0 <= i < |refs| && TilePositionRecords(refs)[i] == t;
    LiveRefsExactly(d, refs[i]);
  }

  /**
   * The two tile serialisers agree: the same records in the same order, the
   * service's coordinates being the anchor recovered from this one's position.
   */
  lemma TileSerialisersAgree(d: Dict<TileEntry>)
    ensures var s := TilesJson(Some(d), true).value;
            var p := TilePositionRecords(LiveRefs(d));
            |s| == |p| == |LiveRefs(d)|
            && forall i | 0 <= i < |p| ::
                 var r := LiveRefs(d)[i];
                 s[i] == TileJson(p[i].tileType,
                                  AnchorCoordsFromTilePosition(Position(p[i].position.x, p[i].position.z),
                                                               EffectiveSize(r.entry.size, r.entry.mesh.userData[r.id].orientation)),
                                  p[i].rotation, r.entry.mesh.userData[r.id].orientation)
  {
  }

  function CharacterPositionRecord(modelType: string, g: Group): CharacterPositionJson {
    CharacterPositionJson(modelType, g.position, g.rotation, g.currentAction)
  }

  function GroupPositionRecords(modelType: string, groups: Dict<Group>): (t: seq<CharacterPositionJson>)
    ensures |t| == |groups|
    ensures forall i | 0 <= i < |groups| :: t[i] == CharacterPositionRecord(modelType, groups[i].value)
  {
    seq(|groups|, i requires 0 <= i < |groups| => CharacterPositionRecord(modelType, groups[i].value))
  }

  /** Every actor of every type, in type-key then insertion order. */
  function CharacterPositionRecords(ci: Dict<CharacterType>): seq<CharacterPositionJson> {
    if |ci| == 0 then []
    else
      var last := ci[|ci| - 1];
      CharacterPositionRecords(ci[..|ci| - 1]) + GroupPositionRecords(last.key, last.value.groups)
  }

  /** `generateCharactersJson(characterInstances)`: one record per stored group. */
  method GenerateCharactersJson(characterInstances: Dict<CharacterType>) returns (characters: seq<CharacterPositionJson>)
    ensures characters == CharacterPositionRecords(characterInstances)
  {
    var ci := characterInstances;
    characters := [];
    var j := 0;
    while j < |ci|
      invariant 0 <= j <= |ci|
      invariant characters == CharacterPositionRecords(ci[..j])
    {
      var modelType, groups := ci[j].key, ci[j].value.groups;
      ghost var before := characters;
      var i := 0;
      while i < |groups|
        invariant 0 <= i <= |groups|
        invariant characters == before + GroupPositionRecords(modelType, groups[..i])
      {
        characters := characters + [CharacterPositionRecord(modelType, groups[i].value)];
        i := i + 1;
      }
      assert groups[..|groups|] == groups;
      assert ci[..j + 1][..j] == ci[..j];
      j := j + 1;
    }
    assert ci[..|ci|] == ci;
  }

  /** One record per actor, whatever its state. */
  lemma {:induction false} CharacterPositionRecordsCount(ci: Dict<CharacterType>)
    ensures |CharacterPositionRecords(ci)| == ActorCount(ci)
    decreases |ci|
  {
    if |ci| > 0 {
      CharacterPositionRecordsCount(ci[..|ci| - 1]);
    }
  }

  /** The two actor serialisers agree record by record, up to recovering the anchor from the position. */
  lemma {:induction false} CharacterSerialisersAgree(ci: Dict<CharacterType>)
    ensures |CharacterRecords(ci)| == |CharacterPositionRecords(ci)|
    ensures forall i | 0 <= i < |CharacterRecords(ci)| ::
              CharacterRecords(ci)[i].modelType == CharacterPositionRecords(ci)[i].modelType
              && CharacterRecords(ci)[i].rotation == CharacterPositionRecords(ci)[i].rotation
              && CharacterRecords(ci)[i].defaultAction == CharacterPositionRecords(ci)[i].defaultAction
    decreases |ci|
  {
    if |ci| > 0 {
      CharacterSerialisersAgree(ci[..|ci| - 1]);
    }
  }
}
