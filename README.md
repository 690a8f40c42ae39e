# map-maker core, modelled in Dafny

The map editor keeps placed tiles and actors in step with an occupancy grid. This project models that core:

- **The board.** `Board` and `Cell` form an origin-centred grid of shared cell objects. On this grid the board looks up cells, checks whether a `qLength × sLength` footprint can be placed, marks a footprint with one anchor cell whose neighbours refer back to it, and clears it again. It also converts between a footprint's anchor and its centre position.
- **The slot tables.** Each tile type has an instanced mesh in `tileInstancedMeshes` (and in the `threeMap` store module). The mesh holds a counter that only grows and an append-only table of slots. A slot `{exists, isActive, rotation, orientation}` is written once at the current counter. It is rotated in quarter turns modulo 4 and deleted by tombstoning it, so its index is never reused. Adding a tile occupies its footprint on the board and deleting it vacates that footprint; the footprint is transposed unless the orientation is `'default'`.
- **The actor registries.** In `characterInstances`, each model type has a counter and named groups `${type}-${count}`. No name is ever issued twice.
- **The serialisers.** Both `threeMapService.js` and `mapHelpers.js` turn the tables into saved-map records.
- **The pure helpers.** These are `transformSize`, the `name-id` strings, the tile catalog, and the rollover and toggle rules.
- **The asset queue**, the list stores (`map`, `webglmap`, `item`, `user`), and the router's table and `beforeEach` guard.

Modules follow the source files:

- `Geometry`, `Occupancy`, `Cells`, `Boards`: Board.js, Cell.js
- `Helpers`: helpers.js
- `TileCatalog`: tileModels.js
- `Slots`: the slot tables
- `ThreeMapService`: threeMapService.js
- `MapHelpers`: mapHelpers.js
- `TileActions`: tileActions.js
- `ThreeMapStore`: store/modules/threeMap.js
- `AssetService`: threeAssetService.js
- `Lists`, `MapStore`, `WebglmapStore`, `ItemStore`, `UserStore`: the Vuex list and user modules
- `Router`: router.js

`Js` and `Objects` give the JavaScript semantics the code relies on:

- the truncating `%`;
- `String(n)` for integer keys;
- a plain value type;
- objects as insertion-ordered key/value lists, which is the order `Object.keys` reports for non-integer keys.

Mutable objects are classes: `Cell`, `Board`, the `threeMap` service object, the store states, the asset service, the rollover mesh and the shared `vec`. Each class method is tied to a pure function of the old state, and the properties are proved about those functions. Positions are exact `real`s, so the half-cell offsets of footprint centres round-trip exactly. `userData` slots are a `map<nat, Slot>` enumerated in ascending key order, which is how `Object.keys` orders integer keys.

Three points about the code shape the model:

- The asset service has no single-flight loading. `loadQueuedAssets` reloads every texture, already loaded ones included, and starts a glTF load for every entry.
- Placing an actor never touches the board.
- The store's `addInstance` stores no orientation.

## Model

| member | source | states |
|---|---|---|
| `Js.Rem4` | src/helpers/services/threeMapService.js:289 | JavaScript `% 4`: the result is congruent to the operand, lies strictly between -4 and 4 and takes the operand's sign |
| `Js.ParseIndexOfNatToString` | src/helpers/services/threeMapService.js:266 | the key `count.toString()` reads back as the same index |
| `Js.NatToStringOfParseIndex` | src/helpers/services/threeMapService.js:266 | every canonical integer key is the string of the index it stands for |
| `Objects.GetPut` | src/helpers/services/threeMapService.js:266 | after `d[k] = v`, `d[k]` reads `v` and every other key reads as before |
| `Objects.PutKeys` | src/helpers/services/threeMapService.js:494 | assigning keeps `Object.keys` order: an existing key stays in place, a new one goes last |
| `Objects.GetRemove` | src/helpers/services/threeMapService.js:473 | after `delete d[k]`, `k` is undefined and every other key reads as before |
| `Objects.GetAssign` | src/store/modules/map.js:20 | `Object.assign` overwrites exactly the keys of the source object; other keys keep their values |
| `Objects.PutTwice` | src/helpers/services/threeMapService.js:318 | two assignments to one key leave only the second value |
| `Geometry.PointToCoords` | src/components/threejs/MapRenderer/classes/Board.js:37-40 | the coordinates of the unit cell that contains the point |
| `Geometry.PointToCoordsOfGridPoint` | src/components/threejs/MapRenderer/classes/Board.js:37-40 | a point on grid coordinates floors to those coordinates |
| `Geometry.TilePositionFromBoardCoords` | src/components/threejs/MapRenderer/classes/Board.js:86-89 | the position is the midpoint of the footprint's first and last edges on both axes |
| `Geometry.CharacterPositionFromBoardCoords` | src/components/threejs/MapRenderer/classes/Board.js:94-97 | the same centre rule for actors |
| `Geometry.AnchorCoordsFromTilePosition` | src/components/threejs/MapRenderer/classes/Board.js:102-105 | the recovered corner is the position less half the footprint on both axes |
| `Geometry.AnchorCoordsFromCharacterPosition` | src/components/threejs/MapRenderer/classes/Board.js:110-113 | the same inverse for actors |
| `Geometry.TileAnchorRoundTrip` | src/components/threejs/MapRenderer/classes/Board.js:86-105 | anchor to centre position and back gives the anchor for every size |
| `Geometry.TilePositionRoundTrip` | src/components/threejs/MapRenderer/classes/Board.js:86-105 | position to anchor and back gives the position whenever the anchor is integral |
| `Geometry.CharacterAnchorRoundTrip` | src/components/threejs/MapRenderer/classes/Board.js:94-113 | the actor anchor round trip |
| `Geometry.CharacterPositionRoundTrip` | src/components/threejs/MapRenderer/classes/Board.js:94-113 | the actor position round trip |
| `Helpers.TransformSize` | src/components/threejs/MapRenderer/helpers.js:67-69 | the two lengths are swapped |
| `Helpers.TransformSizeInvolution` | src/components/threejs/MapRenderer/helpers.js:67-69 | transposing twice gives the size back |
| `Helpers.Split` | src/components/threejs/MapRenderer/helpers.js:21 | `split('-')` yields at least one part and no part contains the separator |
| `Helpers.JoinSplit` | src/components/threejs/MapRenderer/helpers.js:21 | joining the parts of a split gives the string back |
| `Helpers.SplitJoin` | src/components/threejs/MapRenderer/helpers.js:21 | splitting separator-free parts joined by the separator gives the parts back |
| `Helpers.FirstTwoParts` | src/components/threejs/MapRenderer/helpers.js:20-34 | the first part and the second, which is present exactly when the string has a `-` |
| `Helpers.DeconstructTileStringId` | src/components/threejs/MapRenderer/helpers.js:20-26 | `name` has no `-`; `instanceId` is defined exactly when the string contains a `-` |
| `Helpers.DeconstructModelStringId` | src/components/threejs/MapRenderer/helpers.js:31-34 | `modelType` has no `-`; `instanceNumber` is defined exactly when the string contains a `-` |
| `Helpers.FirstTwoPartsOfPair` | src/components/threejs/MapRenderer/helpers.js:20-26 | `a-b` splits into `a` and `b` when neither holds a `-` |
| `Helpers.FirstTwoPartsIgnoresRest` | src/components/threejs/MapRenderer/helpers.js:31-34 | parts after the second are ignored |
| `Helpers.DeconstructTileStringIdRoundTrip` | src/components/threejs/MapRenderer/helpers.js:20-26 | `${name}-${id}` gives back `name` and `id` when neither holds a `-` |
| `Helpers.DeconstructModelStringIdIgnoresRest` | src/components/threejs/MapRenderer/helpers.js:31-34 | `type-n` and `type-n-rest` both give `type` and `n` |
| `Helpers.SetPan` | src/components/threejs/MapRenderer/helpers.js:39-44 | both bindings are PAN when enabled and null otherwise |
| `Occupancy.MarkedCell` | src/components/threejs/MapRenderer/classes/Cell.js:14-21 | `setHasTile` marks the cell; it becomes an anchor exactly without a reference; a null reference keeps the old `anchorRef`; q, s, walkable unchanged |
| `Occupancy.ClearedUndoesMarked` | src/components/threejs/MapRenderer/classes/Cell.js:14-27 | clearing a cell just marked from the free state gives the free cell back |
| `Occupancy.GetAnchorCell` | src/components/threejs/MapRenderer/classes/Board.js:70-73 | a missing cell throws; on a consistent board an occupied cell resolves to an occupied anchor cell |
| `Occupancy.OccupyFootprint` | src/components/threejs/MapRenderer/classes/Board.js:162-172 | after a checked placement every covered cell has a tile; only the anchor is an anchor; the others refer to it; cells outside are unchanged |
| `Occupancy.OccupyConsistent` | src/components/threejs/MapRenderer/classes/Board.js:162-172 | a checked placement keeps the cell invariant (free cells have no anchor fields; occupied ones are anchors or refer to a live anchor) |
| `Occupancy.OccupiedResolvesToAnchor` | src/components/threejs/MapRenderer/classes/Board.js:70-73 | after a placement `getAnchorCell` on any covered cell returns the anchor cell |
| `Occupancy.OccupiedBlocksOverlap` | src/components/threejs/MapRenderer/classes/Board.js:190-203 | after a placement no overlapping footprint can be placed |
| `Occupancy.OccupyKeepsDisjointPlacement` | src/components/threejs/MapRenderer/classes/Board.js:190-203 | a placement does not change whether a disjoint footprint can be placed |
| `Occupancy.VacateFootprint` | src/components/threejs/MapRenderer/classes/Board.js:177-185 | `unsetBoardTile` frees every covered cell and changes nothing else |
| `Occupancy.VacateUndoesOccupy` | src/components/threejs/MapRenderer/classes/Board.js:177-185 | vacating the footprint just placed restores the board exactly |
| `Occupancy.PlaceVacatePlaceAgain` | src/components/threejs/MapRenderer/classes/Board.js:177-203 | after placing and vacating, the same footprint can be placed again |
| `Occupancy.FreshGridConsistent` | src/components/threejs/MapRenderer/classes/Board.js:128-146 | a board of fresh cells satisfies the invariant and accepts any footprint inside it |
| `Cells.Cell.constructor` | src/components/threejs/MapRenderer/classes/Cell.js:5-12 | the given q, s, walkable and hasTile, with null anchor fields |
| `Cells.Cell.SetHasTile` | src/components/threejs/MapRenderer/classes/Cell.js:14-21 | the cell's new state is the marked state of its old one |
| `Cells.Cell.UnsetHasTile` | src/components/threejs/MapRenderer/classes/Cell.js:23-27 | the cell is free, with null anchor fields, and keeps q, s, walkable |
| `Boards.Half` | src/components/threejs/MapRenderer/classes/Board.js:130-131 | `Math.ceil(n / 2)`: twice it is n or n + 1 |
| `Boards.IndexAsWritten` | src/components/threejs/MapRenderer/classes/Board.js:54-58 | the index `x + n / 2` of the source, found only when it is an integer inside the array |
| `Boards.Index` | src/components/threejs/MapRenderer/classes/Board.js:133-135 | a coordinate has an index exactly when it lies in `-⌈n/2⌉ .. ⌈n/2⌉ - 1`, and the index inverts the construction loop |
| `Boards.IndexAsWrittenOddMisses` | src/components/threejs/MapRenderer/classes/Board.js:54-58 | on an odd dimension the index as written is never an integer, so nothing is found |
| `Boards.OddBoardLookupExample` | src/components/threejs/MapRenderer/classes/Board.js:65-68 | cell (0, 0) of a 3 by 3 board exists, yet the lookup as written misses it |
| `Boards.IndexAsWrittenEvenAgrees` | src/components/threejs/MapRenderer/classes/Board.js:54-58 | on an even dimension the index as written and the corrected index agree |
| `Boards.Board.constructor` | src/components/threejs/MapRenderer/classes/Board.js:9-18 | the board holds fresh free cells at every coordinate of its range, and its edges are generated from them |
| `Boards.Board.CellsAreFresh` | src/components/threejs/MapRenderer/classes/Board.js:128-146 | the rows that `initializeTiles` builds are the grid of fresh cells |
| `Boards.Board.UpdateEdges` | src/components/threejs/MapRenderer/classes/Board.js:155-157 | the edges are recomputed from the cells |
| `Boards.Board.EdgesMatchCells` | src/components/threejs/MapRenderer/classes/Board.js:151-153 | the edge at a cell's row and column is 1 exactly when that cell is walkable |
| `Boards.Board.GetCellByCoords` | src/components/threejs/MapRenderer/classes/Board.js:65-68 | a cell is found exactly for coordinates on the board, and it is the cell storing those coordinates |
| `Boards.Board.GetAnchorCell` | src/components/threejs/MapRenderer/classes/Board.js:70-73 | agrees with the grid-level `getAnchorCell`: it throws in the same cases and returns the same cell |
| `Boards.Board.GetCellByPoint` | src/components/threejs/MapRenderer/classes/Board.js:78-81 | the cell whose unit square contains the point, or nothing off the board |
| `Boards.Board.CanPlaceTile` | src/components/threejs/MapRenderer/classes/Board.js:190-203 | true exactly when every cell of the footprint exists and has no tile |
| `Boards.Board.SetBoardTile` | src/components/threejs/MapRenderer/classes/Board.js:162-172 | the board's cells become the grid occupied by the footprint |
| `Boards.Board.UnsetBoardTile` | src/components/threejs/MapRenderer/classes/Board.js:177-185 | the board's cells become the grid with the footprint vacated |
| `Boards.GenerateEdges` | src/components/threejs/MapRenderer/classes/Board.js:151-153 | same shape as the rows; each entry is 1 if the cell is walkable, else 0 |
| `Boards.RowEdges` | src/components/threejs/MapRenderer/classes/Board.js:152 | one row of the edge matrix |
| `Boards.InitializeTiles` | src/components/threejs/MapRenderer/classes/Board.js:128-146 | `2⌈s/2⌉` rows of `2⌈q/2⌉` fresh cells; row r, column c holds the cell (c - ⌈q/2⌉, r - ⌈s/2⌉), free and with null anchor fields |
| `TileCatalog.CatalogWellFormed` | src/components/threejs/MapRenderer/tileModels.js:5-51 | every key is its entry's name, every tile covers one cell, every type is basic or gltf |
| `TileCatalog.GetTileModel` | src/components/threejs/MapRenderer/tileModels.js:53-55 | the entry named, or undefined for an unknown name |
| `TileCatalog.GetTileDetails` | src/components/threejs/MapRenderer/tileModels.js:57-64 | the name with the entry's lengths; an unknown name throws |
| `TileCatalog.GetTileType` | src/components/threejs/MapRenderer/tileModels.js:66-68 | the entry's type, or undefined for an unknown name |
| `TileCatalog.GetTileMeshName` | src/components/threejs/MapRenderer/tileModels.js:70-72 | the entry's mesh name; an unknown name throws |
| `TileCatalog.GetTileNormalizationScale` | src/components/threejs/MapRenderer/tileModels.js:74-80 | the entry's scale, or (1, 1, 1) without one |
| `TileCatalog.GetTileNormalizationRotateX` | src/components/threejs/MapRenderer/tileModels.js:82-88 | the entry's angle when it is truthy, else 0 |
| `TileCatalog.SpecialFloorNormalization` | src/components/threejs/MapRenderer/tileModels.js:41-50 | only the special floor has a mesh name, a scale and a rotation; the others get the defaults |
| `Slots.AddSlot` | src/helpers/services/threeMapService.js:261-275 | the new slot sits at the old counter with rotation `rotation \|\| 0`; both counters grow by one; other slots and positions are unchanged |
| `Slots.RotationStep` | src/helpers/services/threeMapService.js:287-289 | two quarter turns exactly for `'half'`, one otherwise |
| `Slots.RotateSlot` | src/helpers/services/threeMapService.js:285-291 | only the rotation of the named slot changes, by the step modulo 4; counters, matrices and other slots are kept; a missing slot throws |
| `Slots.DeleteSlot` | src/helpers/services/threeMapService.js:296-301 | the slot becomes a tombstone; nothing else changes; a missing slot throws |
| `Slots.AddNeverReusesIndex` | src/helpers/services/threeMapService.js:263-275 | the index used is not yet in the table, and the table invariant (every index below the counter) is kept |
| `Slots.RotateDeleteKeepWf` | src/helpers/services/threeMapService.js:285-301 | rotating and deleting keep the table invariant |
| `Slots.RotateTwice` | src/helpers/services/threeMapService.js:289 | two rotations add up |
| `Slots.RotateByFour` | src/helpers/services/threeMapService.js:289 | turning by four leaves a rotation in 0..3 unchanged |
| `Slots.FourQuarterTurns` | src/helpers/services/threeMapService.js:285-291 | four quarter turns restore the slot |
| `Slots.TwoHalfTurns` | src/helpers/services/threeMapService.js:285-291 | two half turns restore the slot |
| `Slots.TombstoneKeepsIndex` | src/helpers/services/threeMapService.js:261-301 | add, delete, add: the second tile gets the next index and the first stays a tombstone at its position |
| `Slots.TableAdd` | src/helpers/services/threeMapService.js:261-275 | succeeds exactly when the tables exist and hold the type |
| `Slots.TableRotate` | src/helpers/services/threeMapService.js:285-291 | succeeds exactly when the type and the slot exist |
| `Slots.TableDelete` | src/helpers/services/threeMapService.js:296-301 | succeeds exactly when the type and the slot exist |
| `Slots.TableAddEffect` | src/helpers/services/threeMapService.js:261-275 | only the named type changes: its counter grows by one, it gains the new slot at its position, the keys keep their order |
| `Slots.TableDeleteKeepsCounters` | src/helpers/services/threeMapService.js:296-301 | the counter and the keys are kept and the slot is no longer live; other types are unchanged |
| `Slots.LiveIdsBelow` | src/helpers/services/threeMapService.js:498-500 | the live slot indices below a bound, strictly ascending, all of them |
| `Slots.LiveIdsExactly` | src/helpers/services/threeMapService.js:498-500 | an index is enumerated exactly when its slot is live, and only once |
| `Slots.ComputeKeyBound` | src/helpers/services/threeMapService.js:498 | a bound above every slot index |
| `Slots.LiveRefs` | src/helpers/services/threeMapService.js:494-500 | every enumerated slot is live |
| `Slots.LiveRefsExactly` | src/helpers/services/threeMapService.js:494-515 | a slot is visited exactly when it is live and its type is in the table |
| `Slots.LiveRefsDistinct` | src/helpers/services/threeMapService.js:494-515 | with distinct type keys no slot is visited twice |
| `ThreeMapService.InitializeModelBase` | src/helpers/services/threeMapService.js:165-172 | the type gets a fresh registry `{count: 0, size, groups: {}}`; other types are unchanged |
| `ThreeMapService.AddModelIssuesFreshName` | src/helpers/services/threeMapService.js:313-384 | the name `${modelKey}-${count}` is not yet in use, and every stored name stays issued below the counter |
| `ThreeMapService.DeleteModelKeepsNames` | src/helpers/services/threeMapService.js:471-476 | deleting an actor keeps the invariant and the counter, so a deleted name is never reissued |
| `ThreeMapService.CharacterGroupIn` | src/helpers/services/threeMapService.js:191-196 | the group is found exactly when the type and the name `${type}-${n}` exist |
| `ThreeMapService.AddedModelIsFound` | src/helpers/services/threeMapService.js:313-384 | an actor just added is found under its issued number with the state it was given |
| `ThreeMapService.RotateModelTurns` | src/helpers/services/threeMapService.js:389-396 | an existing actor turns by one quarter modulo 4 whatever the direction, and stays in 0..3 |
| `ThreeMapService.RotateUnknownModel` | src/helpers/services/threeMapService.js:389-396 | rotating an unknown actor changes nothing |
| `ThreeMapService.SetModelActionEffect` | src/helpers/services/threeMapService.js:423-437 | the current action becomes `action` (null included) for an existing actor; a missing actor throws |
| `ThreeMapService.DeleteModelEffect` | src/helpers/services/threeMapService.js:471-476 | exactly that name leaves its type's registry; the counter and the other actors are kept |
| `ThreeMapService.TileRecords` | src/helpers/services/threeMapService.js:506-513 | one record per visited slot, in order |
| `ThreeMapService.TileRecordRoundTrip` | src/helpers/services/threeMapService.js:501-511 | a slot at the centre of a footprint serialises back to that footprint's anchor |
| `ThreeMapService.AddedTileSerialises` | src/helpers/services/threeMapService.js:261-279 | a tile added at `coords` in an orientation is in the export with those coordinates, its rotation and orientation |
| `ThreeMapService.TilesJsonExactly` | src/helpers/services/threeMapService.js:493-519 | with a board, the export has a record for every live slot and only for live slots |
| `ThreeMapService.TilesJsonAsWrittenFails` | src/helpers/services/threeMapService.js:502 | the export as written throws on every table that has a live slot |
| `ThreeMapService.TilesJsonAsWrittenExample` | src/helpers/services/threeMapService.js:502 | one `first` tile at (0, 0): the export as written throws; the corrected export gives its single record |
| `ThreeMapService.GroupRecords` | src/helpers/services/threeMapService.js:525-538 | one record per group of a type, in insertion order |
| `ThreeMapService.CharacterRecordsCount` | src/helpers/services/threeMapService.js:521-542 | exactly one record per actor |
| `ThreeMapService.AddedModelSerialises` | src/helpers/services/threeMapService.js:529-534 | an actor placed at `coords` serialises back to `coords`, its rotation and its truthy default action |
| `ThreeMapService.EntryTilesJson` | src/helpers/services/threeMapService.js:498-515 | the inner loop emits the records of one type's live slots in ascending index order |
| `ThreeMapService.ThreeMap.constructor` | src/helpers/services/threeMapService.js:25-52 | no board, no `boardGroup`, no tile tables, no actors |
| `ThreeMapService.ThreeMap.SetBoardGroup` | src/helpers/services/threeMapService.js:98-100 | only whether `boardGroup` is set changes |
| `ThreeMapService.ThreeMap.SetBoardClass` | src/helpers/services/threeMapService.js:27 | only the board changes |
| `ThreeMapService.ThreeMap.SetMeshes` | src/helpers/services/threeMapService.js:78-80 | the whole tile table (or null) is replaced; the board and actors are kept |
| `ThreeMapService.ThreeMap.AddInstance` | src/helpers/services/threeMapService.js:261-280 | with no tables or an unknown type it throws and nothing changes; otherwise the tables become `TableAdd` of the old ones, and then either the board is occupied by the footprint (transposed unless `'default'`) or, with no board, it throws after the slot is written |
| `ThreeMapService.ThreeMap.RotateInstance` | src/helpers/services/threeMapService.js:285-291 | the tables become `TableRotate` of the old ones by `RotationStep(type)`; no tables, an unknown type or a missing slot throws and changes nothing; the board and actors are untouched |
| `ThreeMapService.ThreeMap.DeleteInstance` | src/helpers/services/threeMapService.js:296-308 | with no tables or a missing slot it throws and nothing changes; otherwise the tables become `TableDelete` of the old ones, and then either the board is vacated by the footprint of the slot's stored orientation or, with no board, it throws after the tombstone is written |
| `ThreeMapService.ThreeMap.InitializeNewModelBase` | src/helpers/services/threeMapService.js:165-172 | the registries become `InitializeModelBase` of the old ones |
| `ThreeMapService.ThreeMap.GetCharacterGroup` | src/helpers/services/threeMapService.js:191-196 | the registry lookup of `${type}-${n}`: `None` for the source's null (unknown type) and its undefined (unknown actor of a known type) |
| `ThreeMapService.ThreeMap.GetModelActions` | src/helpers/services/threeMapService.js:201-208 | the actor's actions, or null exactly when there is no such actor |
| `ThreeMapService.ThreeMap.GetModelCurrentAction` | src/helpers/services/threeMapService.js:213-220 | the current action when the actor exists and has a truthy one, else `'none'` |
| `ThreeMapService.ThreeMap.AddModelItem` | src/helpers/services/threeMapService.js:313-384 | with a board and a `boardGroup`, the registries become `StoreModel` of the old ones (base created if missing, counter advanced, group stored under the old count); without either it throws after only the counter has moved |
| `ThreeMapService.ThreeMap.RotateModel` | src/helpers/services/threeMapService.js:389-396 | the registries become `RotateModelIn` of the old ones |
| `ThreeMapService.ThreeMap.SetModelAction` | src/helpers/services/threeMapService.js:423-437 | the registries become `SetModelActionIn` of the old ones, or are unchanged when that throws |
| `ThreeMapService.ThreeMap.DeleteModel` | src/helpers/services/threeMapService.js:471-476 | the registries become `DeleteModelIn` of the old ones, or are unchanged when that throws; with a null `boardGroup` it throws after the deletion |
| `ThreeMapService.ThreeMap.GenerateTilesJson` | src/helpers/services/threeMapService.js:493-519 | the result is the corrected export of the current tables: one record per live slot in type-key, then index order |
| `ThreeMapService.ThreeMap.GenerateCharactersJson` | src/helpers/services/threeMapService.js:521-542 | one record per actor in type-key, then insertion order; without a board it throws when there is an actor |
| `ThreeMapService.ThreeMap.ClearMap` | src/helpers/services/threeMapService.js:589-600 | the tile tables and `boardGroup` are null and the registries empty; the board is kept |
| `MapHelpers.TilePositionRecords` | src/components/threejs/MapRenderer/mapHelpers.js:14-21 | one record per visited slot, in order |
| `MapHelpers.EntryTilePositions` | src/components/threejs/MapRenderer/mapHelpers.js:11-23 | the inner loop emits the records of one type's live slots in ascending index order |
| `MapHelpers.GenerateTilesJson` | src/components/threejs/MapRenderer/mapHelpers.js:6-27 | one record per live slot over all types, in type-key then index order |
| `MapHelpers.TilePositionsExactly` | src/components/threejs/MapRenderer/mapHelpers.js:12-21 | every live slot's record (type, position, rotation) is in the output |
| `MapHelpers.TilePositionsOnlyLive` | src/components/threejs/MapRenderer/mapHelpers.js:13 | every record is the record of a live slot of the table |
| `MapHelpers.TileSerialisersAgree` | src/components/threejs/MapRenderer/mapHelpers.js:6-27 | both tile serialisers emit the same records in the same order; the service's coordinates are the anchor recovered from this one's position |
| `MapHelpers.GroupPositionRecords` | src/components/threejs/MapRenderer/mapHelpers.js:36-48 | one record per group of a type, in insertion order |
| `MapHelpers.GenerateCharactersJson` | src/components/threejs/MapRenderer/mapHelpers.js:32-52 | one record per stored group with its position, rotation and current action |
| `MapHelpers.CharacterPositionRecordsCount` | src/components/threejs/MapRenderer/mapHelpers.js:32-52 | exactly one record per actor |
| `MapHelpers.CharacterSerialisersAgree` | src/components/threejs/MapRenderer/mapHelpers.js:32-52 | the two actor serialisers agree record by record on type, rotation and action |
| `TileActions.ToggleTileActiveState` | src/components/threejs/MapRenderer/tileActions.js:16-28 | nothing while animating, otherwise a tween to `!isActive`; a missing slot throws |
| `TileActions.NewTileTogglesOn` | src/components/threejs/MapRenderer/tileActions.js:23-27 | a tile just added toggles on |
| `TileActions.ToggleIgnoresRotateAndDelete` | src/components/threejs/MapRenderer/tileActions.js:16-28 | rotating or deleting a slot does not change the toggle decision |
| `TileActions.GetTileRotation` | src/components/threejs/MapRenderer/tileActions.js:85-87 | the stored rotation; an unknown type or slot throws |
| `TileActions.TileRotationAfterAddAndRotate` | src/components/threejs/MapRenderer/tileActions.js:85-87 | a tile just added reads `rotation \|\| 0`, and one step later that value plus one modulo 4 |
| `TileActions.TilePositionOf` | src/components/threejs/MapRenderer/tileActions.js:76-80 | the translation of that instance; an unknown type throws |
| `TileActions.StringIndex` | src/components/threejs/MapRenderer/tileActions.js:77 | a digits-only id stands for its decimal value, agreeing with the integer-key reading on canonical ids |
| `TileActions.SelectedTilePositionOf` | src/components/threejs/MapRenderer/tileActions.js:89-95 | a null selection and an unknown type throw; otherwise the position of the parsed instance, or none for an id that is not a number |
| `TileActions.SelectedTileRoundTrip` | src/components/threejs/MapRenderer/tileActions.js:89-95 | the selection `${name}-${id}` leads back to that instance's position |
| `TileActions.TileActionsModule.GetTilePosition` | src/components/threejs/MapRenderer/tileActions.js:76-80 | overwrites the shared `vec` with the instance's translation and returns that same object |
| `TileActions.TileActionsModule.GetSelectedTilePosition` | src/components/threejs/MapRenderer/tileActions.js:89-95 | the same result as `SelectedTilePositionOf`, delivered through the shared `vec` |
| `TileActions.HideRollOver` | src/components/threejs/MapRenderer/tileActions.js:97-99 | the rollover moves to (0, -2, 0); its colour is kept |
| `TileActions.SetRolloverIsValid` | src/components/threejs/MapRenderer/tileActions.js:101-104 | blue (r 0, b 1) when valid, red (r 1, b 0) otherwise; green and position kept |
| `ThreeMapStore.SelectionRoundTrip` | src/store/modules/threeMap.js:78-80 | the committed `${name}-${instanceId}` splits back into the name and the id, whose string reads back as the index |
| `ThreeMapStore.SelectionStringInjective` | src/store/modules/threeMap.js:79 | different tiles get different selection strings |
| `ThreeMapStore.ThreeMapState.constructor` | src/store/modules/threeMap.js:14-17 | an empty table object, nothing selected |
| `ThreeMapStore.ThreeMapState.SetMeshes` | src/store/modules/threeMap.js:25-27 | the whole table (or null) is replaced; the selection is kept |
| `ThreeMapStore.ThreeMapState.RotateInstance` | src/store/modules/threeMap.js:28-34 | the table becomes `TableRotate` by one quarter turn; a null table, a missing type or a missing slot throws and changes nothing |
| `ThreeMapStore.ThreeMapState.AddInstance` | src/store/modules/threeMap.js:35-49 | the table becomes `TableAdd` with no orientation; a null table or an unknown type throws and changes nothing |
| `ThreeMapStore.ThreeMapState.DeleteInstance` | src/store/modules/threeMap.js:50-56 | the table becomes `TableDelete`, so no counter moves; a null table, a missing type or a missing slot throws and changes nothing |
| `ThreeMapStore.ThreeMapState.SelectTile` | src/store/modules/threeMap.js:57-59 | the selection is the given string; the table is kept |
| `ThreeMapStore.ThreeMapState.ClearTileSelection` | src/store/modules/threeMap.js:60-62 | the selection is null; the table is kept |
| `ThreeMapStore.ThreeMapState.SelectTileAction` | src/store/modules/threeMap.js:78-80 | the selection is `${name}-${instanceId}`, which splits back into the name and id when the name has no `-` |
| `AssetService.Queued` | src/helpers/services/threeAssetService.js:11-19 | a new name is appended as `{url, name, loaded: false}`; a known name leaves the dictionary unchanged |
| `AssetService.QueueIdempotent` | src/helpers/services/threeAssetService.js:12 | queueing a name again changes nothing, whatever the URL |
| `AssetService.QueuedEntry` | src/helpers/services/threeAssetService.js:11-19 | the name is then present, unloaded if new, and no other name changes |
| `AssetService.LoadAll` | src/helpers/services/threeAssetService.js:22-25 | every texture entry, in order, loaded with the texture of its own URL |
| `AssetService.LoadAllEffect` | src/helpers/services/threeAssetService.js:22-25 | loading keeps the keys and leaves every entry (already loaded ones included) loaded from its URL |
| `AssetService.LoadedValue` | src/helpers/services/threeAssetService.js:54-60 | the value of a queued, loaded entry; nothing otherwise |
| `AssetService.QueueThenLoadTexture` | src/helpers/services/threeAssetService.js:11-25 | nothing before loading; afterwards the texture of the first URL queued |
| `AssetService.ThreeAssets.constructor` | src/helpers/services/threeAssetService.js:7-9 | both dictionaries empty |
| `AssetService.ThreeAssets.QueueAsset` | src/helpers/services/threeAssetService.js:11-19 | `type` picks the dictionary, which becomes `Queued` of the old one; any other type throws |
| `AssetService.ThreeAssets.LoadQueuedAssets` | src/helpers/services/threeAssetService.js:20-52 | the textures become `LoadAll` of the old ones; one glTF load is requested per entry in key order; the glTF dictionary is unchanged |
| `AssetService.ThreeAssets.GltfLoaded` | src/helpers/services/threeAssetService.js:31-50 | the callback stores the glTF in its entry and marks it loaded |
| `AssetService.ThreeAssets.GetLoadedTexture` | src/helpers/services/threeAssetService.js:54-56 | defined exactly for a queued texture that has a value |
| `AssetService.ThreeAssets.GetLoadedGltf` | src/helpers/services/threeAssetService.js:58-60 | defined exactly for a queued glTF that has a value |
| `AssetService.ThreeAssets.GetClonedGltfScene` | src/helpers/services/threeAssetService.js:62-69 | null exactly when the glTF has no value, else a clone of its scene |
| `Lists.Ids` | src/store/modules/map.js:23 | `map(map => map.id)`: the id of each document, in order |
| `Lists.IndexOf` | src/store/modules/map.js:23 | the first position holding the value, or -1 exactly when it is absent |
| `Lists.FindById` | src/store/modules/map.js:9 | the first document with that id, or undefined exactly when there is none |
| `Lists.SpliceStart` | src/store/modules/map.js:24 | `splice`'s start: counted from the end when negative, clamped to the array |
| `Lists.Splice1` | src/store/modules/map.js:24 | removes the element at the normalised start, or nothing past the end |
| `Lists.SpliceInside` | src/store/modules/item.js:13-15 | an index inside the list removes exactly that element; the rest keep their order and the multiset loses only it |
| `Lists.SpliceBeyond` | src/store/modules/item.js:14 | an index at or past the end removes nothing |
| `Lists.DeleteById` | src/store/modules/map.js:22-25 | the first element with that id goes; an absent id removes the last element of a non-empty list |
| `MapStore.MapState.constructor` | src/store/modules/map.js:3-5 | the list is empty |
| `MapStore.MapState.MapById` | src/store/modules/map.js:9 | the first map with that id, or undefined exactly when there is none |
| `MapStore.MapState.SetMapsByUser` | src/store/modules/map.js:13-15 | the list is replaced wholesale |
| `MapStore.MapState.AddMap` | src/store/modules/map.js:16-18 | the map is appended after the others |
| `MapStore.MapState.UpdateMap` | src/store/modules/map.js:19-21 | the document's fields become the old ones with the update assigned in; an undefined target throws; the list is unchanged |
| `MapStore.MapState.DeleteMap` | src/store/modules/map.js:22-25 | the list loses the element at `indexOf` of the id, with `splice` semantics |
| `WebglmapStore.WebglmapState.constructor` | src/store/modules/webglmap.js:3-5 | the list is empty |
| `WebglmapStore.WebglmapState.MapById` | src/store/modules/webglmap.js:9 | the first webgl map with that id, or undefined exactly when there is none |
| `WebglmapStore.WebglmapState.SetWebglmapsByUser` | src/store/modules/webglmap.js:13-15 | the list is replaced wholesale |
| `WebglmapStore.WebglmapState.AddWebglmap` | src/store/modules/webglmap.js:16-18 | the webgl map is appended after the others |
| `WebglmapStore.WebglmapState.UpdateWebglmap` | src/store/modules/webglmap.js:19-21 | the document's fields become the old ones with the update assigned in; an undefined target throws |
| `WebglmapStore.WebglmapState.DeleteWebglmap` | src/store/modules/webglmap.js:22-25 | the list loses the element at `indexOf` of the id, with `splice` semantics |
| `ItemStore.ItemState.constructor` | src/store/modules/item.js:1-3 | the list is empty |
| `ItemStore.ItemState.AddItem` | src/store/modules/item.js:10-12 | the item is appended; the length grows by one |
| `ItemStore.ItemState.DeleteItem` | src/store/modules/item.js:13-15 | `splice(index, 1)`: an index inside removes exactly that item; an index past the end removes nothing |
| `UserStore.UserState.constructor` | src/store/modules/user.js:3-6 | user and profile are null |
| `UserStore.UserState.IsLoggedIn` | src/store/modules/user.js:11 | true exactly when the user is not null |
| `UserStore.UserState.SetUser` | src/store/modules/user.js:15-17 | the `user` getter reads the given user; logged in exactly when it is not null; the profile is kept |
| `UserStore.UserState.LogOut` | src/store/modules/user.js:19-21 | the user is null and not logged in; the profile is kept |
| `UserStore.UserState.SetUserProfile` | src/store/modules/user.js:22-24 | only the profile changes |
| `Router.FirstMatchFrom` | src/router.js:12-92 | the first record from a position on whose path matches, or none when no later one matches |
| `Router.MatchIndexOf` | src/router.js:12-92 | the first matching record; the catch-all guarantees there is one |
| `Router.MatchIndexIs` | src/router.js:12-92 | the matched record is the one that matches with no earlier record matching |
| `Router.Guard` | src/router.js:95-103 | `'sign-in'` exactly for a protected record without a user; else `'dashboard'` exactly for a guest-only record with a user; else proceed |
| `Router.ProtectedRoutes` | src/router.js:12-92 | exactly dashboard, map-add, map-detail, map-editor, webglmap-detail and webglmap-editor require a user; none is guest-only |
| `Router.GuardOnTable` | src/router.js:95-103 | with this table the guard never sends to `'dashboard'`, and sends to `'sign-in'` exactly for a protected page without a user |
| `Router.NotFoundRecord` | src/router.js:83-91 | the redirect target `/404` matches the error page |
| `Router.CatchAllResolvesToNotFound` | src/router.js:88-91 | a path that reaches the catch-all ends on the unprotected error page |
| `Router.UnmatchedIsNotFound` | src/router.js:88-91 | a path no page matches is redirected to the error page and let through |
| `Router.MapAddBeforeMapDetail` | src/router.js:34-50 | `/map/add` opens the add page, not the detail page of a map called "add" |

## Left out

- Rendering is left out: three.js instance matrices, `setMatrixAt`/`getMatrixAt`, `needsUpdate`, the rotation and zero-scale hide matrices, the skydome, grid display, pan restriction, disposal, the selection highlighter, `pointToNormalizedOffset` and `pointToRowCol`. A slot's instance matrix is represented by its translation alone, which rotation and hiding never change.
- Slots.SlotPosition: an instance index that was never written reads as the origin (three.js initialises the buffer to identity matrices). The fixed capacity of the instance buffer is not modelled.
- Animation is left out: mixers, `clipAction`, fades, `triggerModelEmote`, `moveModelForward`/`moveModelBackward`, `getModelMixer`, the random `setTimeout` stagger, and `heroActions.rotateModel`. An actor group keeps only its position, `userData.rotation`, `userData.currentAction` and its action names.
- ThreeMapService.ThreeMap.InitializeNewModelBase, ThreeMapService.ThreeMap.AddModelItem, ThreeMapService.ThreeMap.SetModelAction and AssetService.ThreeAssets.GltfLoaded: these assume that the model helpers they call exist. threeMapService.js:7-12 imports `getModelAnimations`, `getModelSize`, `fadeToAction` and `fadeOutAction`, and threeAssetService.js:5 imports `getModelRotation` and `getModelScale`, from modelHelpers.js, whose lines 1-20 export only `onModelLoad`, `onModelProgress` and `onModelError`. As that file stands the imports are undefined and each call throws: `initializeNewModelBase` at threeMapService.js:166 before storing anything, `addModelItem` at line 166 through line 315 for a new type, otherwise at line 325 when there are clips or line 351, both after the counter has moved, `setModelAction` at lines 429 and 433 whenever the old or the new action is truthy, and the glTF callback at threeAssetService.js:37 before `item.loaded = true`. The model instead takes the helpers' results as parameters (`size`, `animations`) and treats the fades and the glTF normalisation as rendering.
- The tweens `tweenActiveTileToggle` are left out. `ToggleTileActiveState` returns the request it would make.
- The walkability of each cell, random in `initializeTiles`, is a parameter `walkableAt`.
- Floating point is left out: positions and scales are exact reals, `Math.PI / 2` is its double written as a decimal, and numbers have no NaN.
- Boards.Board.SetBoardTile: requires the footprint to lie on the board. Off the board the source throws a TypeError part-way through, after marking some cells.
  - `UnsetBoardTile` does the same.
  - `ThreeMapService.ThreeMap.AddInstance` and `DeleteInstance` carry the same precondition (`AddFits`, `DeleteFits`).
- Geometry.PointToCoords: is a pure function of the point. In the source, `pointToCoords` calls `point.floor()` on the caller's `Vector3` (Board.js:37-40), so after `getCellByPoint(p)` the caller's `p` is floored. `Boards.Board.GetCellByPoint` takes the point as a value and leaves the caller's point as it was; this in-place change is not captured.
- Boards.Board.GetCellByCoords: uses the corrected index `Boards.Index` (`x + ⌈n/2⌉`), and so do `Boards.Board.GetAnchorCell`, `GetCellByPoint`, `CanPlaceTile`, `SetBoardTile` and `UnsetBoardTile`, as described under Findings. They do not follow the code as written on a board with an odd dimension (Board.js:54-73, 162-203):
  - `getCellByCoords` and `getCellByPoint` return undefined for every coordinate;
  - `canPlaceTile` answers false for every non-empty footprint;
  - `getAnchorCell`, `setBoardTile` and `unsetBoardTile` throw a TypeError at the first cell.
  On even dimensions the two indices agree (`Boards.IndexAsWrittenEvenAgrees`).
- ThreeMapService.ThreeMap.DeleteInstance: uses the corrected board index too, as does `ThreeMapService.ThreeMap.AddInstance`. On a board with an odd dimension the source first writes the tables (the tombstone, or the new slot and counters) and then throws in `unsetBoardTile` or `setBoardTile`. The model vacates or occupies the footprint and reports success.
- ThreeMapStore.ThreeMapState.SetMeshes: stores the table as a value, and so does `ThreeMapService.ThreeMap.SetMeshes`. In the source, both `setMeshes` keep the caller's object by reference. When the store and the service are given the same meshes object, the store's `rotateInstance`, `addInstance` and `deleteInstance` change the `userData` that the service's and mapHelpers' `generateTilesJson` later read. Here the two tables are independent values; this sharing and in-place mutation are not captured. A null table can be stored and makes the next table mutation a TypeError.
- ThreeMapService.ThreeMap.GenerateTilesJson: follows the corrected export described under Findings, not the code as written, which always throws once a live slot exists.
- TileActions.StringIndex: only strings of decimal digits are read as numbers. JavaScript's `*` coercion also accepts whitespace, signs, decimals and exponents. The model treats those as not-a-number, so they yield no position.
- AssetService.ThreeAssets.QueueAsset: every type other than `"texture"` and `"gltf"` is a TypeError. In the source, a type that names another property of the object (for example `"queueAsset"`) does not throw; instead it writes onto that property.
- The loaders are left out: `TextureLoader`, `GLTFLoader`, the loading manager, `SkeletonUtils.clone` and the glTF normalisation matrix. A texture is its URL, a glTF is an opaque scene, and a load callback is the separate `GltfLoaded` event, which may never happen.
- TileCatalog.GetTileModel, TileCatalog.GetTileDetails, TileCatalog.GetTileMeshName, TileCatalog.GetTileNormalizationScale, TileCatalog.GetTileNormalizationRotateX, AssetService.Queued, AssetService.ThreeAssets.QueueAsset and ThreeMapService.ThreeMap.GetCharacterGroup: a name inherited from `Object.prototype`, such as `constructor` or `toString`, is read as an absent key. In JavaScript it reads a truthy function, so `getTileDetails('toString')` returns undefined lengths instead of throwing, `queueAsset('texture', 'constructor', url)` queues nothing, and `getCharacterGroup('constructor', n)` throws. No caller passes such a name.
- Objects with integer-like string keys are not modelled, because `Object.keys` would list those first. The only such keys belong to `userData`, which is a map from indices. Nested values of store documents are opaque references compared by identity.
- Lists.SpliceStart: the start is an integer. A fractional `splice` start, which JavaScript truncates, cannot arise from `indexOf` and is not modelled.
- Firebase is left out: authentication, Firestore and every Vuex action that goes through them (map, webglmap, user). `auth.user()` becomes the guard's `currentUser` input. The remaining actions only commit a mutation, and the mutations are modelled.
- The getters that only read a field (`mapsByUser`, `items`, `user`, `userProfile`, `instancedMeshes`, `selectedTile`, `characterInstancesByModelId`) are field reads with no contract beyond the field itself.
- The other setters of the service object (`setScene`, `setControls`, `setGeometries`, `setMaterials`, `setRenderer`, `setCamera`, `setSkydome`, `setSelectionHighlighter`) only store scene objects, which are not modelled. `setBoardGroup` is modelled only as whether the group is set. The same holds for `getObjectByName`, `clearRenderer` and the `window.threeMap` global. `ClearMap` models only the fields that exist here.
- Router: paths are matched by exact `/`-separated segments, with `:id` matching any non-empty segment. vue-router's case-insensitive matching, optional trailing slash, query, hash and percent-decoding are not modelled. A redirect is followed before the guard runs, as vue-router does. The guard then sees the one matched record, because the table has no nested routes.
- Concurrency and the DOM are left out: asynchronous callbacks, event listeners and `setMouse`.

## Findings

| source | as written | input that shows it | evidently intended | confidence | as-written member | corrected member |
|---|---|---|---|---|---|---|
| src/components/threejs/MapRenderer/classes/Board.js:54-58 | `boardCoordsToRowCol` indexes by `s + this.s / 2` and `q + this.q / 2`, while `initializeTiles` lays the rows out from `-Math.ceil(n / 2)` | `new Board(3, 3).getCellByCoords(0, 0)` computes index 1.5 and so returns undefined, although cell (0, 0) exists at row 2, column 2 | index by `x + Math.ceil(n / 2)`, which is the same for even sizes | high for odd sizes; not executed | `Boards.IndexAsWritten` (shown by `Boards.OddBoardLookupExample`, `Boards.IndexAsWrittenOddMisses`) | `Boards.Index` (used by `Boards.Board.GetCellByCoords`; `Boards.IndexAsWrittenEvenAgrees`) |
| src/helpers/services/threeMapService.js:502 | `generateTilesJson` calls `getTileOrientation`, imported at line 13 from tileActions.js, which does not define it | a table holding one live `first` tile at index 0: the call is `undefined(...)`, a TypeError | read the slot's stored `orientation` from `userData[instanceId]` | high: tileActions.js defines no `getTileOrientation`; not executed | `ThreeMapService.TilesJsonAsWritten` (shown by `ThreeMapService.TilesJsonAsWrittenExample`, `ThreeMapService.TilesJsonAsWrittenFails`) | `ThreeMapService.TilesJson` (used by `ThreeMapService.ThreeMap.GenerateTilesJson`; `ThreeMapService.TilesJsonExactly`) |
