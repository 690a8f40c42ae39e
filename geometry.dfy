/**
 * Board coordinates and world positions (Board.js, the position helpers).
 * Grid coordinates are integers; world positions are exact reals, so the
 * half-cell offsets of footprint centres are represented without rounding.
 */
module Geometry {

  /** Board coordinates `{q, s}`: q runs like x, s like z. */
  datatype Coords = Coords(q: int, s: int)

  /** How many cells a footprint covers along each axis: `{qLength, sLength}`. */
  datatype Size = Size(qLength: nat, sLength: nat)

  /** A THREE.Vector3. */
  datatype Vec3 = Vec3(x: real, y: real, z: real)

  /** The horizontal part `{x, z}` of a world position. */
  datatype Position = Position(x: real, z: real)

  /** Board coordinates recovered from a world position: numbers that need not be integers. */
  datatype RealCoords = RealCoords(q: real, s: real)

  function ToReal(c: Coords): RealCoords {
    RealCoords(c.q as real, c.s as real)
  }

  /** `pointToCoords`: floors the two horizontal axes. */
  function PointToCoords(point: Vec3): (c: Coords)
    ensures c.q as real <= point.x < c.q as real + 1.0
    ensures c.s as real <= point.z < c.s as real + 1.0
  {
    Coords(point.x.Floor, point.z.Floor)
  }

  /** Flooring a point that already lies on grid coordinates gives those coordinates back. */
  lemma PointToCoordsOfGridPoint(c: Coords, y: real)
    ensures PointToCoords(Vec3(c.q as real, y, c.s as real)) == c
  {
  }

  /** `getTilePositionFromBoardCoords`: the centre of the footprint whose corner is `(qPos, sPos)`. */
  function TilePositionFromBoardCoords(qPos: int, sPos: int, tileSize: Size): (p: Position)
    ensures 2.0 * p.x == (qPos + (qPos + tileSize.qLength)) as real
    ensures 2.0 * p.z == (sPos + (sPos + tileSize.sLength)) as real
  {
    Position(qPos as real + tileSize.qLength as real / 2.0, sPos as real + tileSize.sLength as real / 2.0)
  }

  /** `getCharacterPositionFromBoardCoords`: the same centre rule for actors. */
  function CharacterPositionFromBoardCoords(qPos: int, sPos: int, tileSize: Size): (p: Position)
    ensures 2.0 * p.x == (qPos + (qPos + tileSize.qLength)) as real
    ensures 2.0 * p.z == (sPos + (sPos + tileSize.sLength)) as real
  {
    Position(qPos as real + tileSize.qLength as real / 2.0, sPos as real + tileSize.sLength as real / 2.0)
  }

  /** `getAnchorCoordsFromTilePosition`: the corner of the footprint centred at `pos`. */
  function AnchorCoordsFromTilePosition(pos: Position, tileSize: Size): (c: RealCoords)
    ensures 2.0 * pos.x == c.q + (c.q + tileSize.qLength as real)
    ensures 2.0 * pos.z == c.s + (c.s + tileSize.sLength as real)
  {
    RealCoords(pos.x - tileSize.qLength as real / 2.0, pos.z - tileSize.sLength as real / 2.0)
  }

  /** `getAnchorCoordsFromCharacterPosition`: the same inverse for actors. */
  function AnchorCoordsFromCharacterPosition(pos: Position, characterSize: Size): (c: RealCoords)
    ensures 2.0 * pos.x == c.q + (c.q + characterSize.qLength as real)
    ensures 2.0 * pos.z == c.s + (c.s + characterSize.sLength as real)
  {
    RealCoords(pos.x - characterSize.qLength as real / 2.0, pos.z - characterSize.sLength as real / 2.0)
  }

  predicate IsIntegral(c: RealCoords) {
    c.q == c.q.Floor as real && c.s == c.s.Floor as real
  }

  function Floored(c: RealCoords): Coords {
    Coords(c.q.Floor, c.s.Floor)
  }

  /** Anchor to position and back is the identity. */
  lemma TileAnchorRoundTrip(qPos: int, sPos: int, tileSize: Size)
    ensures AnchorCoordsFromTilePosition(TilePositionFromBoardCoords(qPos, sPos, tileSize), tileSize)
            == ToReal(Coords(qPos, sPos))
  {
  }

  /** Position to anchor and back is the identity whenever the recovered anchor lies on the grid. */
  lemma TilePositionRoundTrip(pos: Position, tileSize: Size)
    requires IsIntegral(AnchorCoordsFromTilePosition(pos, tileSize))
    ensures var a := Floored(AnchorCoordsFromTilePosition(pos, tileSize));
            TilePositionFromBoardCoords(a.q, a.s, tileSize) == pos
  {
  }

  lemma CharacterAnchorRoundTrip(qPos: int, sPos: int, characterSize: Size)
    ensures AnchorCoordsFromCharacterPosition(CharacterPositionFromBoardCoords(qPos, sPos, characterSize), characterSize)
            == ToReal(Coords(qPos, sPos))
  {
  }

  lemma CharacterPositionRoundTrip(pos: Position, characterSize: Size)
    requires IsIntegral(AnchorCoordsFromCharacterPosition(pos, characterSize))
    ensures var a := Floored(AnchorCoordsFromCharacterPosition(pos, characterSize));
            CharacterPositionFromBoardCoords(a.q, a.s, characterSize) == pos
  {
  }
}
