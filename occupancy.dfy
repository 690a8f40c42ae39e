/**
 * The occupancy state of a board as a value: every cell's fields
 * (Cell.js) keyed by its board coordinates, and what placing and
 * vacating a footprint (Board.js `setBoardTile`, `unsetBoardTile`) and the
 * placement query (`canPlaceTile`) mean on that value. The `Board` class
 * is proved to follow these functions.
 */
module Occupancy {
  import opened Wrappers
  import opened Geometry

  /** The fields of one Cell: `isAnchor` and `anchorRef` are None while they are `null`. */
  datatype CellState = CellState(
    q: int,
    s: int,
    walkable: bool,
    hasTile: bool,
    isAnchor: Option<bool>,
    anchorRef: Option<Coords>)

  /** `new Cell(q, s, walkable, hasTile)`. */
  function NewCell(q: int, s: int, walkable: bool, hasTile: bool): CellState {
    CellState(q, s, walkable, hasTile, None, None)
  }

  /** `setHasTile(anchorRef)`: a null reference makes the cell an anchor and keeps its old reference. */
  function Marked(cell: CellState, anchorRef: Option<Coords>): CellState {
    cell.(hasTile := true,
          isAnchor := Some(anchorRef.None?),
          anchorRef := if anchorRef.Some? then anchorRef else cell.anchorRef)
  }

  /** `unsetHasTile()`. */
  function Cleared(cell: CellState): CellState {
    cell.(hasTile := false, anchorRef := None, isAnchor := None)
  }

  /** A free cell in the state a fresh cell or a vacated cell has. */
  predicate IsFree(cell: CellState) {
    !cell.hasTile && cell.isAnchor.None? && cell.anchorRef.None?
  }

  /** `setHasTile` marks the cell; it becomes an anchor exactly when no reference is given, and then keeps its old reference. */
  lemma MarkedCell(cell: CellState, anchorRef: Option<Coords>)
    ensures var m := Marked(cell, anchorRef);
      && m.hasTile && m.q == cell.q && m.s == cell.s && m.walkable == cell.walkable
      && (m.isAnchor == Some(true) <==> anchorRef.None?)
      && (anchorRef.Some? ==> m.anchorRef == anchorRef)
      && (anchorRef.None? ==> m.anchorRef == cell.anchorRef)
  {
  }

  /** Clearing a cell just marked from the free state gives back that free cell. */
  lemma ClearedUndoesMarked(cell: CellState, anchorRef: Option<Coords>)
    requires IsFree(cell)
    ensures Cleared(Marked(cell, anchorRef)) == cell
  {
  }

  type Grid = map<Coords, CellState>

  /** `c` lies in the `size.qLength` by `size.sLength` rectangle whose corner is `anchor`. */
  predicate InFootprint(c: Coords, anchor: Coords, size: Size) {
    anchor.q <= c.q < anchor.q + size.qLength && anchor.s <= c.s < anchor.s + size.sLength
  }

  /** The reference `setBoardTile` hands each covered cell: null for the anchor itself. */
  function AnchorRefFor(c: Coords, anchor: Coords): Option<Coords> {
    if c == anchor then None else Some(anchor)
  }

  function GetCell(g: Grid, c: Coords): Option<CellState> {
    if c in g then Some(g[c]) else None
  }

  /** `canPlaceTile`: every cell of the footprint exists and is free of tiles. */
  ghost predicate CanPlace(g: Grid, anchor: Coords, size: Size) {
    forall c :: InFootprint(c, anchor, size) ==> c in g && !g[c].hasTile
  }

  /** `setBoardTile`: every covered cell is marked, with a reference to the anchor unless it is the anchor. */
  function Occupy(g: Grid, anchor: Coords, size: Size): (r: Grid)
    ensures r.Keys == g.Keys
  {
    map c | c in g :: if InFootprint(c, anchor, size) then Marked(g[c], AnchorRefFor(c, anchor)) else g[c]
  }

  /** `unsetBoardTile`: every covered cell is cleared. */
  function Vacate(g: Grid, anchor: Coords, size: Size): (r: Grid)
    ensures r.Keys == g.Keys
  {
    map c | c in g :: if InFootprint(c, anchor, size) then Cleared(g[c]) else g[c]
  }

  predicate IsAnchorAt(g: Grid, a: Coords) {
    a in g && g[a].hasTile && g[a].isAnchor == Some(true)
  }

  /**
   * The cell invariant: a cell stores its own coordinates; a free cell has
   * no anchor fields; an occupied cell is either an anchor or refers to a
   * live anchor cell.
   */
  predicate CellConsistent(g: Grid, c: Coords)
    requires c in g
  {
    var cell := g[c];
    && cell.q == c.q && cell.s == c.s
    && (!cell.hasTile ==> cell.isAnchor.None? && cell.anchorRef.None?)
    && (cell.hasTile ==>
          (cell.isAnchor == Some(true) && cell.anchorRef.None?) ||
          (cell.isAnchor == Some(false) && cell.anchorRef.Some? && IsAnchorAt(g, cell.anchorRef.value)))
  }

  predicate Consistent(g: Grid) {
    forall c | c in g :: CellConsistent(g, c)
  }

  /**
   * `getAnchorCell`: the cell itself when it is an anchor, otherwise the
   * cell its reference names (possibly undefined). Reading a field of a
   * missing cell or of a null reference throws.
   */
  function GetAnchorCell(g: Grid, c: Coords): (r: Result<Option<CellState>>)
    ensures c !in g ==> r == Err(TypeError)
    ensures Consistent(g) && c in g && g[c].hasTile ==>
              r.Ok? && r.value.Some? && r.value.value.hasTile && r.value.value.isAnchor == Some(true)
  {
    match GetCell(g, c)
    case None => Err(TypeError)
    case Some(cell) =>
      if cell.isAnchor == Some(true) then Ok(Some(cell))
      else if cell.anchorRef.None? then Err(TypeError)
      else Ok(GetCell(g, cell.anchorRef.value))
  }

  /** The cells after a checked placement: one anchor, the others referring to it, the rest untouched. */
  lemma OccupyFootprint(g: Grid, anchor: Coords, size: Size)
    requires Consistent(g) && CanPlace(g, anchor, size)
    ensures var r := Occupy(g, anchor, size);
      && (forall c | InFootprint(c, anchor, size) :: c in r && r[c].hasTile && r[c].q == g[c].q
            && r[c].s == g[c].s && r[c].walkable == g[c].walkable)
      && (InFootprint(anchor, anchor, size) ==> r[anchor].isAnchor == Some(true) && r[anchor].anchorRef.None?)
      && (forall c | InFootprint(c, anchor, size) && c != anchor ::
            r[c].isAnchor == Some(false) && r[c].anchorRef == Some(anchor))
      && (forall c | c in g && !InFootprint(c, anchor, size) :: r[c] == g[c])
  {
  }

  /** A checked placement keeps the cell invariant. */
  lemma OccupyConsistent(g: Grid, anchor: Coords, size: Size)
    requires Consistent(g) && CanPlace(g, anchor, size)
    ensures Consistent(Occupy(g, anchor, size))
  {
    var r := Occupy(g, anchor, size);
    forall c | c in r
      ensures CellConsistent(r, c)
    {
      assert CellConsistent(g, c);
      if !InFootprint(c, anchor, size) && g[c].hasTile && g[c].isAnchor == Some(false) {
        var a := g[c].anchorRef.value;
        assert IsAnchorAt(g, a);
        assert !InFootprint(a, anchor, size);
      }
    }
  }

  /** After a checked placement every covered cell resolves to the anchor cell. */
  lemma OccupiedResolvesToAnchor(g: Grid, anchor: Coords, size: Size, c: Coords)
    requires Consistent(g) && CanPlace(g, anchor, size) && InFootprint(c, anchor, size)
    ensures var r := Occupy(g, anchor, size);
            anchor in r && GetAnchorCell(r, c) == Ok(Some(r[anchor]))
  {
    assert InFootprint(anchor, anchor, size);
    assert CellConsistent(g, anchor);
  }

  /** After a placement no footprint that shares a cell with it can be placed. */
  lemma OccupiedBlocksOverlap(g: Grid, anchor: Coords, size: Size, other: Coords, otherSize: Size, c: Coords)
    requires CanPlace(g, anchor, size)
    requires InFootprint(c, anchor, size) && InFootprint(c, other, otherSize)
    ensures !CanPlace(Occupy(g, anchor, size), other, otherSize)
  {
    assert Occupy(g, anchor, size)[c].hasTile;
  }

  ghost predicate Disjoint(a: Coords, sa: Size, b: Coords, sb: Size) {
    forall c :: !(InFootprint(c, a, sa) && InFootprint(c, b, sb))
  }

  /** A placement does not affect whether a disjoint footprint can be placed. */
  lemma OccupyKeepsDisjointPlacement(g: Grid, anchor: Coords, size: Size, other: Coords, otherSize: Size)
    requires Disjoint(anchor, size, other, otherSize)
    ensures CanPlace(Occupy(g, anchor, size), other, otherSize) == CanPlace(g, other, otherSize)
  {
    var r := Occupy(g, anchor, size);
    if CanPlace(g, other, otherSize) {
      forall c | InFootprint(c, other, otherSize)
        ensures c in r && !r[c].hasTile
      {
        assert !InFootprint(c, anchor, size);
      }
    } else {
      var c :| InFootprint(c, other, otherSize) && !(c in g && !g[c].hasTile);
      assert !InFootprint(c, anchor, size);
    }
  }

  /** `unsetBoardTile` clears every covered cell and leaves the others alone. */
  lemma VacateFootprint(g: Grid, anchor: Coords, size: Size)
    ensures var r := Vacate(g, anchor, size);
      && (forall c | c in g && InFootprint(c, anchor, size) :: IsFree(r[c])
            && r[c].q == g[c].q && r[c].s == g[c].s && r[c].walkable == g[c].walkable)
      && (forall c | c in g && !InFootprint(c, anchor, size) :: r[c] == g[c])
  {
  }

  /** Vacating the footprint just placed restores the board exactly. */
  lemma VacateUndoesOccupy(g: Grid, anchor: Coords, size: Size)
    requires Consistent(g) && CanPlace(g, anchor, size)
    ensures Vacate(Occupy(g, anchor, size), anchor, size) == g
  {
    var r := Vacate(Occupy(g, anchor, size), anchor, size);
    forall c | c in g
      ensures r[c] == g[c]
    {
      assert CellConsistent(g, c);
    }
  }

  /** ... so the same footprint can be placed again. */
  lemma PlaceVacatePlaceAgain(g: Grid, anchor: Coords, size: Size)
    requires Consistent(g) && CanPlace(g, anchor, size)
    ensures CanPlace(Vacate(Occupy(g, anchor, size), anchor, size), anchor, size)
  {
    VacateUndoesOccupy(g, anchor, size);
  }

  /** What `setBoardTile` (Place) and `unsetBoardTile` (Clear) do to one covered cell. */
  datatype Op = Place | Clear

  function Apply(op: Op, anchor: Coords, c: Coords, cell: CellState): CellState {
    match op
    case Place => Marked(cell, AnchorRefFor(c, anchor))
    case Clear => Cleared(cell)
  }

  /** The covered cells the row-by-row loops have reached before row `sc`, column `qc`. */
  predicate Visited(c: Coords, anchor: Coords, size: Size, sc: int, qc: int) {
    InFootprint(c, anchor, size) && (c.s < sc || (c.s == sc && c.q < qc))
  }

  /** A cell part-way through the loops: updated once the loops have passed it. */
  function Progress(op: Op, anchor: Coords, size: Size, sc: int, qc: int, c: Coords, cell: CellState): CellState {
    if Visited(c, anchor, size, sc, qc) then Apply(op, anchor, c, cell) else cell
  }

  /** The end of one row is the start of the next. */
  lemma ProgressRowEnd(op: Op, anchor: Coords, size: Size, sc: int, qEnd: int, sNext: int)
    requires qEnd == anchor.q + size.qLength && sNext == sc + 1
    ensures forall c, cell :: Progress(op, anchor, size, sc, qEnd, c, cell) == Progress(op, anchor, size, sNext, anchor.q, c, cell)
  {
  }

  /** Past the last row every covered cell is updated. */
  lemma ProgressEnd(op: Op, g: Grid, anchor: Coords, size: Size, sc: int)
    requires size.sLength == 0 || anchor.s + size.sLength <= sc
    ensures forall c | c in g :: Progress(op, anchor, size, sc, anchor.q, c, g[c]) == match op
      case Place => Occupy(g, anchor, size)[c]
      case Clear => Vacate(g, anchor, size)[c]
  {
  }

  /** A board of fresh cells satisfies the invariant and every footprint inside it can be placed. */
  lemma FreshGridConsistent(g: Grid, anchor: Coords, size: Size)
    requires forall c | c in g :: g[c] == NewCell(c.q, c.s, g[c].walkable, false)
    requires forall c | InFootprint(c, anchor, size) :: c in g
    ensures Consistent(g)
    ensures CanPlace(g, anchor, size)
  {
  }
}
