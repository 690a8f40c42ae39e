/**
 * The board grid (Board.js): a q by s grid of shared `Cell` objects
 * indexed by row (s) and column (q), centred on the origin, with the
 * walkability matrix `edges` derived from it.
 */
module Boards {
  import opened Wrappers
  import opened Geometry
  import opened Occupancy
  import opened Cells

  /** `Math.ceil(n / 2)`. */
  function Half(n: nat): (h: int)
    ensures 0 <= h && (2 * h == n || 2 * h == n + 1)
  {
    (n + 1) / 2
  }

  /** The board coordinates of one dimension run from `-Half(n)` to `Half(n) - 1`. */
  predicate InRange(n: nat, x: int) {
    -Half(n) <= x < Half(n)
  }

  /** The coordinates `initializeTiles` creates for a `q` by `s` board. */
  predicate InBoard(q: nat, s: nat, c: Coords) {
    InRange(q, c.q) && InRange(s, c.s)
  }

  function Domain(q: nat, s: nat): (d: set<Coords>)
    ensures forall c :: c in d <==> InBoard(q, s, c)
  {
    var d := set i: int, j: int | -Half(q) <= i < Half(q) && -Half(s) <= j < Half(s) :: Coords(i, j);
    assert forall c | InBoard(q, s, c) :: c == Coords(c.q, c.s) && c in d;
    d
  }

  /**
   * The array index of coordinate `x` on a dimension of length `n`, as
   * `boardCoordsToRowCol` computes it: `x + n / 2` in floating point,
   * then used as an index into an array of `len` rows (or of `len` cells).
   * A fractional or out-of-range index finds nothing.
   */
  function IndexAsWritten(n: nat, len: nat, x: int): (r: Option<nat>)
    ensures r.Some? ==> r.value < len && (r.value as real) == (x as real) + (n as real) / 2.0
  {
    var idx := (x as real) + (n as real) / 2.0;
    if idx.Floor as real == idx && 0 <= idx.Floor < len then Some(idx.Floor as nat) else None
  }

  /** The index the lookup needs: `x + Math.ceil(n / 2)`, the inverse of the loop in `initializeTiles`. */
  function Index(n: nat, x: int): (r: Option<nat>)
    ensures r.Some? <==> InRange(n, x)
    ensures r.Some? ==> r.value < 2 * Half(n) && r.value - Half(n) == x
  {
    if InRange(n, x) then Some((x + Half(n)) as nat) else None
  }

  /** On an odd dimension the lookup as written never finds a cell. */
  lemma IndexAsWrittenOddMisses(n: nat, len: nat, x: int)
    requires n % 2 == 1
    ensures IndexAsWritten(n, len, x) == None
  {
    var k := n / 2;
    assert n == 2 * k + 1;
    var idx := (x as real) + (n as real) / 2.0;
    assert idx == ((x + k) as real) + 0.5;
    assert idx.Floor == x + k;
  }

  /** The smallest such board: cell (0, 0) of a 3 by 3 board sits in row 2, column 2, yet the lookup misses it. */
  lemma OddBoardLookupExample()
    ensures Index(3, 0) == Some(2) && InBoard(3, 3, Coords(0, 0))
    ensures IndexAsWritten(3, 4, 0) == None
  {
    IndexAsWrittenOddMisses(3, 4, 0);
  }

  /** On an even dimension the lookup as written and the corrected one agree. */
  lemma IndexAsWrittenEvenAgrees(n: nat, x: int)
    requires n % 2 == 0
    ensures IndexAsWritten(n, 2 * Half(n), x) == Index(n, x)
  {
    var k := n / 2;
    assert Half(n) == k;
    var idx := (x as real) + (n as real) / 2.0;
    assert idx == (x + k) as real;
    assert idx.Floor == x + k;
  }

  class Board {
    const q: nat
    const s: nat
    const tiles: seq<seq<Cell>>
    var edges: seq<seq<int>>

    /** Row `r`, column `c` holds the cell with coordinates `(c - Half(q), r - Half(s))`. */
    ghost predicate Valid() {
      && |tiles| == 2 * Half(s)
      && (forall r | 0 <= r < |tiles| :: |tiles[r]| == 2 * Half(q))
      && (forall r, c | 0 <= r < |tiles| && 0 <= c < |tiles[r]| ::
            tiles[r][c].q == c - Half(q) && tiles[r][c].s == r - Half(s))
    }

    /** Every cell object of the board. */
    ghost function CellSet(): set<Cell> {
      set r, c | 0 <= r < |tiles| && 0 <= c < |tiles[r]| :: tiles[r][c]
    }

    /** The cell at board coordinates `c`. */
    function CellAt(c: Coords): (cell: Cell)
      requires Valid() && InBoard(q, s, c)
      ensures cell in CellSet() && cell.q == c.q && cell.s == c.s
    {
      tiles[c.s + Half(s)][c.q + Half(q)]
    }

    /** The board's cells as a value. */
    ghost function Cells(): (g: Grid)
      requires Valid()
      reads CellSet()
      ensures g.Keys == Domain(q, s)
      ensures forall c | c in g :: g[c] == CellAt(c).State()
    {
      map c | c in Domain(q, s) :: CellAt(c).State()
    }

    /** The board of fresh cells, walkable where `walkableAt` says so. */
    static ghost function FreshCells(q: nat, s: nat, walkableAt: (int, int) -> bool): Grid {
      map c | c in Domain(q, s) :: NewCell(c.q, c.s, walkableAt(c.q, c.s), false)
    }

    /**
     * `new Board(q, s)`: builds the rows with `initializeTiles` and the
     * edges with `generateEdges`. The walkability of each cell, random in
     * the source, is given by `walkableAt`.
     */
    constructor (q: nat, s: nat, walkableAt: (int, int) -> bool)
      ensures Valid() && fresh(CellSet())
      ensures Cells() == FreshCells(q, s, walkableAt)
      ensures edges == GenerateEdges(tiles)
    {
      var t := InitializeTiles(q, s, walkableAt);
      this.q := q;
      this.s := s;
      tiles := t;
      edges := GenerateEdges(t);
      new;
      CellSetIsRowCells();
      CellsAreFresh(walkableAt);
    }

    /** The cell objects are those of the rows. */
    lemma CellSetIsRowCells()
      requires Valid()
      ensures CellSet() == RowCells(tiles)
    {
      forall cell | cell in CellSet()
        ensures cell in RowCells(tiles)
      {
        var r, c :| 0 <= r < |tiles| && 0 <= c < |tiles[r]| && tiles[r][c] == cell;
        assert tiles[r] in tiles && cell in tiles[r];
      }
      forall cell | cell in RowCells(tiles)
        ensures cell in CellSet()
      {
        var row :| row in tiles && cell in row;
        var r :| 0 <= r < |tiles| && tiles[r] == row;
        var c :| 0 <= c < |row| && row[c] == cell;
      }
    }

    /** The rows `initializeTiles` builds give the board of fresh cells. */
    lemma CellsAreFresh(walkableAt: (int, int) -> bool)
      requires Valid()
      requires forall r, c | 0 <= r < |tiles| && 0 <= c < |tiles[r]| ::
                 tiles[r][c].State() == NewCell(c - Half(q), r - Half(s), walkableAt(c - Half(q), r - Half(s)), false)
      ensures Cells() == FreshCells(q, s, walkableAt)
    {
      forall c | InBoard(q, s, c)
        ensures CellAt(c).State() == NewCell(c.q, c.s, walkableAt(c.q, c.s), false)
      {
        var r, col := c.s + Half(s), c.q + Half(q);
        assert tiles[r][col].State() == NewCell(col - Half(q), r - Half(s), walkableAt(col - Half(q), r - Half(s)), false);
      }
      CellsAre(FreshCells(q, s, walkableAt));
    }

    /** `updateEdges`: recomputes the edges from the cells. */
    method UpdateEdges()
      modifies this
      ensures edges == GenerateEdges(tiles)
    {
      edges := GenerateEdges(tiles);
    }

    /** The edge at a cell's row and column is 1 exactly when that cell is walkable. */
    lemma EdgesMatchCells(c: Coords)
      requires Valid() && InBoard(q, s, c)
      ensures GenerateEdges(tiles)[c.s + Half(s)][c.q + Half(q)] == 1 <==> Cells()[c].walkable
    {
    }

    /** `getCellByCoords`: the cell at the coordinates, or nothing outside the board. */
    function GetCellByCoords(qPos: int, sPos: int): (r: Option<Cell>)
      requires Valid()
      ensures r.Some? <==> InBoard(q, s, Coords(qPos, sPos))
      ensures r.Some? ==> r.value in CellSet() && r.value.q == qPos && r.value.s == sPos
    {
      match (Index(s, sPos), Index(q, qPos))
      case (Some(row), Some(col)) => Some(tiles[row][col])
      case _ => None
    }

    /**
     * `getAnchorCell`: the cell when it is an anchor, else the cell its
     * reference names. A missing cell or a missing reference throws.
     */
    function GetAnchorCell(qPos: int, sPos: int): (r: Result<Option<Cell>>)
      requires Valid()
      reads CellSet()
      ensures var spec := Occupancy.GetAnchorCell(Cells(), Coords(qPos, sPos));
        && (r.Err? <==> spec.Err?)
        && (r.Ok? ==> (r.value.Some? <==> spec.value.Some?))
        && (r.Ok? && r.value.Some? ==> r.value.value in CellSet() && spec.value.value == r.value.value.State())
    {
      match GetCellByCoords(qPos, sPos)
      case None => Err(TypeError)
      case Some(cell) =>
        if cell.isAnchor == Some(true) then Ok(Some(cell))
        else if cell.anchorRef.None? then Err(TypeError)
        else Ok(GetCellByCoords(cell.anchorRef.value.q, cell.anchorRef.value.s))
    }

    /** `getCellByPoint`: the cell whose unit square holds the point. */
    function GetCellByPoint(point: Vec3): (r: Option<Cell>)
      requires Valid()
      ensures r.Some? <==> InBoard(q, s, PointToCoords(point))
      ensures r.Some? ==>
                (r.value.q as real <= point.x < r.value.q as real + 1.0
                 && r.value.s as real <= point.z < r.value.s as real + 1.0)
    {
      var c := PointToCoords(point);
      GetCellByCoords(c.q, c.s)
    }

    /** The footprint lies inside the board (an empty footprint always does). */
    predicate FootprintInBoard(qPos: int, sPos: int, size: Size) {
      size.qLength == 0 || size.sLength == 0 ||
      (InBoard(q, s, Coords(qPos, sPos)) && InBoard(q, s, Coords(qPos + size.qLength - 1, sPos + size.sLength - 1)))
    }

    /** `canPlaceTile`: every cell of the footprint exists and has no tile. */
    method CanPlaceTile(qPos: int, sPos: int, tileSize: Size) returns (ok: bool)
      requires Valid()
      ensures ok == CanPlace(Cells(), Coords(qPos, sPos), tileSize)
    {
      ghost var g := Cells();
      var anchor := Coords(qPos, sPos);
      var sc := sPos;
      while sc < sPos + tileSize.sLength
        invariant sPos <= sc <= sPos + tileSize.sLength || tileSize.sLength == 0
        invariant forall c | InFootprint(c, anchor, tileSize) && c.s < sc :: c in g && !g[c].hasTile
      {
        var qc := qPos;
        while qc < qPos + tileSize.qLength
          invariant qPos <= qc <= qPos + tileSize.qLength || tileSize.qLength == 0
          invariant forall c | InFootprint(c, anchor, tileSize) && (c.s < sc || (c.s == sc && c.q < qc)) ::
                      c in g && !g[c].hasTile
        {
          var cell := GetCellByCoords(qc, sc);
          assert InFootprint(Coords(qc, sc), anchor, tileSize);
          if cell.None? || cell.value.hasTile {
            return false;
          }
          assert cell.value == CellAt(Coords(qc, sc));
          qc := qc + 1;
        }
        sc := sc + 1;
      }
      return true;
    }

    /** `cell.setHasTile(ref)` on the cell at `c`: only that cell changes. */
    method MarkCell(c: Coords, ref: Option<Coords>)
      requires Valid() && InBoard(q, s, c)
      modifies CellSet()
      ensures forall d | InBoard(q, s, d) ::
                CellAt(d).State() == if d == c then Marked(old(CellAt(d).State()), ref) else old(CellAt(d).State())
    {
      var cell := CellAt(c);
      cell.SetHasTile(ref);
    }

    /** `cell.unsetHasTile()` on the cell at `c`: only that cell changes. */
    method ClearCell(c: Coords)
      requires Valid() && InBoard(q, s, c)
      modifies CellSet()
      ensures forall d | InBoard(q, s, d) ::
                CellAt(d).State() == if d == c then Cleared(old(CellAt(d).State())) else old(CellAt(d).State())
    {
      var cell := CellAt(c);
      cell.UnsetHasTile();
    }

    /** The board's cells are the grid `m` when every cell's state is `m`'s entry. */
    lemma CellsAre(m: Grid)
      requires Valid() && m.Keys == Domain(q, s)
      requires forall c | c in m :: CellAt(c).State() == m[c]
      ensures Cells() == m
    {
    }

    /** `setBoardTile`: the footprint's cells are marked, each referring to the anchor except the anchor itself. */
    method SetBoardTile(qPos: int, sPos: int, size: Size)
      requires Valid() && FootprintInBoard(qPos, sPos, size)
      modifies CellSet()
      ensures Cells() == Occupy(old(Cells()), Coords(qPos, sPos), size)
    {
      ghost var g := Cells();
      var anchor := Coords(qPos, sPos);
      var sc := sPos;
      while sc < sPos + size.sLength
        invariant sPos <= sc <= sPos + size.sLength || size.sLength == 0
        invariant forall c | c in g :: CellAt(c).State() == Progress(Place, anchor, size, sc, qPos, c, g[c])
      {
        var qc := qPos;
        while qc < qPos + size.qLength
          invariant qPos <= qc <= qPos + size.qLength
          invariant forall c | c in g :: CellAt(c).State() == Progress(Place, anchor, size, sc, qc, c, g[c])
        {
          var ref := if qPos == qc && sPos == sc then None else Some(anchor);
          assert InFootprint(Coords(qc, sc), anchor, size) && ref == AnchorRefFor(Coords(qc, sc), anchor);
          MarkCell(Coords(qc, sc), ref);
          qc := qc + 1;
        }
        ProgressRowEnd(Place, anchor, size, sc, qc, sc + 1);
        sc := sc + 1;
      }
      ProgressEnd(Place, g, anchor, size, sc);
      CellsAre(Occupy(g, anchor, size));
    }

    /** `unsetBoardTile`: the footprint's cells are cleared. */
    method UnsetBoardTile(qPos: int, sPos: int, size: Size)
      requires Valid() && FootprintInBoard(qPos, sPos, size)
      modifies CellSet()
      ensures Cells() == Vacate(old(Cells()), Coords(qPos, sPos), size)
    {
      ghost var g := Cells();
      var anchor := Coords(qPos, sPos);
      var sc := sPos;
      while sc < sPos + size.sLength
        invariant sPos <= sc <= sPos + size.sLength || size.sLength == 0
        invariant forall c | c in g :: CellAt(c).State() == Progress(Clear, anchor, size, sc, qPos, c, g[c])
      {
        var qc := qPos;
        while qc < qPos + size.qLength
          invariant qPos <= qc <= qPos + size.qLength
          invariant forall c | c in g :: CellAt(c).State() == Progress(Clear, anchor, size, sc, qc, c, g[c])
        {
          assert InFootprint(Coords(qc, sc), anchor, size);
          ClearCell(Coords(qc, sc));
          qc := qc + 1;
        }
        ProgressRowEnd(Clear, anchor, size, sc, qc, sc + 1);
        sc := sc + 1;
      }
      ProgressEnd(Clear, g, anchor, size, sc);
      CellsAre(Vacate(g, anchor, size));
    }
  }

  /** The cells of the rows. */
  ghost function RowCells(rows: seq<seq<Cell>>): set<Cell> {
    set r, cell | r in rows && cell in r :: cell
  }

  /** `generateEdges`: 1 where the cell is walkable, 0 elsewhere, in the shape of the rows. */
  function GenerateEdges(rows: seq<seq<Cell>>): (e: seq<seq<int>>)
    ensures |e| == |rows|
    ensures forall r | 0 <= r < |e| :: |e[r]| == |rows[r]|
    ensures forall r, c | 0 <= r < |e| && 0 <= c < |e[r]| ::
              (e[r][c] == 1 <==> rows[r][c].walkable) && (e[r][c] == 0 || e[r][c] == 1)
  {
    if rows == [] then []
    else GenerateEdges(rows[..|rows| - 1]) + [RowEdges(rows[|rows| - 1])]
  }

  /** One row of `generateEdges`. */
  function RowEdges(row: seq<Cell>): (e: seq<int>)
    ensures |e| == |row|
    ensures forall c | 0 <= c < |row| :: e[c] == (if row[c].walkable then 1 else 0)
  {
    if row == [] then [] else RowEdges(row[..|row| - 1]) + [if row[|row| - 1].walkable then 1 else 0]
  }

  /** `initializeTiles`: rows from `-Half(s)` upward, each with cells from `-Half(q)` upward, all fresh and free. */
  method InitializeTiles(q: nat, s: nat, walkableAt: (int, int) -> bool) returns (tiles: seq<seq<Cell>>)
    ensures fresh(RowCells(tiles))
    ensures |tiles| == 2 * Half(s)
    ensures forall r | 0 <= r < |tiles| :: |tiles[r]| == 2 * Half(q)
    ensures forall r, c | 0 <= r < |tiles| && 0 <= c < |tiles[r]| ::
              tiles[r][c].State() == NewCell(c - Half(q), r - Half(s), walkableAt(c - Half(q), r - Half(s)), false)
  {
    tiles := [];
    var j := -Half(s);
    while j < Half(s)
      invariant -Half(s) <= j <= Half(s)
      invariant |tiles| == j + Half(s)
      invariant forall r | 0 <= r < |tiles| :: |tiles[r]| == 2 * Half(q)
      invariant forall r, c | 0 <= r < |tiles| && 0 <= c < |tiles[r]| ::
                  && fresh(tiles[r][c])
                  && tiles[r][c].State() == NewCell(c - Half(q), r - Half(s), walkableAt(c - Half(q), r - Half(s)), false)
    {
      var tileRow: seq<Cell> := [];
      var i := -Half(q);
      while i < Half(q)
        invariant -Half(q) <= i <= Half(q)
        invariant |tileRow| == i + Half(q)
        invariant forall c | 0 <= c < |tileRow| ::
                    && fresh(tileRow[c])
                    && tileRow[c].State() == NewCell(c - Half(q), j, walkableAt(c - Half(q), j), false)
        invariant forall r, c | 0 <= r < |tiles| && 0 <= c < |tiles[r]| ::
                    && fresh(tiles[r][c])
                    && tiles[r][c].State() == NewCell(c - Half(q), r - Half(s), walkableAt(c - Half(q), r - Half(s)), false)
      {
        var cell := new Cell(i, j, walkableAt(i, j), false);
        tileRow := tileRow + [cell];
        i := i + 1;
      }
      tiles := tiles + [tileRow];
      j := j + 1;
    }
  }
}
