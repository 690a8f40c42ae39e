/** One cell of the board grid (Cell.js), a mutable object shared by the board's rows. */
module Cells {
  import opened Wrappers
  import opened Geometry
  import opened Occupancy

  class Cell {
    const q: int
    const s: int
    const walkable: bool
    var hasTile: bool
    var anchorRef: Option<Coords>
    var isAnchor: Option<bool>

    /** The cell's fields as a value. */
    function State(): CellState
      reads this
    {
      CellState(q, s, walkable, hasTile, isAnchor, anchorRef)
    }

    /** A new cell has no anchor fields. */
    constructor (q: int, s: int, walkable: bool, hasTile: bool)
      ensures State() == NewCell(q, s, walkable, hasTile)
    {
      this.q := q;
      this.s := s;
      this.walkable := walkable;
      this.hasTile := hasTile;
      this.anchorRef := None;
      this.isAnchor := None;
    }

    /** Marks the cell occupied; without a reference it becomes an anchor and its old reference stays. */
    method SetHasTile(anchorRef: Option<Coords>)
      modifies this
      ensures State() == Marked(old(State()), anchorRef)
    {
      hasTile := true;
      isAnchor := Some(anchorRef.None?);
      if anchorRef.Some? {
        this.anchorRef := anchorRef;
      }
    }

    /** Marks the cell free and drops its anchor fields. */
    method UnsetHasTile()
      modifies this
      ensures State() == Cleared(old(State()))
      ensures IsFree(State())
    {
      hasTile := false;
      anchorRef := None;
      isAnchor := None;
    }
  }
}
