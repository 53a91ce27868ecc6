/*
 * The two types gui.py takes from the search module: a grid position and the
 * occupancy map that is read from a file, loaded into the grid and written
 * back.  astar.py is not part of this model; these are the shapes gui.py
 * relies on (map.size, map.map[row][col], map.start, map.end,
 * set_start_position, set_end_position).
 */
module MapModel {

  /** A cell coordinate, compared by value: x is the row, y the column. */
  datatype Position = Position(x: int, y: int)

  /**
   * An occupancy map: `size` rows of `size` entries, 1 for a wall and 0 for
   * free ground, plus the start and end positions of the search.
   */
  class OccupancyMap {
    var size: int
    var cells: seq<seq<int>>
    var start: Position
    var end: Position

    /** The matrix is square with side `size`. */
    ghost predicate Valid()
      reads this
    {
      |cells| == size && forall r :: 0 <= r < size ==> |cells[r]| == size
    }

    predicate InBounds(p: Position)
      reads this
    {
      0 <= p.x < size && 0 <= p.y < size
    }

    /** Records a new start position and nothing else. */
    method SetStartPosition(x: int, y: int)
      modifies this
      ensures start == Position(x, y)
      ensures size == old(size) && cells == old(cells) && end == old(end)
    {
      start := Position(x, y);
    }

    /** Records a new end position and nothing else. */
    method SetEndPosition(x: int, y: int)
      modifies this
      ensures end == Position(x, y)
      ensures size == old(size) && cells == old(cells) && start == old(start)
    {
      end := Position(x, y);
    }
  }
}
