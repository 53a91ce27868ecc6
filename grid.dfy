/*
 * The visual grid of gui.py: a rectangle of cells, each a stack of tags
 * (CellStack), with the bounds check, the tag push and pop-while-equal
 * operations, and the conversion from and to an occupancy map.
 */
module GridModel {
  import opened CellStack
  import opened MapModel

  // The tags a cell stack holds (Grid.NO_WALL_ID .. Grid.POP_ID).
  const NoWallId := 0
  const WallId := 1
  const StartEndId := 2
  const InQueueId := 3
  const PopId := 4

  /** Rows of columns of cell stacks. */
  type Cells = seq<seq<seq<int>>>

  /** How many times `for i in range(0, n)` runs its body. */
  function RangeLength(n: int): nat
  {
    if n < 0 then 0 else n
  }

  /** `g` is laid out as `rows` rows of `cols` cells each. */
  ghost predicate Shaped(g: Cells, rows: int, cols: int)
  {
    |g| == RangeLength(rows) && forall r :: 0 <= r < |g| ==> |g[r]| == RangeLength(cols)
  }

  /** Every stack is non-empty and has the free-ground tag at its bottom. */
  ghost predicate BasesIntact(g: Cells)
  {
    forall r, c :: 0 <= r < |g| && 0 <= c < |g[r]| ==> g[r][c] != [] && g[r][c][0] == NoWallId
  }

  /** (x, y) addresses a cell of `g`. */
  predicate InGrid(g: Cells, x: int, y: int)
  {
    0 <= x < |g| && 0 <= y < |g[x]|
  }

  /** `h` has the layout of `g` and differs from it at most in cell (x, y). */
  ghost predicate SameExcept(g: Cells, h: Cells, x: int, y: int)
  {
    && |h| == |g|
    && (forall r :: 0 <= r < |g| ==> |h[r]| == |g[r]|)
    && (forall r, c :: 0 <= r < |g| && 0 <= c < |g[r]| && (r != x || c != y) ==> h[r][c] == g[r][c])
  }

  /** The cells after pushing `v` onto cell (x, y). */
  function Pushed(g: Cells, x: int, y: int, v: int): (h: Cells)
    requires InGrid(g, x, y)
    ensures SameExcept(g, h, x, y)
    ensures h[x][y] == g[x][y] + [v] && Top(h[x][y]) == v
    ensures BasesIntact(g) ==> BasesIntact(h)
  {
    g[x := g[x][y := g[x][y] + [v]]]
  }

  /** The cells after popping cell (x, y) while its top is `v`. */
  function Popped(g: Cells, x: int, y: int, v: int): (h: Cells)
    requires InGrid(g, x, y)
    ensures SameExcept(g, h, x, y)
    ensures h[x][y] == PopWhile(g[x][y], v)
    ensures BasesIntact(g) && v != NoWallId ==> BasesIntact(h) && Top(h[x][y]) != v
  {
    PopWhileDrains(g[x][y], v);
    g[x := g[x][y := PopWhile(g[x][y], v)]]
  }

  /**
   * Pushing `v` onto a non-empty cell and then popping while its top is `v`
   * restores the whole grid exactly when that cell did not already show `v`;
   * no other cell is ever touched.  An empty cell is drained instead (the
   * source's IndexError).
   */
  lemma {:induction false} PushThenPopCell(g: Cells, x: int, y: int, v: int)
    requires InGrid(g, x, y)
    ensures g[x][y] != [] ==> (Popped(Pushed(g, x, y, v), x, y, v) == g <==> Top(g[x][y]) != v)
    ensures g[x][y] == [] ==> Popped(Pushed(g, x, y, v), x, y, v)[x][y] == []
  {
    var h := Popped(Pushed(g, x, y, v), x, y, v);
    PushThenPopWhile(g[x][y], v);
    assert h[x][y] == PopWhile(g[x][y] + [v], v);
    if g[x][y] != [] && Top(g[x][y]) != v {
      assert h[x] == g[x];
    }
  }

  /**
   * Builds `rowNum` rows of `colNum` cells, each a fresh stack holding only
   * `defaultValue`.  A negative count builds nothing, as range() does.
   */
  method CreateGrid(rowNum: int, colNum: int, defaultValue: int) returns (grid: Cells)
    ensures Shaped(grid, rowNum, colNum)
    ensures forall r, c :: 0 <= r < |grid| && 0 <= c < |grid[r]| ==> grid[r][c] == [defaultValue]
  {
    grid := [];
    var row := 0;
    while row < rowNum
      invariant 0 <= row <= RangeLength(rowNum)
      invariant |grid| == row
      invariant forall r :: 0 <= r < row ==> |grid[r]| == RangeLength(colNum)
      invariant forall r, c :: 0 <= r < row && 0 <= c < |grid[r]| ==> grid[r][c] == [defaultValue]
    {
      var aRow := [];
      var col := 0;
      while col < colNum
        invariant 0 <= col <= RangeLength(colNum)
        invariant |aRow| == col
        invariant forall c :: 0 <= c < col ==> aRow[c] == [defaultValue]
      {
        var item := [];
        item := item + [defaultValue];
        aRow := aRow + [item];
        col := col + 1;
      }
      grid := grid + [aRow];
      row := row + 1;
    }
  }

  /**
   * The stack load_map leaves on a cell whose map entry is `v`: an endpoint
   * shows the start/end tag (twice when start and end coincide) over bare
   * ground, any other cell shows a wall over ground when `v` is 1 and bare
   * ground otherwise.
   */
  function LoadedStack(v: int, isStart: bool, isEnd: bool): seq<int>
  {
    if isStart && isEnd then [NoWallId, StartEndId, StartEndId]
    else if isStart || isEnd then [NoWallId, StartEndId]
    else if v == 1 then [NoWallId, WallId]
    else [NoWallId]
  }

  /** `g` is the grid that loading matrix `m` with endpoints `s` and `e` builds. */
  ghost predicate LoadedFrom(g: Cells, m: seq<seq<int>>, s: Position, e: Position)
  {
    && |g| == |m|
    && (forall r :: 0 <= r < |m| ==> |g[r]| == |m[r]|)
    && (forall r, c :: 0 <= r < |m| && 0 <= c < |m[r]| ==>
          g[r][c] == LoadedStack(m[r][c], Position(r, c) == s, Position(r, c) == e))
  }

  /**
   * What a loaded cell shows: the start/end tag on the endpoints, otherwise a
   * wall exactly where the map holds 1 and free ground elsewhere, always over
   * a free-ground base.
   */
  lemma LoadedTops(g: Cells, m: seq<seq<int>>, s: Position, e: Position, r: int, c: int)
    requires LoadedFrom(g, m, s, e) && 0 <= r < |m| && 0 <= c < |m[r]|
    ensures g[r][c] != [] && g[r][c][0] == NoWallId
    ensures Position(r, c) == s || Position(r, c) == e ==> Top(g[r][c]) == StartEndId
    ensures Position(r, c) != s && Position(r, c) != e ==>
              (Top(g[r][c]) == WallId <==> m[r][c] == 1) &&
              (m[r][c] != 1 <==> Top(g[r][c]) == NoWallId)
  {
  }

  /** The map entry save_map leaves for a cell showing `top` whose entry was `prior`. */
  function SaveEntry(prior: int, top: int): int
  {
    if top == NoWallId then 0 else if top == WallId then 1 else prior
  }

  /** The matrix save_map leaves when it starts from `m` and reads the tops of `g`. */
  function SavedMatrix(m: seq<seq<int>>, g: Cells): seq<seq<int>>
    requires |g| == |m| && forall i :: 0 <= i < |m| ==> |g[i]| == |m[i]|
    requires BasesIntact(g)
  {
    seq(|m|, i requires 0 <= i < |m| =>
      seq(|m[i]|, j requires 0 <= j < |m[i]| => SaveEntry(m[i][j], Top(g[i][j]))))
  }

  /** Every entry off the two endpoints is 0 or 1. */
  ghost predicate BinaryOffEndpoints(m: seq<seq<int>>, s: Position, e: Position)
  {
    forall r, c :: 0 <= r < |m| && 0 <= c < |m[r]| && Position(r, c) != s && Position(r, c) != e ==>
      m[r][c] == 0 || m[r][c] == 1
  }

  /**
   * Saving a freshly loaded grid gives the map back unchanged exactly when
   * every entry off the endpoints is 0 or 1 (the endpoint entries are never
   * written, so any value there survives).
   */
  lemma {:induction false} LoadThenSaveRoundTrip(g: Cells, m: seq<seq<int>>, s: Position, e: Position)
    requires LoadedFrom(g, m, s, e)
    ensures BasesIntact(g)
    ensures SavedMatrix(m, g) == m <==> BinaryOffEndpoints(m, s, e)
  {
    forall r, c | 0 <= r < |g| && 0 <= c < |g[r]| ensures g[r][c] != [] && g[r][c][0] == NoWallId {
      LoadedTops(g, m, s, e, r, c);
    }
    var saved := SavedMatrix(m, g);
    if BinaryOffEndpoints(m, s, e) {
      forall r | 0 <= r < |m| ensures saved[r] == m[r] {
        forall c | 0 <= c < |m[r]| ensures saved[r][c] == m[r][c] {
          LoadedTops(g, m, s, e, r, c);
        }
      }
    } else {
      var r, c :| 0 <= r < |m| && 0 <= c < |m[r]| && Position(r, c) != s && Position(r, c) != e &&
                  m[r][c] != 0 && m[r][c] != 1;
      LoadedTops(g, m, s, e, r, c);
      assert saved[r][c] == 0;
    }
  }

  /** Two matrices with the same layout and the same entries are equal. */
  lemma MatrixExtensionality(a: seq<seq<int>>, b: seq<seq<int>>)
    requires |a| == |b| && forall i :: 0 <= i < |a| ==> |a[i]| == |b[i]|
    requires forall i, j :: 0 <= i < |a| && 0 <= j < |a[i]| ==> a[i][j] == b[i][j]
    ensures a == b
  {
    forall i | 0 <= i < |a| ensures a[i] == b[i] {
      assert forall j :: 0 <= j < |a[i]| ==> a[i][j] == b[i][j];
    }
  }

  /**
   * The nested loop of load_map that pushes a wall tag onto every cell whose
   * map entry is 1, starting from a grid of bare ground.
   */
  method PushWalls(g0: Cells, m: seq<seq<int>>) returns (g: Cells)
    requires |g0| == |m| && forall r :: 0 <= r < |m| ==> |g0[r]| == |m| && |m[r]| == |m|
    requires forall r, c :: 0 <= r < |m| && 0 <= c < |m| ==> g0[r][c] == [NoWallId]
    ensures |g| == |m| && forall r :: 0 <= r < |m| ==> |g[r]| == |m|
    ensures forall r, c :: 0 <= r < |m| && 0 <= c < |m| ==>
              g[r][c] == Terrain(m[r][c])
  {
    g := g0;
    var n := |m|;
    var row := 0;
    while row < n
      invariant 0 <= row <= n
      invariant |g| == n && forall r :: 0 <= r < n ==> |g[r]| == n
      invariant forall r, c :: 0 <= r < n && 0 <= c < n ==>
                  g[r][c] == if r < row && m[r][c] == 1 then [NoWallId, WallId] else [NoWallId]
    {
      var col := 0;
      while col < n
        invariant 0 <= col <= n
        invariant |g| == n && forall r :: 0 <= r < n ==> |g[r]| == n
        invariant forall r, c :: 0 <= r < n && 0 <= c < n ==>
                    g[r][c] == if (r < row || (r == row && c < col)) && m[r][c] == 1
                               then [NoWallId, WallId] else [NoWallId]
      {
        if m[row][col] == 1 {
          g := g[row := g[row][col := g[row][col] + [WallId]]];
        }
        col := col + 1;
      }
      row := row + 1;
    }
  }

  /**
   * The grid of cell stacks.  `loadedMap` is the occupancy map last loaded (null
   * before any load); save_map writes back into that same object.
   */
  class Grid {
    var cells: Cells
    var rowNum: int
    var colNum: int
    var loadedMap: OccupancyMap?

    /**
     * The layout matches the row and column counts, every stack sits on
     * free ground, and a loaded map has the grid's dimensions.
     */
    ghost predicate Valid()
      reads this, loadedMap
    {
      && Shaped(cells, rowNum, colNum)
      && BasesIntact(cells)
      && (loadedMap != null ==> loadedMap.Valid() && loadedMap.size == rowNum && loadedMap.size == colNum)
    }

    /** A grid of free ground with no map. */
    constructor (rowNum: int, colNum: int)
      ensures Valid() && loadedMap == null
      ensures this.rowNum == rowNum && this.colNum == colNum
      ensures forall r, c :: 0 <= r < |cells| && 0 <= c < |cells[r]| ==> cells[r][c] == [NoWallId]
    {
      var g := CreateGrid(rowNum, colNum, NoWallId);
      cells := g;
      this.rowNum := rowNum;
      this.colNum := colNum;
      loadedMap := null;
    }

    /** The bounds check: on a well-laid-out grid it holds exactly for the cells that exist. */
    function IsValidPosition(x: int, y: int): (valid: bool)
      reads this
      ensures valid <==> 0 <= x < rowNum && 0 <= y < colNum
      ensures Shaped(cells, rowNum, colNum) ==> (valid <==> InGrid(cells, x, y))
    {
      if x < 0 || x >= rowNum || y < 0 || y >= colNum then false else true
    }

    /**
     * The tag cell (x, y) currently shows; a cell with nothing stacked on
     * its base shows free ground.
     */
    function GetGridValue(x: int, y: int): (value: int)
      reads this, loadedMap
      requires Valid() && IsValidPosition(x, y)
      ensures |cells[x][y]| == 1 ==> value == NoWallId
    {
      Top(cells[x][y])
    }

    method PushGridValue(x: int, y: int, value: int)
      requires Valid() && IsValidPosition(x, y)
      modifies this
      ensures Valid()
      ensures rowNum == old(rowNum) && colNum == old(colNum) && loadedMap == old(loadedMap)
      ensures cells == Pushed(old(cells), x, y, value)
    {
      cells := cells[x := cells[x][y := cells[x][y] + [value]]];
    }

    /**
     * Pops cell (x, y) while its top is `value`.  `ok` is false when that
     * would empty the stack (where the source fails on top() of an empty
     * list); the grid is then left as it was.  Popping any tag other than
     * the free-ground base never fails.
     */
    method PopGridValue(x: int, y: int, value: int) returns (ok: bool)
      requires Valid() && IsValidPosition(x, y)
      modifies this
      ensures Valid()
      ensures rowNum == old(rowNum) && colNum == old(colNum) && loadedMap == old(loadedMap)
      ensures ok <==> PopWhile(old(cells)[x][y], value) != []
      ensures value != NoWallId ==> ok
      ensures ok ==> cells == Popped(old(cells), x, y, value)
      ensures !ok ==> cells == old(cells)
    {
      var stack := cells[x][y];
      while stack != [] && Top(stack) == value
        invariant PopWhile(stack, value) == PopWhile(cells[x][y], value)
        decreases |stack|
      {
        stack := stack[..|stack| - 1];
      }
      ok := stack != [];
      if ok {
        PopWhileNoop(stack, value);
        cells := cells[x := cells[x][y := stack]];
      }
      PopWhileDrains(old(cells)[x][y], value);
    }

    /**
     * Replaces the grid by one built from `m`: walls where the matrix holds
     * 1, the start/end tag on both endpoints (over bare ground: a wall there
     * is popped first), and `m` becomes the grid's map.  Returns the
     * endpoints' coordinates.
     */
    method LoadMap(m: OccupancyMap) returns (startX: int, startY: int, endX: int, endY: int)
      requires m.Valid() && m.InBounds(m.start) && m.InBounds(m.end)
      modifies this
      ensures Valid() && loadedMap == m
      ensures rowNum == m.size && colNum == m.size
      ensures LoadedFrom(cells, m.cells, m.start, m.end)
      ensures startX == m.start.x && startY == m.start.y && endX == m.end.x && endY == m.end.y
    {
      var n, s, e := m.size, m.start, m.end;
      var walls := m.cells;
      loadedMap := m;
      rowNum := n;
      colNum := n;
      var g := CreateGrid(n, n, NoWallId);
      g := PushWalls(g, walls);
      cells := g;
      assert Valid();
      ghost var g0 := cells;
      var ok := PopGridValue(s.x, s.y, WallId);
      ghost var g1 := cells;
      PushGridValue(s.x, s.y, StartEndId);
      ghost var g2 := cells;
      ok := PopGridValue(e.x, e.y, WallId);
      ghost var g3 := cells;
      PushGridValue(e.x, e.y, StartEndId);
      LoadedGrid(g0, g1, g2, g3, cells, walls, s, e);
      startX, startY, endX, endY := s.x, s.y, e.x, e.y;
    }

    /**
     * Writes the grid back into its map: 0 where a cell shows free ground,
     * 1 where it shows a wall, and the old entry wherever it shows anything
     * else.  Without a map it reports false and changes nothing.
     */
    method SaveMap() returns (hasMap: bool)
      requires Valid()
      modifies loadedMap
      ensures Valid()
      ensures hasMap <==> loadedMap != null
      ensures loadedMap != null ==> loadedMap.cells == SavedMatrix(old(loadedMap.cells), cells)
      ensures loadedMap != null ==> loadedMap.size == old(loadedMap.size) && loadedMap.start == old(loadedMap.start) && loadedMap.end == old(loadedMap.end)
    {
      if loadedMap == null {
        return false;
      }
      var row := 0;
      while row < rowNum
        invariant 0 <= row <= rowNum
        invariant Valid()
        invariant loadedMap.size == old(loadedMap.size) && loadedMap.start == old(loadedMap.start) && loadedMap.end == old(loadedMap.end)
        invariant forall r, c :: 0 <= r < rowNum && 0 <= c < colNum ==>
                    loadedMap.cells[r][c] == if r < row then SaveEntry(old(loadedMap.cells)[r][c], Top(cells[r][c]))
                                       else old(loadedMap.cells)[r][c]
      {
        var col := 0;
        while col < colNum
          invariant 0 <= col <= colNum
          invariant Valid()
          invariant loadedMap.size == old(loadedMap.size) && loadedMap.start == old(loadedMap.start) && loadedMap.end == old(loadedMap.end)
          invariant forall r, c :: 0 <= r < rowNum && 0 <= c < colNum ==>
                      loadedMap.cells[r][c] == if r < row || (r == row && c < col)
                                         then SaveEntry(old(loadedMap.cells)[r][c], Top(cells[r][c]))
                                         else old(loadedMap.cells)[r][c]
        {
          var value := GetGridValue(row, col);
          if value == NoWallId {
            loadedMap.cells := loadedMap.cells[row := loadedMap.cells[row][col := 0]];
          } else if value == WallId {
            loadedMap.cells := loadedMap.cells[row := loadedMap.cells[row][col := 1]];
          }
          col := col + 1;
        }
        row := row + 1;
      }
      hasMap := true;
      MatrixExtensionality(loadedMap.cells, SavedMatrix(old(loadedMap.cells), cells));
    }
  }

  /** The stack a cell of the terrain layer holds: a wall over ground for 1, bare ground otherwise. */
  function Terrain(v: int): seq<int>
  {
    if v == 1 then [NoWallId, WallId] else [NoWallId]
  }

  /**
   * load_map's result: g0 is the terrain layer of square matrix m, g1..g4
   * the grids after popping walls at the start, pushing its tag, popping
   * walls at the end and pushing its tag.
   */
  lemma LoadedGrid(g0: Cells, g1: Cells, g2: Cells, g3: Cells, g4: Cells,
                   m: seq<seq<int>>, s: Position, e: Position)
    requires |g0| == |m| && forall r :: 0 <= r < |m| ==> |g0[r]| == |m| && |m[r]| == |m|
    requires forall r, c :: 0 <= r < |m| && 0 <= c < |m| ==> g0[r][c] == Terrain(m[r][c])
    requires InGrid(g0, s.x, s.y) && InGrid(g0, e.x, e.y)
    requires g1 == Popped(g0, s.x, s.y, WallId)
    requires g2 == Pushed(g1, s.x, s.y, StartEndId)
    requires g3 == Popped(g2, e.x, e.y, WallId)
    requires g4 == Pushed(g3, e.x, e.y, StartEndId)
    ensures LoadedFrom(g4, m, s, e)
  {
    PopWhileNoop([NoWallId], WallId);
    PopWhileIsMaximalRun([NoWallId, WallId], WallId, [NoWallId]);
    PopWhileNoop([NoWallId, StartEndId], WallId);
    assert g0[s.x][s.y] == Terrain(m[s.x][s.y]);
    assert g1[s.x][s.y] == [NoWallId];
    assert g2[s.x][s.y] == [NoWallId, StartEndId];
    if s == e {
      assert g3[e.x][e.y] == [NoWallId, StartEndId];
      assert g4[e.x][e.y] == [NoWallId, StartEndId, StartEndId];
    } else {
      assert g0[e.x][e.y] == Terrain(m[e.x][e.y]);
      assert g3[e.x][e.y] == [NoWallId];
      assert g4[e.x][e.y] == [NoWallId, StartEndId];
      assert g4[s.x][s.y] == [NoWallId, StartEndId];
    }
    forall r, c | 0 <= r < |m| && 0 <= c < |m[r]|
      ensures g4[r][c] == LoadedStack(m[r][c], Position(r, c) == s, Position(r, c) == e)
    {
      if Position(r, c) != s && Position(r, c) != e {
        assert g4[r][c] == g0[r][c] == Terrain(m[r][c]);
      }
    }
  }
}
