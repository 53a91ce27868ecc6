/*
 * The application state of gui.py that the search's messages and the user's
 * edits drive: the message queue and input lock, and the start/end records
 * with the walls and endpoint tags they put on the grid.
 *
 * The editing operations are specified by pure functions on an `Editor`
 * value (the two endpoint records and the grid's cells); the methods of
 * `Application` are proved to change the state exactly as those functions
 * say, and the functions' contracts carry the invariants.
 */
module AppModel {
  import opened CellStack
  import opened MapModel
  import opened GridModel

  datatype Option<T> = None | Some(value: T)

  /** A message's action: "LOCK", "UNLOCK", "PUSH", "POP", or any other string. */
  datatype Action = Lock | Unlock | Push | Pop | Other

  /** A message from the search: a cell, an action and the tag it carries. */
  datatype Message = Message(x: int, y: int, action: Action, param: int)

  /** A start or end record: where it is and whether it has been placed. */
  datatype Endpoint = Endpoint(position: Position, added: bool)

  /** The record of an endpoint that has not been placed. */
  const NotAdded := Endpoint(Position(-1, -1), false)

  /** Milliseconds that must pass between two handled messages. */
  const MessageInterval := 100

  /** The mouse button that places and removes endpoints (the right one). */
  const EndpointButton := 3

  /** A PUSH or POP message, the two that address a cell. */
  predicate Addresses(m: Message)
  {
    m.action == Push || m.action == Pop
  }

  /** The state the editing operations change. */
  datatype Editor = Editor(start: Endpoint, end: Endpoint, cells: Cells)

  /**
   * The endpoint records are consistent: the end is only placed after the
   * start, and a record that is not placed holds (-1, -1).
   */
  ghost predicate EndpointsConsistent(start: Endpoint, end: Endpoint)
  {
    && (end.added ==> start.added)
    && (!start.added ==> start == NotAdded)
    && (!end.added ==> end == NotAdded)
  }

  /** The editor invariant: consistent records, placed endpoints on the grid, intact stacks. */
  ghost predicate EditorValid(e: Editor)
  {
    && BasesIntact(e.cells)
    && EndpointsConsistent(e.start, e.end)
    && (e.start.added ==> InGrid(e.cells, e.start.position.x, e.start.position.y))
    && (e.end.added ==> InGrid(e.cells, e.end.position.x, e.end.position.y))
  }

  /**
   * choose_start_end at p: the start is placed first, then the end, each
   * pushing the start/end tag on p; once both are placed nothing changes.
   */
  function AfterChoose(e: Editor, p: Position): (r: Editor)
    requires EditorValid(e) && InGrid(e.cells, p.x, p.y)
    ensures EditorValid(r)
    ensures !e.start.added ==> r.start == Endpoint(p, true) && r.end == e.end
    ensures e.start.added && !e.end.added ==> r.start == e.start && r.end == Endpoint(p, true)
    ensures !(e.start.added && e.end.added) ==> Top(r.cells[p.x][p.y]) == StartEndId
    ensures e.start.added && e.end.added ==> r == e
    ensures SameExcept(e.cells, r.cells, p.x, p.y)
  {
    if !e.start.added then
      Editor(Endpoint(p, true), e.end, Pushed(e.cells, p.x, p.y, StartEndId))
    else if !e.end.added then
      Editor(e.start, Endpoint(p, true), Pushed(e.cells, p.x, p.y, StartEndId))
    else
      e
  }

  /** p is the position held by one of the two records (placed or not). */
  predicate Matches(e: Editor, p: Position)
  {
    e.start.position == p || e.end.position == p
  }

  /**
   * remove_start_end at p.  A p that neither record holds changes nothing.
   * With both placed, the clicked one goes and the other one stays (as the
   * start); with only the start placed, the start goes.
   */
  function AfterRemove(e: Editor, p: Position): (r: Editor)
    requires EditorValid(e)
    ensures EditorValid(r)
    ensures !Matches(e, p) ==> r == e
    ensures Matches(e, p) && e.start.added && e.end.added ==>
              var kept := if e.start.position == p then e.end.position else e.start.position;
              var gone := if e.start.position == p then e.start.position else e.end.position;
              && r.start == Endpoint(kept, true) && r.end == NotAdded
              && SameExcept(e.cells, r.cells, gone.x, gone.y)
              && Top(r.cells[gone.x][gone.y]) != StartEndId
    ensures Matches(e, p) && e.start.added && !e.end.added ==>
              && r.start == NotAdded && r.end == e.end
              && SameExcept(e.cells, r.cells, e.start.position.x, e.start.position.y)
              && Top(r.cells[e.start.position.x][e.start.position.y]) != StartEndId
    ensures !e.start.added ==> r == e
  {
    if !Matches(e, p) then
      e
    else if e.start.added && e.end.added then
      var start := if e.start.position == p then e.start.(position := e.end.position) else e.start;
      var end := if e.start.position == p then e.end.(position := e.start.position) else e.end;
      Editor(start, NotAdded, Popped(e.cells, end.position.x, end.position.y, StartEndId))
    else if e.start.added then
      Editor(NotAdded, e.end, Popped(e.cells, e.start.position.x, e.start.position.y, StartEndId))
    else
      e
  }

  /**
   * clear: every placed endpoint is unplaced and its cell gets free ground
   * pushed on top; no other cell changes.
   */
  function AfterClear(e: Editor): (r: Editor)
    requires EditorValid(e)
    ensures EditorValid(r)
    ensures r.start == NotAdded && r.end == NotAdded
    ensures |r.cells| == |e.cells| && forall i :: 0 <= i < |e.cells| ==> |r.cells[i]| == |e.cells[i]|
    ensures e.start.added ==> Top(r.cells[e.start.position.x][e.start.position.y]) == NoWallId
    ensures e.end.added ==> Top(r.cells[e.end.position.x][e.end.position.y]) == NoWallId
    ensures forall i, j ::
              (InGrid(e.cells, i, j)
               && !(e.start.added && Position(i, j) == e.start.position)
               && !(e.end.added && Position(i, j) == e.end.position))
              ==> r.cells[i][j] == e.cells[i][j]
  {
    var c1 := if e.start.added then Pushed(e.cells, e.start.position.x, e.start.position.y, NoWallId) else e.cells;
    var c2 := if e.end.added then Pushed(c1, e.end.position.x, e.end.position.y, NoWallId) else c1;
    Editor(NotAdded, NotAdded, c2)
  }

  /**
   * modify_wall at p: off the grid nothing changes; otherwise a wall is
   * pushed (add) or popped (erase) on p alone, and the endpoints stay.
   */
  function AfterModifyWall(e: Editor, add: bool, p: Position): (r: Editor)
    requires EditorValid(e)
    ensures EditorValid(r) && r.start == e.start && r.end == e.end
    ensures !InGrid(e.cells, p.x, p.y) ==> r == e
    ensures InGrid(e.cells, p.x, p.y) ==> SameExcept(e.cells, r.cells, p.x, p.y)
    ensures InGrid(e.cells, p.x, p.y) && add ==> Top(r.cells[p.x][p.y]) == WallId
    ensures InGrid(e.cells, p.x, p.y) && !add ==> Top(r.cells[p.x][p.y]) != WallId
  {
    if !InGrid(e.cells, p.x, p.y) then e
    else if add then e.(cells := Pushed(e.cells, p.x, p.y, WallId))
    else e.(cells := Popped(e.cells, p.x, p.y, WallId))
  }

  /** modify_start_end at p: off the grid nothing changes; otherwise choose (add) or remove. */
  function AfterModifyStartEnd(e: Editor, add: bool, p: Position): (r: Editor)
    requires EditorValid(e)
    ensures EditorValid(r)
    ensures !InGrid(e.cells, p.x, p.y) ==> r == e
  {
    if !InGrid(e.cells, p.x, p.y) then e
    else if add then AfterChoose(e, p)
    else AfterRemove(e, p)
  }

  /**
   * Removing an endpoint when both are placed, whichever of the two is
   * clicked, leaves the other one placed as the start and the end free.
   */
  lemma {:induction false} RemoveKeepsOtherAsStart(e: Editor, p: Position)
    requires EditorValid(e) && e.start.added && e.end.added && Matches(e, p)
    ensures AfterRemove(e, p).start.added && !AfterRemove(e, p).end.added
    ensures p == e.start.position ==> AfterRemove(e, p).start.position == e.end.position
    ensures p != e.start.position ==> AfterRemove(e, p).start.position == e.start.position
  {
  }

  /**
   * Removal compares positions, not placement: with only the start placed,
   * the end record's (-1, -1) matches, so removing at (-1, -1) unplaces the
   * start.  Through modify_start_end this cannot happen, because (-1, -1)
   * is off the grid and is refused before removal is reached.
   */
  lemma {:induction false} RemoveAtUnplacedPosition(e: Editor, add: bool)
    requires EditorValid(e) && e.start.added && !e.end.added
    ensures AfterRemove(e, Position(-1, -1)).start == NotAdded
    ensures AfterModifyStartEnd(e, add, Position(-1, -1)) == e
  {
    assert Matches(e, Position(-1, -1));
  }

  /**
   * Choosing and then removing the same fresh cell gives back the editor
   * state before the choice, when the cell did not already show the
   * start/end tag and no record already held that position.
   */
  lemma {:induction false} ChooseThenRemoveRestores(e: Editor, p: Position)
    requires EditorValid(e) && InGrid(e.cells, p.x, p.y) && !e.end.added
    requires Top(e.cells[p.x][p.y]) != StartEndId
    requires e.start.added ==> e.start.position != p
    ensures AfterRemove(AfterChoose(e, p), p) == e
  {
    var c := AfterChoose(e, p);
    PushThenPopCell(e.cells, p.x, p.y, StartEndId);
    if e.start.added {
      assert c.cells == Pushed(e.cells, p.x, p.y, StartEndId);
      assert c.start.position != p && c.end.position == p;
    } else {
      assert c.cells == Pushed(e.cells, p.x, p.y, StartEndId);
    }
  }

  /**
   * The application: its grid, the message queue the search fills, the
   * input lock, the wall add/erase mode and the two endpoint records.
   */
  class Application {
    var grid: Grid
    var currentTime: int
    var inputLock: bool
    var messageQueue: seq<Message>
    var add: bool
    var start: Endpoint
    var end: Endpoint

    ghost function State(): Editor
      reads this, grid
    {
      Editor(start, end, grid.cells)
    }

    ghost predicate Valid()
      reads this, grid, grid.loadedMap
    {
      grid.Valid() && EditorValid(State())
    }

    /** A 20 x 20 grid of free ground, no map, an empty queue, nothing placed. */
    constructor ()
      ensures Valid() && fresh(grid)
      ensures grid.loadedMap == null && grid.rowNum == 20 && grid.colNum == 20
      ensures forall r, c :: 0 <= r < |grid.cells| && 0 <= c < |grid.cells[r]| ==> grid.cells[r][c] == [NoWallId]
      ensures currentTime == 0 && !inputLock && messageQueue == [] && add
      ensures start == NotAdded && end == NotAdded
    {
      currentTime := 0;
      inputLock := false;
      messageQueue := [];
      add := true;
      start := NotAdded;
      end := NotAdded;
      grid := new Grid(20, 20);
    }

    /** Loads `m` into the grid and places both endpoints where `m` has them. */
    method LoadMap(m: OccupancyMap)
      requires m.Valid() && m.InBounds(m.start) && m.InBounds(m.end)
      modifies this, grid
      ensures Valid() && grid == old(grid) && grid.loadedMap == m
      ensures grid.rowNum == m.size && grid.colNum == m.size
      ensures LoadedFrom(grid.cells, m.cells, m.start, m.end)
      ensures start == Endpoint(m.start, true) && end == Endpoint(m.end, true)
      ensures currentTime == old(currentTime) && inputLock == old(inputLock)
      ensures messageQueue == old(messageQueue) && add == old(add)
    {
      var startX, startY, endX, endY := grid.LoadMap(m);
      start := Endpoint(Position(startX, startY), true);
      end := Endpoint(Position(endX, endY), true);
      forall r, c | 0 <= r < |grid.cells| && 0 <= c < |grid.cells[r]|
        ensures grid.cells[r][c] != [] && grid.cells[r][c][0] == NoWallId
      {
        LoadedTops(grid.cells, m.cells, m.start, m.end, r, c);
      }
    }

    /**
     * Writes the grid and both endpoints into the map; refused (false,
     * nothing written) unless both endpoints are placed.
     */
    method SaveMap() returns (ok: bool)
      requires Valid()
      requires start.added && end.added ==> grid.loadedMap != null
      modifies grid.loadedMap
      ensures Valid()
      ensures ok <==> start.added && end.added
      ensures ok ==> && grid.loadedMap.cells == SavedMatrix(old(grid.loadedMap.cells), grid.cells)
                     && grid.loadedMap.start == start.position
                     && grid.loadedMap.end == end.position
                     && grid.loadedMap.size == old(grid.loadedMap.size)
      ensures !ok && grid.loadedMap != null ==>
                && grid.loadedMap.cells == old(grid.loadedMap.cells)
                && grid.loadedMap.start == old(grid.loadedMap.start)
                && grid.loadedMap.end == old(grid.loadedMap.end)
                && grid.loadedMap.size == old(grid.loadedMap.size)
    {
      if !start.added || !end.added {
        return false;
      }
      var hasMap := grid.SaveMap();
      var startPosition := start.position;
      var endPosition := end.position;
      grid.loadedMap.SetStartPosition(startPosition.x, startPosition.y);
      grid.loadedMap.SetEndPosition(endPosition.x, endPosition.y);
      ok := true;
    }

    method ChooseStartEnd(x: int, y: int)
      requires Valid() && grid.IsValidPosition(x, y)
      modifies this, grid
      ensures Valid() && grid == old(grid)
      ensures grid.rowNum == old(grid.rowNum) && grid.colNum == old(grid.colNum) && grid.loadedMap == old(grid.loadedMap)
      ensures State() == AfterChoose(old(State()), Position(x, y))
      ensures currentTime == old(currentTime) && inputLock == old(inputLock)
      ensures messageQueue == old(messageQueue) && add == old(add)
    {
      if !start.added {
        start := start.(position := Position(x, y));
        start := start.(added := true);
        grid.PushGridValue(start.position.x, start.position.y, StartEndId);
      } else if !end.added {
        end := end.(position := Position(x, y));
        end := end.(added := true);
        grid.PushGridValue(end.position.x, end.position.y, StartEndId);
      }
    }

    /**
     * Removes the endpoint at (x, y); `matched` is false, and nothing
     * changes, when neither record holds (x, y).
     */
    method RemoveStartEnd(x: int, y: int) returns (matched: bool)
      requires Valid()
      modifies this, grid
      ensures Valid() && grid == old(grid)
      ensures grid.rowNum == old(grid.rowNum) && grid.colNum == old(grid.colNum) && grid.loadedMap == old(grid.loadedMap)
      ensures matched <==> Matches(old(State()), Position(x, y))
      ensures State() == AfterRemove(old(State()), Position(x, y))
      ensures currentTime == old(currentTime) && inputLock == old(inputLock)
      ensures messageQueue == old(messageQueue) && add == old(add)
    {
      var pos := Position(x, y);
      if start.position != pos && end.position != pos {
        return false;
      }
      matched := true;
      if start.added && end.added {
        if start.position == pos {
          end, start := end.(position := start.position), start.(position := end.position);
        }
        var popped := grid.PopGridValue(end.position.x, end.position.y, StartEndId);
        end := end.(position := Position(-1, -1));
        end := end.(added := false);
      } else if start.added {
        var popped := grid.PopGridValue(start.position.x, start.position.y, StartEndId);
        start := start.(position := Position(-1, -1));
        start := start.(added := false);
      }
    }

    /** Pushes (add mode) or pops (erase mode) a wall at (x, y) when it is on the grid. */
    method ModifyWall(x: int, y: int)
      requires Valid()
      modifies grid
      ensures Valid()
      ensures grid.rowNum == old(grid.rowNum) && grid.colNum == old(grid.colNum) && grid.loadedMap == old(grid.loadedMap)
      ensures State() == AfterModifyWall(old(State()), add, Position(x, y))
    {
      if !grid.IsValidPosition(x, y) {
        return;
      }
      if add {
        grid.PushGridValue(x, y, WallId);
      } else {
        var popped := grid.PopGridValue(x, y, WallId);
      }
    }

    /** Chooses (add mode) or removes (erase mode) an endpoint at (x, y) when it is on the grid. */
    method ModifyStartEnd(x: int, y: int)
      requires Valid()
      modifies this, grid
      ensures Valid() && grid == old(grid)
      ensures grid.rowNum == old(grid.rowNum) && grid.colNum == old(grid.colNum) && grid.loadedMap == old(grid.loadedMap)
      ensures State() == AfterModifyStartEnd(old(State()), add, Position(x, y))
      ensures currentTime == old(currentTime) && inputLock == old(inputLock)
      ensures messageQueue == old(messageQueue) && add == old(add)
    {
      if !grid.IsValidPosition(x, y) {
        return;
      }
      if add {
        ChooseStartEnd(x, y);
      } else {
        var matched := RemoveStartEnd(x, y);
      }
    }

    /** Unplaces both endpoints, pushing free ground on the cells they held. */
    method Clear()
      requires Valid()
      modifies this, grid
      ensures Valid() && grid == old(grid)
      ensures grid.rowNum == old(grid.rowNum) && grid.colNum == old(grid.colNum) && grid.loadedMap == old(grid.loadedMap)
      ensures State() == AfterClear(old(State()))
      ensures currentTime == old(currentTime) && inputLock == old(inputLock)
      ensures messageQueue == old(messageQueue) && add == old(add)
    {
      if start.added {
        grid.PushGridValue(start.position.x, start.position.y, NoWallId);
        start := start.(position := Position(-1, -1));
        start := start.(added := false);
      }
      if end.added {
        grid.PushGridValue(end.position.x, end.position.y, NoWallId);
        end := end.(position := Position(-1, -1));
        end := end.(added := false);
      }
    }

    /**
     * A mouse press on cell (row, col), ignored while input is locked:
     * the add/erase mode becomes "the cell shows free ground", and the
     * endpoint button then places or removes an endpoint there.
     */
    method HandleMouseDown(row: int, col: int, button: int)
      requires Valid()
      requires !inputLock ==> grid.IsValidPosition(row, col)
      modifies this, grid
      ensures Valid() && grid == old(grid)
      ensures grid.rowNum == old(grid.rowNum) && grid.colNum == old(grid.colNum) && grid.loadedMap == old(grid.loadedMap)
      ensures old(inputLock) ==> add == old(add) && State() == old(State())
      ensures !old(inputLock) ==> add == (old(grid.GetGridValue(row, col)) == NoWallId)
      ensures !old(inputLock) ==>
                State() == if button == EndpointButton then AfterModifyStartEnd(old(State()), add, Position(row, col))
                           else old(State())
      ensures currentTime == old(currentTime) && inputLock == old(inputLock) && messageQueue == old(messageQueue)
    {
      if inputLock {
        return;
      }
      if grid.GetGridValue(row, col) == NoWallId {
        add := true;
      } else {
        add := false;
      }
      if button == EndpointButton {
        ModifyStartEnd(row, col);
      }
    }

    /**
     * One poll of the held keys and buttons, ignored while input is locked:
     * the clear keys clear the endpoints, then the save keys save the map
     * (the result says which message is shown: Some(true) saved, Some(false)
     * refused, None no save asked), then a held left button edits a wall at
     * (row, col).
     */
    method HandleInput(clearKeys: bool, saveKeys: bool, leftButton: bool, row: int, col: int)
      returns (saved: Option<bool>)
      requires Valid()
      requires !inputLock && saveKeys && !clearKeys && start.added && end.added ==> grid.loadedMap != null
      modifies this, grid, grid.loadedMap
      ensures Valid() && grid == old(grid)
      ensures grid.rowNum == old(grid.rowNum) && grid.colNum == old(grid.colNum) && grid.loadedMap == old(grid.loadedMap)
      ensures currentTime == old(currentTime) && inputLock == old(inputLock)
      ensures messageQueue == old(messageQueue) && add == old(add)
      ensures old(inputLock) ==> saved == None && State() == old(State())
      ensures !old(inputLock) ==>
                var cleared := if clearKeys then AfterClear(old(State())) else old(State());
                && saved == (if saveKeys then Some(cleared.start.added && cleared.end.added) else None)
                && State() == (if leftButton then AfterModifyWall(cleared, add, Position(row, col)) else cleared)
      ensures saved == Some(true) ==>
                && grid.loadedMap != null
                && grid.loadedMap.cells == SavedMatrix(old(grid.loadedMap.cells), old(grid.cells))
                && grid.loadedMap.start == start.position
                && grid.loadedMap.end == end.position
      ensures saved != Some(true) && grid.loadedMap != null ==>
                && grid.loadedMap.cells == old(grid.loadedMap.cells)
                && grid.loadedMap.start == old(grid.loadedMap.start)
                && grid.loadedMap.end == old(grid.loadedMap.end)
    {
      saved := None;
      if inputLock {
        return;
      }
      if clearKeys {
        Clear();
      }
      if saveKeys {
        var result := SaveMap();
        saved := Some(result);
      }
      if leftButton {
        ModifyWall(row, col);
      }
    }

    /**
     * One call from the main loop at time `now` (milliseconds).  Before
     * MessageInterval has passed since the last handled tick nothing happens.
     * Otherwise the tick is recorded and, if the queue is not empty, exactly
     * its oldest message is taken off and applied: LOCK and UNLOCK set and
     * clear the input lock, PUSH and POP push or pop-while-equal its tag on
     * its cell, anything else is dropped.  `ok` is false only when a POP
     * would empty a cell's stack (where the source fails); the grid is then
     * left as it was.
     */
    method HandleMessage(now: int) returns (ok: bool)
      requires Valid()
      requires now - currentTime >= MessageInterval && messageQueue != [] && Addresses(messageQueue[0]) ==>
                 grid.IsValidPosition(messageQueue[0].x, messageQueue[0].y)
      modifies this, grid
      ensures Valid() && grid == old(grid)
      ensures grid.rowNum == old(grid.rowNum) && grid.colNum == old(grid.colNum) && grid.loadedMap == old(grid.loadedMap)
      ensures start == old(start) && end == old(end) && add == old(add)
      ensures now - old(currentTime) < MessageInterval ==>
                && ok && currentTime == old(currentTime) && messageQueue == old(messageQueue)
                && inputLock == old(inputLock) && grid.cells == old(grid.cells)
      ensures now - old(currentTime) >= MessageInterval ==> currentTime == now
      ensures now - old(currentTime) >= MessageInterval && old(messageQueue) == [] ==>
                ok && messageQueue == [] && inputLock == old(inputLock) && grid.cells == old(grid.cells)
      ensures now - old(currentTime) >= MessageInterval && old(messageQueue) != [] ==>
                var m := old(messageQueue)[0];
                && messageQueue == old(messageQueue)[1..]
                && inputLock == (if m.action == Lock then true else if m.action == Unlock then false else old(inputLock))
                && (m.action == Push ==> ok && grid.cells == Pushed(old(grid.cells), m.x, m.y, m.param))
                && (m.action == Pop ==> (ok <==> PopWhile(old(grid.cells)[m.x][m.y], m.param) != []))
                && (m.action == Pop && ok ==> grid.cells == Popped(old(grid.cells), m.x, m.y, m.param))
                && (!(m.action == Push || (m.action == Pop && ok)) ==> grid.cells == old(grid.cells))
                && (m.action != Pop ==> ok)
    {
      ok := true;
      var elapsedTime := now - currentTime;
      if elapsedTime < MessageInterval {
        return;
      }
      currentTime := now;
      if messageQueue != [] {
        var message := messageQueue[0];
        messageQueue := messageQueue[1..];
        match message.action
        case Lock => inputLock := true;
        case Unlock => inputLock := false;
        case Pop => ok := grid.PopGridValue(message.x, message.y, message.param);
        case Push => grid.PushGridValue(message.x, message.y, message.param);
        case Other =>
      }
    }
  }
}
