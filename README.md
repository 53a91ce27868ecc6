# Pathfinding grid editor: a Dafny model

`gui.py` is the front end of a grid pathfinding demo. It shows a square grid
of cells. Each cell keeps a stack of small integer tags:

- 0: free ground
- 1: wall
- 2: start/end
- 3: in queue
- 4: popped

The top tag is what the cell shows. The user builds and removes walls, and
places and removes the start and goal. The background search thread sends
messages that lock and unlock input and push or pop tags on cells. The
grid is loaded from an occupancy map and can be saved back into it.

This project models that core in Dafny:

- `cell_stack.dfy` (module `CellStack`) models a cell's tag stack as a
  value. It defines the top and the "pop while the top equals v" operation,
  with its characterisation and round-trip lemmas.
- `occupancy_map.dfy` (module `MapModel`) holds the map object that `gui.py`
  receives from the search module: its size, matrix, start and end. It has
  the two setters that `gui.py` calls.
- `grid.dfy` (module `GridModel`) covers the rest of the grid layer:
  - `create_grid`;
  - the `Grid` class, with its bounds check, push, pop-while-equal, top,
    `load_map` and `save_map`;
  - pure specifications of the grid that loading builds and of the matrix
    that saving writes;
  - the load-then-save round trip.
- `application.dfy` (module `AppModel`) models messages, the two endpoint
  records and the `Application` class. That class covers the operations
  below:
  - message handling;
  - choosing, removing and clearing endpoints;
  - wall editing;
  - one poll of mouse-down and held-key input;
  - loading and saving.

  Each editing method is proved to change the state exactly as a pure
  function on an `Editor` value says. The contracts of those functions
  carry the invariant: records are consistent, placed endpoints lie on the
  grid, and every stack keeps its free-ground base.

Behaviour worth knowing, which the model follows:

- `pop_grid_value` pops while the top equals the tag. If the stack empties,
  the next `top()` raises `IndexError`. The model returns `ok == false` in
  that case and leaves the cell unchanged. Every stack starts with free
  ground at its bottom, and only that tag can be on every level. So popping
  a wall or an endpoint tag never fails. Only popping tag 0 off a stack of
  nothing but 0s does.
- `remove_start_end` compares positions without looking at `added`. With
  only the start placed, the end record still holds (-1, -1). Removing at
  (-1, -1) would therefore unplace the start
  (`AppModel.RemoveAtUnplacedPosition`). `modify_start_end` rejects
  off-grid positions first, so the user cannot reach this case.
- `Grid.save_map` and `remove_start_end` return `False` on their refusal
  paths and fall off the end (`None`) on success. Both values are falsy, and
  no caller reads either result (`gui.py:171`, `gui.py:271`). The model's
  `true` on success is a distinction the source does not make (see
  "Left out").
- The instruction dialog (`gui.py:184-191`) describes the buttons the other
  way round from the code. The code places endpoints with button 3, the
  right button (`gui.py:218-219`). It edits walls with a held left button
  (`gui.py:287-288`). The model follows the code.

## Model

| member | source | states |
|---|---|---|
| CellStack.PopWhile | gui.py:104-106 | Popping while the top is `v` leaves a prefix of the stack. That prefix is empty or its top is not `v`, and everything removed was `v`. |
| CellStack.PopWhileIsMaximalRun | gui.py:104-106 | Pop-while-equal removes exactly the maximal run of `v` on top. Any prefix that has a top other than `v` and only `v` above it is the result. |
| CellStack.PopWhileNoop | gui.py:104-106 | A stack whose top is not `v` is left unchanged by popping `v`. |
| CellStack.PopWhileDrains | gui.py:45-49 | The stack empties, which is where the source's `top()` fails, if and only if every entry equals `v`. |
| CellStack.PushThenPopWhile | gui.py:101-106 | On a non-empty stack, pushing `v` and then popping while the top is `v` restores the stack if and only if the stack did not already show `v`. On an empty stack the pop drains it, which stands for the source's `IndexError`. |
| GridModel.Pushed | gui.py:101-102 | Pushing touches only cell (x, y). That cell gains `v` on top and shows `v`. Intact bases stay intact. |
| GridModel.Popped | gui.py:104-106 | Popping touches only cell (x, y), which becomes its pop-while-equal result. On intact bases, popping any tag other than free ground keeps the bases intact. The cell then no longer shows that tag. |
| GridModel.PushThenPopCell | gui.py:101-106 | On the whole grid, a push followed by a pop of the same tag at a non-empty cell restores the grid if and only if that cell did not already show the tag. An empty cell is drained instead (the source's `IndexError`). |
| GridModel.CreateGrid | gui.py:20-29 | Builds `row_num` rows of `col_num` cells (none for a negative count, as `range` does). Every cell holds exactly `[default]`. |
| GridModel.Grid.constructor | gui.py:61-67 | A new grid has the given dimensions, no map, and free ground in every cell. |
| GridModel.Grid.IsValidPosition | gui.py:114-117 | True if and only if `0 <= x < row_num` and `0 <= y < col_num`. On a well-shaped grid, this means exactly that the cell exists. |
| GridModel.Grid.GetGridValue | gui.py:108-109 | Returns the tag the cell shows. A cell with nothing stacked on its base shows free ground. |
| GridModel.Grid.PushGridValue | gui.py:101-102 | The cells become `Pushed(old cells, x, y, value)`. The dimensions and map are unchanged, and the grid invariant is kept. |
| GridModel.Grid.PopGridValue | gui.py:104-106 | The loop pops exactly the maximal run of `value`. `ok` is true if and only if the stack survives. On success the cells become `Popped(...)`; otherwise nothing changes. Any tag other than free ground always succeeds. |
| GridModel.PushWalls | gui.py:73-77 | The nested loop puts a wall over free ground exactly on the cells whose map entry is 1. Every other cell holds bare ground. |
| GridModel.LoadedGrid | gui.py:73-82 | Composes the terrain layer and the four pop/push steps at start and end into the grid that `LoadedFrom` describes. |
| GridModel.Grid.LoadMap | gui.py:69-84 | Records the map and takes its size as both dimensions. The cells are exactly `LoadedFrom(map, start, end)`. Returns the endpoint coordinates. |
| GridModel.LoadedTops | gui.py:69-84 | After a load, endpoints show the start/end tag. Every other cell shows a wall if and only if its map entry is 1, and free ground otherwise. Every stack keeps its base. |
| GridModel.Grid.SaveMap | gui.py:86-95 | Without a map it returns false and writes nothing. Otherwise each entry becomes 0 under a free-ground top and 1 under a wall top, and keeps its old value under any other top. The map's size, start and end are untouched. |
| GridModel.LoadThenSaveRoundTrip | gui.py:69-95 | Saving a freshly loaded grid returns the map unchanged if and only if every entry off the two endpoints is 0 or 1. |
| MapModel.OccupancyMap.SetStartPosition | gui.py:174 | Records the new start. The matrix, size and end are unchanged. |
| MapModel.OccupancyMap.SetEndPosition | gui.py:175 | Records the new end. The matrix, size and start are unchanged. |
| AppModel.AfterChoose | gui.py:227-237 | Places the start if it is free, else the end if it is free. The placed cell shows the start/end tag and no other cell changes. Once both are placed, nothing changes. Keeps the editor invariant. |
| AppModel.Application.ChooseStartEnd | gui.py:227-237 | The state after the method is `AfterChoose` of the state before it. Queue, lock, mode and time are unchanged. |
| AppModel.AfterRemove | gui.py:239-255 | A position that neither record holds changes nothing. With both placed, the clicked endpoint goes and the other remains as the start; its cell stops showing the tag and nothing else changes. With only the start placed, the start goes. Keeps the editor invariant. |
| AppModel.Application.RemoveStartEnd | gui.py:239-255 | `matched` is true if and only if a record holds (x, y). The state after is `AfterRemove` of the state before. |
| AppModel.RemoveKeepsOtherAsStart | gui.py:244-251 | With both placed, whichever is clicked, the survivor is the start. It is the old end if the start was clicked and the old start otherwise. |
| AppModel.RemoveAtUnplacedPosition | gui.py:239-255 | With only the start placed, removing at (-1, -1) unplaces it. `modify_start_end` at (-1, -1) changes nothing. |
| AppModel.ChooseThenRemoveRestores | gui.py:227-255 | Choosing a fresh cell and then removing it restores the editor state exactly, when the cell did not already show the start/end tag. |
| AppModel.AfterModifyWall | gui.py:257-263 | Off the grid nothing changes. Otherwise only that cell changes: it shows a wall after add, and does not show one after erase. The endpoints are untouched. |
| AppModel.Application.ModifyWall | gui.py:257-263 | The state after is `AfterModifyWall` under the current add/erase mode. |
| AppModel.AfterModifyStartEnd | gui.py:265-271 | Off the grid nothing changes. Keeps the editor invariant. |
| AppModel.Application.ModifyStartEnd | gui.py:265-271 | The state after is `AfterModifyStartEnd`: off-grid refusal, otherwise choose in add mode or remove in erase mode. |
| AppModel.AfterClear | gui.py:308-316 | Both records become unplaced, and each placed endpoint's cell shows free ground. Every other cell is unchanged. Keeps the editor invariant. |
| AppModel.Application.Clear | gui.py:308-316 | The state after is `AfterClear` of the state before. |
| AppModel.Application.constructor | gui.py:140-155 | A 20 x 20 grid of free ground with no map. The time is 0, input is unlocked, the queue is empty, the mode is add, and both records are unplaced. |
| AppModel.Application.LoadMap | gui.py:160-166 | The grid is the loaded grid of the map. Both records are placed at the map's endpoints. |
| AppModel.Application.SaveMap | gui.py:168-176 | Succeeds if and only if both endpoints are placed. It then writes `SavedMatrix` and the two endpoint positions into the map. Otherwise nothing is written. |
| AppModel.Application.HandleMouseDown | gui.py:212-219 | Ignored while input is locked. Otherwise the mode becomes "the cell shows free ground". Button 3 then applies `AfterModifyStartEnd`. |
| AppModel.Application.HandleInput | gui.py:273-288 | Ignored while locked. Otherwise it clears, then saves (reporting whether the save succeeded), then edits a wall under a held left button, each as its specification function says. |
| AppModel.Application.HandleMessage | gui.py:290-306 | Before 100 ms have passed, nothing happens. Otherwise the time is recorded and only the oldest message is dequeued. LOCK and UNLOCK set and clear the lock. PUSH and POP act on the cell as `Pushed` and `Popped`. Other actions are dropped. |

## Left out

- Drawing and windows are not modelled: `Window`, `Color`, `render`, `run`, `init_pygame`, the tkinter prompts, and the frame clock.
- `calculate_rect_size` and `get_item_at_mouse_position` are not modelled. They are floating-point pixel arithmetic, so the model takes the row and column directly.
- The search thread, `astar.SearchThread` and the search itself are not modelled: `astar.py` is not part of this model. The Enter key that starts the search is left out with it.
- The message queue is a sequence that the model reads. The search thread that fills it, and the thread safety of `queue.Queue`, are not modelled.
- `MapModel.OccupancyMap.SetStartPosition` and `SetEndPosition` are assumed to be plain assignments, because their source is not part of this model. The same holds for the map's file reading and writing.
- Key and mouse polling (`pygame.event.get`, `pygame.key.get_pressed`, `pygame.mouse.get_pressed`) and `pygame.time.get_ticks` are not modelled; they become parameters.
- Negative and out-of-range coordinates are excluded by `requires` wherever the source indexes a cell without a bounds check. Python would either wrap around or raise `IndexError` there.
- GridModel.Grid.SaveMap: the source returns `None` on success and `False` without a map, and its only caller (`gui.py:171`) ignores the result. The model's `hasMap` distinguishes the two cases, which the source never does.
- AppModel.Application.RemoveStartEnd: the source returns `False` when no record matches and `None` otherwise, and `modify_start_end` (`gui.py:271`) ignores the result. The model's `matched` distinguishes the two cases, which the source never does.
- AppModel.Application.SaveMap: its `requires` excludes saving with both endpoints placed and no map loaded. In the source, `grid.save_map()` then returns `False`, which is ignored, and `set_start_position` is called on `None` (`gui.py:174`), raising `AttributeError`. The program always loads a map before its main loop (`gui.py:356-357`), so that path is not modelled. `AppModel.Application.HandleInput` inherits the same `requires` for its save step.
- AppModel.Application.HandleMouseDown: its `requires` puts the clicked cell on the grid. In the source, a click in the 5-pixel margin strip at the right or bottom edge of the 800 x 600 window maps to column or row 20 (`gui.py:223-224`; for example `795 // 39.75 == 20`). `get_grid_value` then raises `IndexError` (`gui.py:109`). The user can reach this crash, but the pixel arithmetic that produces the index is not modelled.
- GridModel.Grid.PopGridValue: when a pop would empty a stack, the source raises `IndexError` and the stack stays empty. The model reports `ok == false` and keeps the grid as it was.
- Messages whose `param` is `None` are not modelled (the tag is an `int`). Any action string other than the four known ones becomes `Other`.
- `get_grid_item`, `rect_size` and `margin` are not modelled. They only serve drawing and pixel lookup.
- The dialogs of `prompt_message` are not modelled: the warning shown when both endpoints are already chosen, and the save success and error dialogs. `HandleInput` returns which message would be shown.
- AppModel.AfterModifyStartEnd: its own contract states only the invariant and the off-grid case. What choosing and removing do is stated by `AfterChoose` and `AfterRemove`, which it calls.
