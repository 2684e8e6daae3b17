# Sokoban rules engine, modelled in Dafny

This project models the rules engine of a Tkinter Sokoban application
(`tkinter_app/app.py`). The engine has two halves, and both read the same
level encoding: a list of rows of characters, where `#` is a wall, ` ` is
floor, `@` is the player, `$` is a box, `.` is a target and `*` is a box on a
target. Cells are (row, column). The moves are U = (-1, 0), D = (1, 0),
L = (0, -1) and R = (0, 1).

- `board.dfy` (module `Board`): the shared encoding.
  - Grids, positions and directions.
  - The corner-deadlock test.
  - The row-major cell scan that both halves use to find the player, the
    boxes and the targets.
- `problem.dfy` (module `Problem`): `SokobanProblem`, the solver's
  transition system.
  - A state is the player's cell plus the box tuple, kept as a sequence
    because the tuple's order is observable.
  - Every operation is a pure function of the level and the state:
    `update_valid_move`, `actions`, `result`, `cost`, `is_goal` and
    `heuristic`.
  - The scans with loops, `get_initial_state`, `actions` and `heuristic`,
    are methods proved equal to those functions.
  - A solution is a path whose every action is one that `actions` offers,
    ending in a goal. The search algorithms themselves are not modelled.
- `game.dfy` (module `Game`): `SokobanGame`, a class whose `data` grid its
  methods edit in place, and whose `targets` are the `.` cells recorded when
  the level was loaded.
  - `GameMove` is the specification of one `move_player_and_box` call on the
    grid.
  - `Banner` is the message shown afterwards: success, deadlock or none.
- `replay.dfy` (module `Replay`): the link between the two halves.
  - The interface replays a solver path through `SokobanGame.move`.
  - Every action the solver offers moves the game's player.
  - After each such move, the game's grid shows the solver's next state.
  - Replaying a solution fills every recorded target with `*`.

Throughout, the player and every box are assumed walled in
(`Board.PiecesEnclosed`). Each of them lies in a walled-in region
(`Board.WalledIn`): a set of non-wall cells whose four neighbours are inside
the grid, and which holds every non-wall neighbour of its cells. The source
indexes those neighbours without a bounds check. Walking and pushing never
leave such a region, so the cells it indexes always exist. Floor outside the
walls, as in an indented outline, lies outside the region and does not matter
(`Board.IndentedOutlineEnclosed`).

Behaviour reproduced as the code has it:

- The solver's corner test (`is_deadlock`) does not consult targets.
  - A push into a walled corner is refused even when that corner is a target.
  - So the one-box corridor `#@$.#`, whose only target sits in a walled
    corner, has no solver solution (`Problem.CornerTargetUnsolvable`).
  - The game performs the same push and completes the level
    (`Replay.GamePushesIntoCorner`).
- `*` cells count as boxes (app.py:90) but not as targets (app.py:98).
  - A level with as many boxes as target cells and at least one `*`
    therefore has more boxes than solver targets, and no state of it is a
    goal (`Problem.MoreBoxesThanTargets`).
- Loading performs no validation: there is no box/target count check and no
  error for a malformed level.
- `get_initial_state` keeps the last `@`, but `get_player_positions` finds
  the first one.
  - The replay theorems therefore assume a level with exactly one player.
- The replay theorems also assume a well-formed level: every cell holds one
  of the six level characters (`Replay.WellFormed`). The game's cell tests
  would treat any other character as free floor.
- The game side rejects no push for deadlock. It only shows a banner when a
  `$` (never a `*`) sits in a corner.

## Model

| member | source | states |
|---|---|---|
| `Board.EnclosedStep` | tkinter_app/app.py:118-133 | a walled-in cell is a non-wall grid cell, its neighbour in any direction is in the grid, and a neighbour that is not a wall is walled in too |
| `Board.IndentedOutlineEnclosed` | tkinter_app/app.py:118-133 | a level with floor on the grid's border, outside its walls, still has its player and box walled in |
| `Board.CornerDeadlock` | tkinter_app/app.py:106-112 | the four wall-pair corner test holds iff (wall above or below) and (wall left or right); targets play no part |
| `Board.CellsOfMember` | tkinter_app/app.py:94-100 | the row-major scan collects exactly the cells holding one of the given characters |
| `Board.GetTargetsPositions` | tkinter_app/app.py:211-217 | the nested loop returns the row-major list of `.` cells, and a cell is in it iff it holds `.` (so a `*` cell is not a target) |
| `Problem.Remove` | tkinter_app/app.py:132 | `list.remove` deletes the first occurrence of the element and keeps the rest in order |
| `Problem.RemoveDistinct` | tkinter_app/app.py:130-132 | removing a present element from a duplicate-free tuple shortens it by one, keeps it duplicate-free and drops exactly that element |
| `Problem.RemoveAppend` | tkinter_app/app.py:130-132 | append-then-remove equals remove-then-append, so the pushed box goes to the end of the tuple |
| `Problem.PushKeepsValid` | tkinter_app/app.py:125-133 | a legal push gives a state with player and boxes on non-wall cells, distinct boxes, the player on no box, and the same box count |
| `Problem.UpdateValidMove` | tkinter_app/app.py:118-137 | the transition keeps the state invariant and the box count, and either returns the state unchanged or moves the player one step |
| `Problem.WalkMove` | tkinter_app/app.py:121-124 | onto a non-wall cell without a box the player steps and the box tuple is unchanged |
| `Problem.PushMove` | tkinter_app/app.py:125-133 | a legal push takes the player to the box's cell and moves that box one step to the end of the tuple, every other box staying |
| `Problem.NoOpIffBlocked` | tkinter_app/app.py:134-137 | the state comes back unchanged iff the way is walled or the push is blocked by a wall, a box or a corner |
| `Problem.Result` | tkinter_app/app.py:150-153 | applying an action keeps the invariant and the box count, and changes nothing exactly when the move is blocked |
| `Problem.EveryMoveTried` | tkinter_app/app.py:142 | the move table lists all four directions, in the order U, D, L, R |
| `Problem.LegalAmong` | tkinter_app/app.py:144-147 | the filter keeps exactly the directions whose transition changes the state, in rank order when the input is rank-ordered |
| `Problem.LegalActions` | tkinter_app/app.py:140-148 | an action is offered iff its move is not blocked, and the actions come in the order U, D, L, R |
| `Problem.Actions` | tkinter_app/app.py:140-148 | the loop over the move table returns exactly the offered actions |
| `Problem.ListedActionMoves` | tkinter_app/app.py:146-153 | an offered action never returns the input state, and moves the player one step its way |
| `Problem.Cost` | tkinter_app/app.py:155-156 | every step costs 1; its consequence is proved in `Problem.PathCostIsLength` |
| `Problem.Run` | tkinter_app/app.py:150-153 | applying actions one after another keeps the state invariant and the box count |
| `Problem.PathCostIsLength` | tkinter_app/app.py:155-156 | with unit costs, a path costs its number of actions |
| `Problem.IsGoal` | tkinter_app/app.py:114-116 | the goal test holds iff every box is a target and every target holds a box |
| `Problem.MinDistance` | tkinter_app/app.py:163-164 | the nearest-target distance is at most every box-to-target Manhattan distance and equals one of them |
| `Problem.HeuristicValue` | tkinter_app/app.py:158-165 | the heuristic is a natural number, and is zero iff every box lies on a target |
| `Problem.ZeroDistanceOnTarget` | tkinter_app/app.py:163-164 | a box's nearest-target distance is zero iff the box is on a target |
| `Problem.GoalHasZeroHeuristic` | tkinter_app/app.py:158-165 | the heuristic of a goal state is zero |
| `Problem.Heuristic` | tkinter_app/app.py:158-165 | the accumulating loop returns the sum over boxes of each box's nearest-target distance |
| `Problem.InitialState` | tkinter_app/app.py:83-92 | there is an initial state iff the grid has an `@`, and its player is an `@` cell after every other `@` in row-major order |
| `Problem.GetInitialState` | tkinter_app/app.py:83-92 | the scan returns the last `@` in row-major order (none without one) and every `$` and `*` cell in row-major order |
| `Problem.InitialStateValid` | tkinter_app/app.py:83-92 | the initial state's boxes are distinct and exactly the `$` and `*` cells, the player is on none of them, and on a level whose player and boxes are walled in it satisfies the state invariant |
| `Problem.StarIsBoxNotTarget` | tkinter_app/app.py:90-98 | a `*` cell is collected as a box and not as a target |
| `Problem.SetOfCard` | tkinter_app/app.py:116 | collecting a tuple into a set never grows it, and keeps every element of a duplicate-free tuple |
| `Problem.MoreBoxesThanTargets` | tkinter_app/app.py:114-116 | a state with more (distinct) boxes than targets is never a goal |
| `Problem.Solves` | tkinter_app/app.py:114-153 | every action of a solution is offered in the state reached so far, and its last state passes `is_goal` |
| `Problem.OfferedLast` | tkinter_app/app.py:140-153 | the prefix of an offered path is offered, and its last action is offered in the state the prefix reaches |
| `Problem.SolvesIffOfferedGoal` | tkinter_app/app.py:114-153 | a path solves the level iff each of its actions is offered in turn and the state it reaches is a goal; the box count is kept |
| `Problem.CorridorAllBlocked` | tkinter_app/app.py:129 | in the corridor `#@$.#` every direction is blocked: the push right is refused by the corner test |
| `Problem.CornerTargetUnsolvable` | tkinter_app/app.py:106-137 | the corridor's target sits in a corner, the solver offers no action, and no path solves the level |
| `Game.Free` | tkinter_app/app.py:202-203 | the game may step onto a cell iff it is no wall and holds no box (`$` or `*`) |
| `Game.FirstPlayer` | tkinter_app/app.py:205-209 | the player found is an `@` cell before every other `@` in row-major order, and there is none iff the grid has no `@` |
| `Game.GameMove` | tkinter_app/app.py:240-267 | a move keeps the grid's shape, and reports a move exactly when the grid changed |
| `Game.BannerAfter` | tkinter_app/app.py:272-280 | success shows iff something moved and every target holds `*`; deadlock iff something moved, not every target holds `*`, and a `$` is cornered |
| `Game.RelocatedKeepsLayout` | tkinter_app/app.py:225-233 | moving a symbol between non-wall cells changes no wall and no row length |
| `Game.GameMoveKeepsLayout` | tkinter_app/app.py:240-269 | a move changes no wall and no row length |
| `Game.GameMoveKeepsEnclosed` | tkinter_app/app.py:240-269 | a move puts the player and a pushed box only on walled-in cells, so every piece stays walled in |
| `Game.GameWalk` | tkinter_app/app.py:248-250 | a step onto a cell that is not `#`, `$` or `*` puts `@` there, restores the old cell to `.` on a recorded target and ` ` elsewhere, and changes nothing else |
| `Game.GamePush` | tkinter_app/app.py:251-267 | a push puts `@` on the box's cell, restores the player's old cell, writes `$` over ` ` or `*` over `.` beyond, and changes nothing else |
| `Game.GameBlocked` | tkinter_app/app.py:251-269 | a wall ahead, or a box with `#`, `$` or `*` beyond, leaves the grid unchanged and reports no move |
| `Game.SokobanGame.constructor` | tkinter_app/app.py:179-180 | a loaded level is kept as the grid, and its `.` cells are recorded as the targets |
| `Game.SokobanGame.CheckAllBoxesForDeadlock` | tkinter_app/app.py:194-200 | the scan reports a deadlock iff some `$` cell (never a `*` one) passes the corner test |
| `Game.SokobanGame.GetPlayerPositions` | tkinter_app/app.py:205-209 | the scan returns the first `@` in row-major order, or none |
| `Game.SokobanGame.IsCompleted` | tkinter_app/app.py:219-223 | the level is complete iff every recorded target cell holds `*` |
| `Game.SokobanGame.UpdatePosition` | tkinter_app/app.py:225-233 | the new grid is the old one with `symbol` at the destination and the vacated cell showing `.` if it is a recorded target, else ` ` |
| `Game.SokobanGame.PlaceBox` | tkinter_app/app.py:262-265 | the pushed box is written as `$` over ` ` and `*` over `.` |
| `Game.SokobanGame.Advance` | tkinter_app/app.py:240-267 | the in-place edits produce exactly the grid and moved flag of one specified move |
| `Game.SokobanGame.MovePlayerAndBox` | tkinter_app/app.py:240-280 | the grid becomes the specified move's result, the player and boxes stay walled in with targets unchanged, and the banner is success if anything moved and every target holds `*`, else deadlock if a `$` is cornered, else none |
| `Game.SokobanGame.Move` | tkinter_app/app.py:284-286 | a direction letter moves by its offset, with the same grid and banner guarantees |
| `Replay.PlayerFound` | tkinter_app/app.py:205-209 | on a grid showing a solver state, the game finds the solver's player |
| `Replay.WalkedGridShows` | tkinter_app/app.py:248-250 | the cell edits of a walk keep the grid well-formed, showing the walked-to state, with targets marked |
| `Replay.ReplayWalk` | tkinter_app/app.py:248-250 | a walk the solver allows is a walk in the game, and the new grid shows the solver's new state |
| `Replay.PushedGridShows` | tkinter_app/app.py:259-265 | the cell edits of a push keep the grid well-formed, showing the pushed state, with targets marked |
| `Replay.ReplayPush` | tkinter_app/app.py:251-267 | a push the solver allows is a push in the game, and the new grid shows the solver's new state |
| `Replay.ReplayStep` | tkinter_app/app.py:284-286 | every action the solver offers moves the game's player, and the grid then shows the solver's result state |
| `Replay.GameRun` | tkinter_app/app.py:376-381 | replaying a sequence of moves keeps the level's walls and row lengths, and keeps the player and boxes walled in |
| `Replay.ReplayPath` | tkinter_app/app.py:376-381 | replaying an offered path keeps the game's grid showing the solver's state at every step |
| `Replay.GoalTargetsBoxed` | tkinter_app/app.py:219-223 | a grid showing a goal state has `*` on every recorded target |
| `Replay.GameRunLast` | tkinter_app/app.py:376-381 | replaying a non-empty path is replaying all but its last action and then making that move |
| `Replay.LastStepMoves` | tkinter_app/app.py:376-381 | the last action of a replayed offered path moves the game's player, from the grid the earlier actions left |
| `Replay.SolutionCompletesGame` | tkinter_app/app.py:219-280 | replaying a solution ends with every recorded target holding `*`; the last move of a non-empty solution moves, so the banner after it is the success banner |
| `Replay.LoadedLevelMirrors` | tkinter_app/app.py:83-100 | a freshly loaded single-player level shows the solver's initial state, with its `.` cells as the targets |
| `Replay.SolverSolutionCompletesLevel` | tkinter_app/app.py:369-381 | on a loaded single-player level, replaying any solver solution completes the game |
| `Replay.GamePushesIntoCorner` | tkinter_app/app.py:256-267 | on the corridor the solver offers nothing, yet the game pushes the box onto the cornered target and completes the level |

## Left out

- The Tkinter interface is not modelled: asset loading, canvases, menus, the button handlers, `update_ui`, the key bindings, `messagebox` and `time.sleep`. The banners are modelled as the `Banner` value that `MovePlayerAndBox` returns.
- Level file loading (`Level.load_level`) is file I/O, so the level is an input grid.
- The `simpleai` search algorithms are not modelled. They are a foreign library whose code is not part of this model. Only the `Solves` predicate says what a valid solution is.
- The solver is modelled only when handed a freshly loaded level. The interface hands it the game's current grid. After some moves that grid's `.` cells no longer coincide with the game's recorded targets, and that divergence is not modelled.
- Python's negative-index wraparound and `IndexError` on ragged rows are left out. Operations that index neighbours require the player and boxes to be walled in (`Board.PiecesEnclosed`) instead. A level where they can reach the grid's edge is outside every theorem. `Board.IsWall` treats an off-grid cell as not a wall.
- `Game.SokobanGame.Advance`: without an `@` on the grid, the source raises `TypeError` when unpacking the missing position. The model leaves the grid unchanged and reports no move instead.
- `Problem.HeuristicValue`: the source's `min` of an empty list raises `ValueError`. The model requires a non-empty target list whenever there are boxes, so that exception path is not modelled.
- `Problem.GetInitialState`: no `@` makes the source return a `None` player, modelled as `None`. Every later solver operation needs a player, so `InitialState` is `None` for such a level.
- `SokobanProblem.canMove` (app.py:102-104) is never called and is not modelled. The solver's wall test is inlined in `update_valid_move`.
- `print("Cannot push box")` and the other console output are not modelled.
