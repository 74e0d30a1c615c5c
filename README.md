# Maze simulator controller: pose tracker, maze painting and session counters

This project models the core of the `Controller` of a maze-exploring robot's
simulator (`Algorithm/src/simulator/Controller.java`) in Dafny and proves
properties of it.

- **Maze view.** The view is a grid of colours, `mazeGrids[row][col]`, with
  `MAP_WIDTH = 20` rows and `MAP_LENGTH = 15` columns. Arena cell `(x, y)`, with
  `y` counted upwards, is drawn at row `19 - y` and column `x`. The source does
  not define the two constants; they are inferred from the corner ranges in
  `resetMaze` and from the `19 - j` row transform in `updateMazeColor`.
- **Pose tracker** (`Simulator.Controller`). This class holds the view and the
  pose: `posX`, `posY`, and an orientation that is `None` until the first
  successful reset. Its methods are `ResetRobotInMaze`, `ResetMaze`,
  `TurnRobotRight`, `TurnRobotLeft`, `MoveRobotForward`, `UpdateMazeColor` and
  `MarkFastestPath`.
  - Each method changes the view array in place.
  - Each method states the whole new view, cell by cell, as a function of the
    old view.
  - `updateMazeColor` reads the explorer's map `mazeRef`, indexed `[x][y]`. In
    the model it is an `array2<int>` parameter. So are the explorer's constants
    `START`, `GOAL`, `IS_EMPTY` and `IS_OBSTACLE`.
  - The source runs the same repaint four times, once per orientation. The
    model runs it once, using the orientation's forward vector
    (`Pose.Forward`). The cells and colours are the same.
- **Map editing** (`MapEditor`). This covers toggling a map cell between free
  (green) and obstacle (red), clearing every obstacle, and the loop that
  writes the arena descriptor. The descriptor has one line per arena row,
  with `'1'` for an obstacle and `'0'` otherwise, and a separator after each
  line.
- **Session counters** (`Session`, `Coverage`).
  - The exploration countdown and its time-budget monitor. On each tick, the
    monitor compares the seconds left with `steps * (1/speed) + 10`.
  - The fastest-path countdown. Its remaining and elapsed seconds always add up
    to its limit.
  - The coverage count: the number of non-black cells.
- **Initial position message** (`Handshake`). This is the `"x,y"` split and
  `Integer.parseInt` used in the robot handshake.

The source's `NullPointerException` and `ArrayIndexOutOfBoundsException`
cases become `requires` clauses. These are: turning or moving before the first
reset, moving the footprint off the arena, and indices outside the arrays
passed in.

## Model

| member | source | states |
|---|---|---|
| `Pose.TurnedRight` | Algorithm/src/simulator/Controller.java:428-453 | a right turn always changes the orientation and rotates the forward vector a quarter turn clockwise, (x, y) to (y, -x): NORTH→EAST→SOUTH→WEST→NORTH |
| `Pose.TurnedLeft` | Algorithm/src/simulator/Controller.java:510-535 | a left turn is undone by a right turn and rotates the forward vector a quarter turn anticlockwise, (x, y) to (-y, x) |
| `Pose.LeftUndoesRight` | Algorithm/src/simulator/Controller.java:510-535 | a right turn followed by a left turn restores the orientation |
| `Pose.FourTurnsRestore` | Algorithm/src/simulator/Controller.java:510-535 | four right turns, or four left turns, restore the orientation |
| `Pose.Forward` | Algorithm/src/simulator/Controller.java:455-508 | a forward move changes exactly one coordinate by exactly one |
| `Pose.FrontInFootprint` | Algorithm/src/simulator/Controller.java:189-202 | the pink front cell lies inside the 3×3 footprint and is never its centre |
| `Simulator.Controller.constructor` | Algorithm/src/simulator/Controller.java:43-44 | before any reset the position is (0, 0) and no orientation is set |
| `Simulator.Controller.ResetMaze` | Algorithm/src/simulator/Controller.java:212-221 | every cell becomes black, except rows 0–2 × cols 12–14 and rows 17–19 × cols 0–2, which become orange |
| `Simulator.Controller.PaintFootprint` | Algorithm/src/simulator/Controller.java:459-468 | the 3×3 footprint becomes cyan with the front cell pink; no other cell changes |
| `Simulator.Controller.ResetRobotInMaze` | Algorithm/src/simulator/Controller.java:176-210 | if x<2, x>14, y<2 or y>9, the maze is blanked as by `ResetMaze` and the pose is unchanged; otherwise the pose becomes (x-1, y-1) facing NORTH and only the footprint is repainted (front pink, rest cyan) |
| `Simulator.Controller.UpdateMazeColor` | Algorithm/src/simulator/Controller.java:537-560 | obstacles become red; sensed-empty cells outside the footprint become orange in the START/GOAL zones and green elsewhere; footprint cells that are sensed empty, and cells that are neither sensed empty nor obstacles, are unchanged |
| `Simulator.Controller.RepaintFront` | Algorithm/src/simulator/Controller.java:432-450 | in place, the old front cell becomes cyan and the new one pink; nothing else changes |
| `Simulator.Controller.TurnRobotRight` | Algorithm/src/simulator/Controller.java:428-453 | the orientation turns right; the position is unchanged; the view is the front repaint followed by reconciliation |
| `Simulator.Controller.TurnRobotLeft` | Algorithm/src/simulator/Controller.java:510-535 | the orientation turns left; the position is unchanged; the view is the front repaint followed by reconciliation |
| `Simulator.Controller.MoveRobotForward` | Algorithm/src/simulator/Controller.java:455-508 | one coordinate moves by one in the facing direction; the orientation is unchanged; the new footprint is cyan with one pink front cell, except cells the explorer has sensed as obstacles, which are red |
| `Simulator.Controller.MarkFastestPath` | Algorithm/src/simulator/Controller.java:589-595 | exactly the cells on the path become yellow |
| `Simulator.RightThenLeftRestoresPose` | Algorithm/src/simulator/Controller.java:428-535 | a right turn followed by a left turn leaves the orientation and the position as they were |
| `Simulator.FourLeftsRestorePose` | Algorithm/src/simulator/Controller.java:510-535 | four left turns leave the orientation and the position as they were |
| `MapEditor.Toggled` | Algorithm/src/simulator/Controller.java:120-126 | a toggled cell is red exactly when it was green, and green otherwise |
| `MapEditor.ToggleTwice` | Algorithm/src/simulator/Controller.java:120-126 | toggling a free or obstacle cell twice restores it |
| `MapEditor.ToggleObstacle` | Algorithm/src/simulator/Controller.java:120-126 | only cell (x, y) changes, and it changes as `Toggled` says |
| `MapEditor.Cleared` | Algorithm/src/simulator/Controller.java:164-166 | a cleared cell is never red; red becomes green and other colours are kept |
| `MapEditor.ClearIdempotent` | Algorithm/src/simulator/Controller.java:161-168 | clearing twice gives the same result as clearing once |
| `MapEditor.ClearMap` | Algorithm/src/simulator/Controller.java:161-168 | every red cell in the 20×15 area becomes green; nothing else changes |
| `MapEditor.LineOf` | Algorithm/src/simulator/Controller.java:140-149 | cuts line y, separator included, out of a descriptor text; the cut has MAP_LENGTH + \|sep\| characters (its content is stated by `LinesSplit` and `BuildArenaDescriptor`) |
| `MapEditor.LineCells` | Algorithm/src/simulator/Controller.java:141-147 | character x of line y is '1' exactly when layout[x][y] is true |
| `MapEditor.LinesSplit` | Algorithm/src/simulator/Controller.java:140-149 | the descriptor text splits at multiples of the line length into its lines, each being the cells followed by the separator |
| `MapEditor.BuildArenaDescriptor` | Algorithm/src/simulator/Controller.java:137-149 | the result has MAP_WIDTH lines of MAP_LENGTH characters, each followed by the separator; character x of line y is '1' exactly when layout[x][y] is true, and '0' otherwise |
| `Coverage.ExploredInRowBound` | Algorithm/src/simulator/Controller.java:404-408 | a row holds at most its length in explored cells, and exactly that many only when none is black |
| `Coverage.ExploredBound` | Algorithm/src/simulator/Controller.java:403-409 | the count is at most rows × MAP_LENGTH, and equals it exactly when no cell is black |
| `Coverage.CountExplored` | Algorithm/src/simulator/Controller.java:402-409 | the count of non-black cells is at most 300, and equals 300 exactly when every cell is explored |
| `Coverage.Percentage` | Algorithm/src/simulator/Controller.java:410 | coverage is never negative, at most 100 for a count of at most 300, and 100 exactly when the count is 300 |
| `Session.ThresholdReached` | Algorithm/src/simulator/Controller.java:269-277 | the threshold `counter <= steps·(1/speed)+10` holds exactly when `(counter-10)·speed <= steps` for speed > 0 and `>= steps` for speed < 0; for speed 0 (an infinite 1/speed) it holds for any positive step count and not for zero steps (a not-a-number sum) |
| `Session.ThresholdMonotone` | Algorithm/src/simulator/Controller.java:269-278 | once the threshold holds, it still holds with fewer seconds left or a longer path back |
| `Session.ExploreSession.constructor` | Algorithm/src/simulator/Controller.java:45-47 | a new session has no running timer and both flags cleared |
| `Session.ExploreSession.StartExploration` | Algorithm/src/simulator/Controller.java:320-425 | in simulation, invalid input or no loaded layout refuses the start and changes nothing; otherwise the countdown starts from the limit (360 with speed 1 on the robot) and the threshold flag is cleared |
| `Session.ExploreSession.Tick` | Algorithm/src/simulator/Controller.java:255-292 | the counter drops by one; at 0 the timer stops and reports a time out; with counter ≥ 0 and a path found, the flag is raised exactly when the threshold holds; the flag is never lowered |
| `Session.ExploreSession.FinishExploration` | Algorithm/src/simulator/Controller.java:357-393 | the robot has reached the start; the timer is stopped; a session without a time out reports "within time limit"; the status says whether the goal was reached; the flag is untouched |
| `Session.FastestPathCountdown.constructor` | Algorithm/src/simulator/Controller.java:295-302 | the countdown starts from the operator's limit, or 120 on the robot, with 0 seconds elapsed |
| `Session.FastestPathCountdown.Tick` | Algorithm/src/simulator/Controller.java:304-317 | the limit drops by one and the elapsed count rises by one, so their sum is unchanged; at 0 the timer stops with a time out |
| `Handshake.IndexOf` | Algorithm/src/simulator/Controller.java:90 | the result is the first index of the character, or -1 exactly when it is absent |
| `Handshake.ParsePosition` | Algorithm/src/simulator/Controller.java:89-92 | a message without a comma fails; otherwise it splits at the first comma and succeeds exactly when both parts parse, giving the two parsed values |
| `Handshake.ParseInt` | Algorithm/src/simulator/Controller.java:91-92 | a parsed value always fits in 32 bits |
| `Handshake.NatToDigitsRoundTrip` | Algorithm/src/simulator/Controller.java:91-92 | decimal digits read back as the number they were written from |
| `Handshake.ParseIntRoundTrip` | Algorithm/src/simulator/Controller.java:91-92 | the decimal text of any 32-bit integer parses back to that integer and contains no comma |
| `Handshake.ParsePositionRoundTrip` | Algorithm/src/simulator/Controller.java:89-92 | the message "x,y" parses back to (x, y) |

## Left out

- Swing user interface: status strings (modelled only as status values for reset, start and finish), `setTimer`, the coverage and timer labels, button enabling, `switchComboBox` and the beep.
- Concurrency: `SwingWorker` and `Timer` scheduling and callback order. The threshold worker is modelled as finishing within its tick, so it compares the counter of that tick. In the source, `process` reads the counter later.
- The coverage sampler's busy-poll loop (line 401). Only one counting pass is modelled.
- The TCP handshake in `run()`: the connection, the message reads, and the loop waiting for the start token. Only the parsing of the position message is modelled.
- `loadMap`'s file write through `FileReaderWriter`, and `Arena.setLayout`/`getLayout` in `loadMap` and `clearMap`. The layout is a parameter.
- `AStarPathFinder.findFastestPath`, `moveRobotAlongFastestPath` and `MazeExplorer.explore` are not part of this model. The back-path step count, the explorer's map and the fastest path's steps are inputs.
- `setRobotSpeed`, `setExploreTimeLimit`, `setFFPTimeLimit` and `setCoverage` only store an operator value or show a status. The speed and time limit become parameters of `StartExploration`.
- The `mazeGrids` parameter of `resetRobotInMaze` and `resetMaze` is always the view's grid. The model uses the controller's view.
- `Session.ThresholdReached`: uses exact real arithmetic, not IEEE single-precision floats. For a zero speed it follows the float rules: infinity, and a not-a-number result when there are no steps.
- `Session.ThresholdMonotone`: only holds for positive speeds.
- `Coverage.Percentage`: the percentage is an exact real, not a float printed with `%.1f`.
- `Handshake.ParseInt`: accepts ASCII digits only. Java's `Integer.parseInt` also accepts other Unicode decimal digits.
- `MapEditor.BuildArenaDescriptor`: the layout's cells are `bool`. A null `Boolean` entry, which would throw in the source, is not modelled.
